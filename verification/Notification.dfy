/** What one poll result does to the outbox, and what a poll result consists of. */
module Notification {
  import opened Prelude
  import opened Tables
  import opened Machine

  ghost predicate DistinctIds(subs: seq<Subscriber>) {
    forall i, j :: 0 <= i < j < |subs| ==> subs[i].id != subs[j].id
  }

  ghost predicate NoDup(items: seq<Item>) {
    forall i, j :: 0 <= i < j < |items| ==> items[i] != items[j]
  }

  ghost function Times(o: Outbox, u: Subscriber, item: Item): nat {
    multiset(o.sent)[Send(u, item)]
  }

  /** One item to all subscribers: each gets it once, unless the cache still knows the pair. */
  lemma {:induction false} NotifyTimes(subs: seq<Subscriber>, item: Item, o: Outbox, u: Subscriber, i: Item)
    requires DistinctIds(subs)
    ensures Times(Notify(subs, item, o), u, i)
         == Times(o, u, i) + (if u in subs && i == item && (u.id, i) !in o.cache then 1 else 0)
  {
    if subs != [] {
      var h, rest := subs[0], subs[1..];
      assert subs == [h] + rest;
      assert forall v <- rest :: v.id != h.id;
      NotifyTimes(rest, item, NotifyOne(h, item, o), u, i);
    }
  }

  lemma {:induction false} NotifyCache(subs: seq<Subscriber>, item: Item, o: Outbox, id: SubId, i: Item)
    ensures (id, i) in Notify(subs, item, o).cache <==>
      (id, i) in o.cache || (i == item && exists v <- subs :: v.id == id)
  {
    if subs != [] {
      assert subs == [subs[0]] + subs[1..];
      NotifyCache(subs[1..], item, NotifyOne(subs[0], item, o), id, i);
    }
  }

  /** All items of one answer to all subscribers. */
  lemma {:induction false} DeliverTimes(subs: seq<Subscriber>, items: seq<Item>, o: Outbox, u: Subscriber, i: Item)
    requires DistinctIds(subs) && NoDup(items)
    ensures Times(Deliver(subs, items, o), u, i)
         == Times(o, u, i) + (if u in subs && i in items && (u.id, i) !in o.cache then 1 else 0)
  {
    if items != [] {
      var h, rest := items[0], items[1..];
      assert items == [h] + rest;
      assert h !in rest;
      NotifyTimes(subs, h, o, u, i);
      NotifyCache(subs, h, o, u.id, i);
      DeliverTimes(subs, rest, Notify(subs, h, o), u, i);
    }
  }

  lemma {:induction false} DeliverCache(subs: seq<Subscriber>, items: seq<Item>, o: Outbox, id: SubId, i: Item)
    ensures (id, i) in Deliver(subs, items, o).cache <==>
      (id, i) in o.cache || (i in items && exists v <- subs :: v.id == id)
  {
    if items != [] {
      assert items == [items[0]] + items[1..];
      NotifyCache(subs, items[0], o, id, i);
      DeliverCache(subs, items[1..], Notify(subs, items[0], o), id, i);
    }
  }

  // ---------- poll results ----------

  ghost predicate InChain(chain: seq<seq<Log>>, l: Log) {
    l.block < |chain| && l.index < |chain[l.block]| && chain[l.block][l.index] == l
  }

  /** What `eth_getLogs` must return for a window, item by item. */
  ghost predicate Wanted(cfg: Config, chain: seq<seq<Log>>, tag: Tag, lo: nat, hi: nat, l: Log) {
    InChain(chain, l) && lo <= l.block <= hi && cfg.matches(tag, l)
  }

  lemma {:induction false} MatchingItems(cfg: Config, tag: Tag, logs: seq<Log>)
    requires forall i, j :: 0 <= i < j < |logs| ==> logs[i] != logs[j]
    ensures forall i :: i in Matching(cfg, tag, logs) <==> i.LogItem? && i.log in logs && cfg.matches(tag, i.log)
    ensures NoDup(Matching(cfg, tag, logs))
  {
    if logs != [] {
      assert logs == [logs[0]] + logs[1..];
      MatchingItems(cfg, tag, logs[1..]);
      assert LogItem(logs[0]) !in Matching(cfg, tag, logs[1..]);
    }
  }

  lemma {:induction false} BlockItems(cfg: Config, chain: seq<seq<Log>>, tag: Tag, b: nat)
    requires WellFormed(chain) && b < |chain|
    ensures NoDup(Matching(cfg, tag, chain[b]))
    ensures forall i :: i in Matching(cfg, tag, chain[b]) <==> i.LogItem? && Wanted(cfg, chain, tag, b, b, i.log)
  {
    MatchingItems(cfg, tag, chain[b]);
    forall l ensures l in chain[b] <==> InChain(chain, l) && l.block == b {
      if l in chain[b] {
        var k :| 0 <= k < |chain[b]| && chain[b][k] == l;
      }
    }
  }

  /** A window's answer holds every wanted log, nothing else, and nothing twice. */
  lemma {:induction false} WindowItems(cfg: Config, chain: seq<seq<Log>>, tag: Tag, lo: nat, hi: nat)
    requires WellFormed(chain) && hi < |chain|
    ensures NoDup(LogsIn(cfg, chain, tag, lo, hi))
    ensures forall i :: i in LogsIn(cfg, chain, tag, lo, hi) <==> i.LogItem? && Wanted(cfg, chain, tag, lo, hi, i.log)
    decreases hi + 1 - lo
  {
    if lo <= hi {
      var first, rest := Matching(cfg, tag, chain[lo]), LogsIn(cfg, chain, tag, lo + 1, hi);
      BlockItems(cfg, chain, tag, lo);
      WindowItems(cfg, chain, tag, lo + 1, hi);
      forall i, j | 0 <= i < j < |first + rest| ensures (first + rest)[i] != (first + rest)[j] {
        if i < |first| <= j {
          assert first[i] in first && rest[j - |first|] in rest;
        }
      }
    }
  }

  lemma {:induction false} DataItems(cfg: Config, chain: seq<seq<Log>>, r: Request, hi: nat)
    requires WellFormed(chain) && hi < |chain|
    ensures NoDup(Data(cfg, chain, r, hi))
    ensures forall l :: LogItem(l) in Data(cfg, chain, r, hi) <==>
      r.tag.event == LOGS && Wanted(cfg, chain, r.tag, r.from, hi, l)
  {
    if r.tag.event == LOGS {
      WindowItems(cfg, chain, r.tag, r.from, hi);
    }
  }
}
