/**
 In which order data reaches subscribers: one answer's logs go out in chain order, each to the tag's
 subscribers in the order they subscribed; and over whole runs a subscriber gets its logs in chain order.
 */
module Ordering {
  import opened Prelude
  import opened Tables
  import opened Machine
  import opened Agreement
  import opened Cursor
  import opened Coverage
  import opened Notification
  import opened Delivery
  import opened Evictions

  // ---------- one answer ----------

  /** `u` subscribed before `v`. */
  ghost predicate SubscribedBefore(subs: seq<Subscriber>, u: Subscriber, v: Subscriber) {
    exists x, y :: 0 <= x < y < |subs| && subs[x] == u && subs[y] == v
  }

  ghost predicate Earlier(items: seq<Item>, i: Item, j: Item) {
    exists a, b :: 0 <= a < b < |items| && items[a] == i && items[b] == j
  }

  /** `e` is due before `f`: its item comes first, or it is the same item and its subscriber comes first. */
  ghost predicate DueBefore(subs: seq<Subscriber>, items: seq<Item>, e: Send, f: Send) {
    Earlier(items, e.item, f.item) || (e.item == f.item && SubscribedBefore(subs, e.to, f.to))
  }

  /** What `after` has more than `before`. */
  ghost function Appended(before: seq<Send>, after: seq<Send>): seq<Send>
    requires before <= after
  {
    after[|before|..]
  }

  ghost predicate AllOf(sends: seq<Send>, subs: seq<Subscriber>, items: seq<Item>) {
    forall e <- sends :: e.to in subs && e.item in items
  }

  ghost predicate InDueOrder(sends: seq<Send>, subs: seq<Subscriber>, items: seq<Item>) {
    forall i, j :: 0 <= i < j < |sends| ==> DueBefore(subs, items, sends[i], sends[j])
  }

  lemma {:induction false} NotifyAppends(subs: seq<Subscriber>, item: Item, o: Outbox)
    ensures o.sent <= Notify(subs, item, o).sent
    ensures forall e <- Appended(o.sent, Notify(subs, item, o).sent) :: e.to in subs && e.item == item
  {
    if subs != [] {
      NotifyAppends(subs[1..], item, NotifyOne(subs[0], item, o));
    }
  }

  lemma {:induction false} LaterSubscriber(subs: seq<Subscriber>, u: Subscriber, v: Subscriber)
    requires subs != [] && SubscribedBefore(subs[1..], u, v)
    ensures SubscribedBefore(subs, u, v)
  {
    var x, y :| 0 <= x < y < |subs[1..]| && subs[1..][x] == u && subs[1..][y] == v;
    assert subs[x + 1] == u && subs[y + 1] == v;
  }

  lemma {:induction false} FirstSubscriber(subs: seq<Subscriber>, v: Subscriber)
    requires subs != [] && v in subs[1..]
    ensures SubscribedBefore(subs, subs[0], v)
  {
    var y :| 0 <= y < |subs[1..]| && subs[1..][y] == v;
    assert subs[y + 1] == v;
  }

  ghost predicate InSubscriberOrder(sends: seq<Send>, subs: seq<Subscriber>) {
    forall i, j :: 0 <= i < j < |sends| ==> SubscribedBefore(subs, sends[i].to, sends[j].to)
  }

  lemma {:induction false} JoinedSubscribers(subs: seq<Subscriber>, first: seq<Send>, rest: seq<Send>)
    requires subs != [] && |first| <= 1 && (first != [] ==> first[0].to == subs[0])
    requires InSubscriberOrder(rest, subs[1..]) && forall e <- rest :: e.to in subs[1..]
    ensures InSubscriberOrder(first + rest, subs)
  {
    var all, k := first + rest, |first|;
    forall i, j | 0 <= i < j < |all| ensures SubscribedBefore(subs, all[i].to, all[j].to) {
      assert all[j] == rest[j - k] && rest[j - k] in rest;
      if i < k {
        FirstSubscriber(subs, all[j].to);
      } else {
        LaterSubscriber(subs, all[i].to, all[j].to);
      }
    }
  }

  /** The sends of one item follow the subscriber list. */
  lemma {:induction false} NotifyOrder(subs: seq<Subscriber>, item: Item, o: Outbox)
    ensures o.sent <= Notify(subs, item, o).sent
    ensures InSubscriberOrder(Appended(o.sent, Notify(subs, item, o).sent), subs)
  {
    NotifyAppends(subs, item, o);
    if subs != [] {
      var m := NotifyOne(subs[0], item, o);
      NotifyAppends(subs[1..], item, m);
      NotifyOrder(subs[1..], item, m);
      var first, rest := Appended(o.sent, m.sent), Appended(m.sent, Notify(subs[1..], item, m).sent);
      JoinedSubscribers(subs, first, rest);
      assert Appended(o.sent, Notify(subs, item, o).sent) == first + rest;
    }
  }

  lemma {:induction false} DeliverAppends(subs: seq<Subscriber>, items: seq<Item>, o: Outbox)
    ensures o.sent <= Deliver(subs, items, o).sent
    ensures AllOf(Appended(o.sent, Deliver(subs, items, o).sent), subs, items)
  {
    if items != [] {
      NotifyAppends(subs, items[0], o);
      DeliverAppends(subs, items[1..], Notify(subs, items[0], o));
    }
  }

  lemma {:induction false} LaterItem(items: seq<Item>, i: Item, j: Item)
    requires items != []
    ensures Earlier(items[1..], i, j) ==> Earlier(items, i, j)
    ensures j in items[1..] ==> Earlier(items, items[0], j)
  {
    if Earlier(items[1..], i, j) {
      var a, b :| 0 <= a < b < |items[1..]| && items[1..][a] == i && items[1..][b] == j;
      assert items[a + 1] == i && items[b + 1] == j;
    }
    if j in items[1..] {
      var b :| 0 <= b < |items[1..]| && items[1..][b] == j;
      assert items[b + 1] == j;
    }
  }

  lemma {:induction false} JoinedOrder(subs: seq<Subscriber>, items: seq<Item>, first: seq<Send>, rest: seq<Send>)
    requires items != [] && InSubscriberOrder(first, subs) && (forall e <- first :: e.item == items[0])
    requires InDueOrder(rest, subs, items[1..]) && AllOf(rest, subs, items[1..])
    ensures InDueOrder(first + rest, subs, items)
  {
    var all := first + rest;
    forall i, j | 0 <= i < j < |all| ensures DueBefore(subs, items, all[i], all[j]) {
      LaterItem(items, all[i].item, all[j].item);
      if j < |first| {
        assert all[i] in first && all[j] in first;
      } else {
        assert all[j] in rest;
        if i < |first| {
          assert all[i] in first;
        } else {
          assert DueBefore(subs, items[1..], rest[i - |first|], rest[j - |first|]);
        }
      }
    }
  }

  lemma {:induction false} DeliverOrder(subs: seq<Subscriber>, items: seq<Item>, o: Outbox)
    ensures o.sent <= Deliver(subs, items, o).sent
    ensures InDueOrder(Appended(o.sent, Deliver(subs, items, o).sent), subs, items)
  {
    DeliverAppends(subs, items, o);
    if items != [] {
      var m := Notify(subs, items[0], o);
      NotifyAppends(subs, items[0], o);
      NotifyOrder(subs, items[0], o);
      DeliverAppends(subs, items[1..], m);
      DeliverOrder(subs, items[1..], m);
      var first, rest := Appended(o.sent, m.sent), Appended(m.sent, Deliver(subs, items[1..], m).sent);
      JoinedOrder(subs, items, first, rest);
      assert Appended(o.sent, Deliver(subs, items, o).sent) == first + rest;
    }
  }

  // ---------- chain order ----------

  /** `l` stands before `k` on the chain. */
  ghost predicate OnChainBefore(l: Log, k: Log) {
    l.block < k.block || (l.block == k.block && l.index < k.index)
  }

  ghost predicate InChainOrder(items: seq<Item>) {
    forall a, b :: 0 <= a < b < |items| ==>
      items[a].LogItem? && items[b].LogItem? && OnChainBefore(items[a].log, items[b].log)
  }

  lemma {:induction false} MatchingInOrder(cfg: Config, tag: Tag, logs: seq<Log>)
    requires forall i, j :: 0 <= i < j < |logs| ==> OnChainBefore(logs[i], logs[j])
    ensures InChainOrder(Matching(cfg, tag, logs))
    ensures forall i <- Matching(cfg, tag, logs) :: i.LogItem? && i.log in logs
  {
    if logs != [] {
      MatchingInOrder(cfg, tag, logs[1..]);
      var rest := Matching(cfg, tag, logs[1..]);
      forall b | 0 <= b < |rest| ensures OnChainBefore(logs[0], rest[b].log) {
        assert rest[b] in rest;
        var k :| 0 <= k < |logs[1..]| && logs[1..][k] == rest[b].log;
        assert logs[k + 1] == rest[b].log;
      }
    }
  }

  lemma {:induction false} WindowInOrder(cfg: Config, chain: seq<seq<Log>>, tag: Tag, lo: nat, hi: nat)
    requires WellFormed(chain) && hi < |chain|
    ensures InChainOrder(LogsIn(cfg, chain, tag, lo, hi))
    decreases hi + 1 - lo
  {
    if lo <= hi {
      var first, rest := Matching(cfg, tag, chain[lo]), LogsIn(cfg, chain, tag, lo + 1, hi);
      BlockItems(cfg, chain, tag, lo);
      MatchingInOrder(cfg, tag, chain[lo]);
      WindowItems(cfg, chain, tag, lo + 1, hi);
      WindowInOrder(cfg, chain, tag, lo + 1, hi);
      BlocksInOrder(first, rest, lo);
    }
  }

  lemma {:induction false} BlocksInOrder(first: seq<Item>, rest: seq<Item>, lo: nat)
    requires InChainOrder(first) && InChainOrder(rest)
    requires forall i <- first :: i.LogItem? && i.log.block == lo
    requires forall i <- rest :: i.LogItem? && i.log.block > lo
    ensures InChainOrder(first + rest)
  {
    var all := first + rest;
    forall a, b | 0 <= a < b < |all|
      ensures all[a].LogItem? && all[b].LogItem? && OnChainBefore(all[a].log, all[b].log)
    {
      if a < |first| <= b {
        assert all[a] in first && all[b] in rest;
      }
    }
  }

  /**
   One logs answer: what it appends is sent in chain order, and each log to the subscribers of the tag
   in the order of their list.
   */
  lemma {:induction false} AnswerOrder(cfg: Config, s: State, r: Request, hi: nat)
    requires WellFormed(s.chain) && Enabled(cfg, s, Answer(r, hi)) && r.tag.event == LOGS && r.tag in s.svc.table
    ensures var before, after := s.svc.out.sent, Apply(cfg, s, Answer(r, hi)).svc.out.sent;
      && before <= after
      && (forall i :: |before| <= i < |after| ==> after[i].item.LogItem? && after[i].to in s.svc.table[r.tag])
      && (forall i, j :: |before| <= i < j < |after| ==>
            || OnChainBefore(after[i].item.log, after[j].item.log)
            || (after[i].item == after[j].item && SubscribedBefore(s.svc.table[r.tag], after[i].to, after[j].to)))
  {
    var subs, data := s.svc.table[r.tag], Data(cfg, s.chain, r, hi);
    DeliverAppends(subs, data, s.svc.out);
    DeliverOrder(subs, data, s.svc.out);
    WindowInOrder(cfg, s.chain, r.tag, r.from, hi);
    WindowItems(cfg, s.chain, r.tag, r.from, hi);
    assert forall i <- data :: i.LogItem?;
    SentOrder(s.svc.out.sent, Apply(cfg, s, Answer(r, hi)).svc.out.sent, subs, data);
  }

  /** What is appended in due order of items in chain order is sent in chain order. */
  lemma {:induction false} SentOrder(before: seq<Send>, after: seq<Send>, subs: seq<Subscriber>, items: seq<Item>)
    requires before <= after && AllOf(Appended(before, after), subs, items) && InDueOrder(Appended(before, after), subs, items)
    requires InChainOrder(items) && forall i <- items :: i.LogItem?
    ensures forall i :: |before| <= i < |after| ==> after[i].item.LogItem? && after[i].to in subs
    ensures forall i, j :: |before| <= i < j < |after| ==>
      || OnChainBefore(after[i].item.log, after[j].item.log)
      || (after[i].item == after[j].item && SubscribedBefore(subs, after[i].to, after[j].to))
  {
    var new', n := Appended(before, after), |before|;
    forall i | n <= i < |after| ensures after[i].item.LogItem? && after[i].to in subs {
      assert after[i] == new'[i - n] && new'[i - n] in new';
    }
    forall i, j | n <= i < j < |after|
      ensures OnChainBefore(after[i].item.log, after[j].item.log)
        || (after[i].item == after[j].item && SubscribedBefore(subs, after[i].to, after[j].to))
    {
      assert DueBefore(subs, items, new'[i - n], new'[j - n]);
    }
  }

  /** A newHeads answer: the one block is sent once to each subscriber that has not had it, and nothing else. */
  lemma {:induction false} AnswerHeads(cfg: Config, s: State, r: Request, hi: nat, u: Subscriber, i: Item)
    requires Enabled(cfg, s, Answer(r, hi)) && r.tag.event == "newHeads" && cfg.newHeadsEnabled
    requires r.tag in s.svc.table && DistinctIds(s.svc.table[r.tag])
    ensures multiset(Apply(cfg, s, Answer(r, hi)).svc.out.sent)[Send(u, i)] == multiset(s.svc.out.sent)[Send(u, i)]
      + (if u in s.svc.table[r.tag] && i == HeadItem(hi) && (u.id, i) !in s.svc.out.cache then 1 else 0)
  {
    assert Data(cfg, s.chain, r, hi) == [HeadItem(hi)];
    DeliverTimes(s.svc.table[r.tag], Data(cfg, s.chain, r, hi), s.svc.out, u, i);
  }

  // ---------- whole runs ----------

  /** Each subscriber has got its logs in chain order so far. */
  ghost predicate LogsInOrder(sent: seq<Send>) {
    forall i, j :: 0 <= i < j < |sent| ==> PairInOrder(sent[i], sent[j])
  }

  ghost predicate PairInOrder(e: Send, f: Send) {
    e.to == f.to && e.item.LogItem? && f.item.LogItem? ==> OnChainBefore(e.item.log, f.item.log)
  }

  /** No window of a tag starts behind a request or a cursor of that tag. */
  ghost predicate WindowsBehind(s: State) {
    && (forall w <- s.windows :: s.svc.poller.latestBlock.Some? && w.lo <= s.svc.poller.latestBlock.value)
    && (forall w <- s.windows, q <- s.svc.poller.polls :: w.tag == q.tag ==> WindowBehindPoll(w, q))
    && (forall w <- s.windows, r <- s.inflight :: w.tag == r.tag ==> w.lo <= r.from)
  }

  ghost predicate WindowBehindPoll(w: Window, q: Poll) {
    q.lastPolled.Some? ==> w.lo <= q.lastPolled.value
  }

  lemma {:induction false} TickWindows(cfg: Config, s: State, block: nat)
    requires WindowsBehind(s) && Enabled(cfg, s, Tick(block))
    ensures WindowsBehind(Apply(cfg, s, Tick(block)))
  {
    var s' := Apply(cfg, s, Tick(block));
    forall w, r | w in s'.windows && r in s'.inflight && w.tag == r.tag ensures w.lo <= r.from {
      if r !in s.inflight {
        var q := Issued(s.svc.poller.polls, block, |s.chain| - 1, r);
        assert WindowBehindPoll(w, q);
      }
    }
  }

  lemma {:induction false} AnswerWindowsBehind(cfg: Config, s: State, r: Request, hi: nat)
    requires CursorsLag(s) && OneRequestEach(s) && WindowsBehind(s) && Enabled(cfg, s, Answer(r, hi))
    ensures WindowsBehind(AnswerStep(cfg, s, r, hi))
  {
    var s' := AnswerStep(cfg, s, r, hi);
    assert RequestLags(s.svc.poller, |s.chain|, r);
    assert r !in s'.inflight;
    forall w, q' | w in s'.windows && q' in s'.svc.poller.polls && w.tag == q'.tag ensures WindowBehindPoll(w, q') {
      var q := AnswerPolls(cfg, s, r, hi, q');
      if w in s.windows {
        assert WindowBehindPoll(w, q);
      } else {
        assert w.lo == r.from && FromCursor(r, q);
      }
    }
    forall w, o | w in s'.windows && o in s'.inflight && w.tag == o.tag ensures w.lo <= o.from {
      assert o in s.inflight && (o.tag == r.tag ==> o == r);
    }
  }

  lemma {:induction false} FewerBehind(s: State, s': State)
    requires WindowsBehind(s) && s'.inflight <= s.inflight && s'.windows == s.windows
    requires s'.svc.poller.latestBlock == s.svc.poller.latestBlock
    requires forall q <- s'.svc.poller.polls :: q in s.svc.poller.polls || q.lastPolled == None
    ensures WindowsBehind(s')
  {}

  lemma {:induction false} StepWindowsBehind(cfg: Config, s: State, a: Action)
    requires CursorsLag(s) && OneRequestEach(s) && WindowsBehind(s) && Enabled(cfg, s, a)
    ensures WindowsBehind(Apply(cfg, s, a))
  {
    if a.Tick? {
      TickWindows(cfg, s, a.block);
    } else if a.Answer? {
      AnswerWindowsBehind(cfg, s, a.poll, a.hi);
    } else {
      if a.Register? {
        RegisterPolls(cfg, s, a.request, a.id);
      } else if a.Unsub? {
        Shrinks(s, a.conn, a.subId);
      } else if a.Close? {
        Shrinks(s, a.conn, None);
      }
      FewerBehind(s, Apply(cfg, s, a));
    }
  }

  /** What an answer sends anew stands on the chain behind everything its receiver has had. */
  lemma {:induction false} NewIsLater(cfg: Config, s: State, r: Request, hi: nat, e: Send, f: Send)
    requires DeliveryOk(cfg, s) && WindowsBehind(s) && Enabled(cfg, s, Answer(r, hi))
    requires e in s.svc.out.sent && f.to in SubsOf(s.svc.table, r.tag) && f.item in Data(cfg, s.chain, r, hi)
    requires multiset(s.svc.out.sent)[f] == 0
    ensures PairInOrder(e, f)
  {
    if e.to == f.to && e.item.LogItem? && f.item.LogItem? {
      var l, k, u := e.item.log, f.item.log, f.to;
      DataItems(cfg, s.chain, r, hi);
      assert Times(s.svc.out, u, LogItem(l)) == if Due(cfg, s, u, l) then 1 else 0;
      var w :| w in s.windows && DueIn(cfg, s.chain, w, u, l);
      assert Times(s.svc.out, u, LogItem(k)) == if Due(cfg, s, u, k) then 1 else 0;
      assert !DueIn(cfg, s.chain, w, u, k);
      SameBlockOrder(s.chain, l, k);
    }
  }

  lemma {:induction false} SameBlockOrder(chain: seq<seq<Log>>, l: Log, k: Log)
    requires InChain(chain, l) && InChain(chain, k) && l.block <= k.block
    ensures l == k || OnChainBefore(l, k) || OnChainBefore(k, l)
  {}

  /** Nothing that an answer sends has been sent before. */
  lemma {:induction false} AppendedIsNew(cfg: Config, s: State, r: Request, hi: nat, f: Send)
    requires DeliveryOk(cfg, s) && Enabled(cfg, s, Answer(r, hi)) && f.item.LogItem?
    requires s.svc.out.sent <= AnswerStep(cfg, s, r, hi).svc.out.sent
    requires f in Appended(s.svc.out.sent, AnswerStep(cfg, s, r, hi).svc.out.sent)
    ensures multiset(s.svc.out.sent)[f] == 0
  {
    var before, after := s.svc.out.sent, AnswerStep(cfg, s, r, hi).svc.out.sent;
    AnswerDelivery(cfg, s, r, hi);
    assert after == before + Appended(before, after);
    assert multiset(after)[f] == multiset(before)[f] + multiset(Appended(before, after))[f];
    assert Times(AnswerStep(cfg, s, r, hi).svc.out, f.to, f.item) <= 1;
  }

  lemma {:induction false} OrderExtends(before: seq<Send>, new': seq<Send>)
    requires LogsInOrder(before) && LogsInOrder(new')
    requires forall e <- before, f <- new' :: PairInOrder(e, f)
    ensures LogsInOrder(before + new')
  {
    var all := before + new';
    forall i, j | 0 <= i < j < |all| ensures PairInOrder(all[i], all[j]) {
      if j >= |before| > i {
        assert all[i] in before && all[j] in new';
      }
    }
  }

  lemma {:induction false} AppendedInOrder(cfg: Config, s: State, r: Request, hi: nat)
    requires DeliveryOk(cfg, s) && Enabled(cfg, s, Answer(r, hi))
    ensures var before, after := s.svc.out.sent, AnswerStep(cfg, s, r, hi).svc.out.sent;
      before <= after && LogsInOrder(Appended(before, after))
        && AllOf(Appended(before, after), SubsOf(s.svc.table, r.tag), Data(cfg, s.chain, r, hi))
  {
    var subs, data := SubsOf(s.svc.table, r.tag), Data(cfg, s.chain, r, hi);
    DeliverAppends(subs, data, s.svc.out);
    var new' := Appended(s.svc.out.sent, Deliver(subs, data, s.svc.out).sent);
    DeliverOrder(subs, data, s.svc.out);
    forall i, j | 0 <= i < j < |new'| ensures PairInOrder(new'[i], new'[j]) {
      assert DueBefore(subs, data, new'[i], new'[j]);
      if r.tag.event == LOGS {
        WindowInOrder(cfg, s.chain, r.tag, r.from, hi);
        DueBeforeInOrder(subs, data, new'[i], new'[j]);
      } else {
        assert new'[i] in new' && |data| == 1 && !data[0].LogItem?;
      }
    }
  }

  lemma {:induction false} DueBeforeInOrder(subs: seq<Subscriber>, items: seq<Item>, e: Send, f: Send)
    requires DistinctIds(subs) && InChainOrder(items) && DueBefore(subs, items, e, f)
    ensures PairInOrder(e, f)
  {}

  lemma {:induction false} AnswerInOrder(cfg: Config, s: State, r: Request, hi: nat)
    requires DeliveryOk(cfg, s) && WindowsBehind(s) && LogsInOrder(s.svc.out.sent) && Enabled(cfg, s, Answer(r, hi))
    ensures LogsInOrder(AnswerStep(cfg, s, r, hi).svc.out.sent)
  {
    var before, after := s.svc.out.sent, AnswerStep(cfg, s, r, hi).svc.out.sent;
    AppendedInOrder(cfg, s, r, hi);
    forall e, f | e in before && f in Appended(before, after) ensures PairInOrder(e, f) {
      if f.item.LogItem? {
        AppendedIsNew(cfg, s, r, hi, f);
        NewIsLater(cfg, s, r, hi, e, f);
      }
    }
    OrderExtends(before, Appended(before, after));
    assert after == before + Appended(before, after);
  }

  lemma {:induction false} RunInOrder(cfg: Config, s: State, acts: seq<Action>)
    requires DeliveryOk(cfg, s) && OneRequestEach(s) && WindowsBehind(s) && LogsInOrder(s.svc.out.sent)
    requires Legal(cfg, s, acts) && NonOverlapping(cfg, s, acts) && SafeEvictions(cfg, s, acts)
    ensures LogsInOrder(After(cfg, s, acts).svc.out.sent)
    decreases |acts|
  {
    if acts != [] {
      var a := acts[0];
      StepDelivery(cfg, s, a);
      StepEach(cfg, s, a);
      StepWindowsBehind(cfg, s, a);
      if a.Answer? {
        AnswerInOrder(cfg, s, a.poll, a.hi);
      }
      RunInOrder(cfg, Apply(cfg, s, a), acts[1..]);
    }
  }

  /**
   Delivery in order: where polls do not overlap ticks and evictions are safe, every subscriber gets
   its logs strictly in chain order over the whole run, whoever else comes and goes.
   */
  lemma {:induction false} DeliveredInOrder(cfg: Config, chain: seq<seq<Log>>, acts: seq<Action>, i: nat, j: nat)
    requires WellFormed(chain) && Legal(cfg, Init(chain), acts)
    requires NonOverlapping(cfg, Init(chain), acts) && SafeEvictions(cfg, Init(chain), acts)
    requires var sent := After(cfg, Init(chain), acts).svc.out.sent;
      i < j < |sent| && sent[i].to == sent[j].to && sent[i].item.LogItem? && sent[j].item.LogItem?
    ensures var l, k := After(cfg, Init(chain), acts).svc.out.sent[i].item.log, After(cfg, Init(chain), acts).svc.out.sent[j].item.log;
      l.block < k.block || (l.block == k.block && l.index < k.index)
  {
    RunInOrder(cfg, Init(chain), acts);
    assert PairInOrder(After(cfg, Init(chain), acts).svc.out.sent[i], After(cfg, Init(chain), acts).svc.out.sent[j]);
  }
}
