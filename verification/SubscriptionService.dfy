/**
 `PollerService` and `SubscriptionService` with their fields, each method proved against the
 table functions of Tables.dfy. A timer is a flag, a send is an entry in `sent`.
 */
module Services {
  import opened Prelude
  import opened Tables

  class PollerService {
    var polls: seq<Poll>
    var nextSerial: nat
    var interval: bool
    var latestBlock: Option<nat>
    var activePollsGauge: int
    var activeNewHeadsPollsGauge: int

    ghost function View(): Poller
      reads this
    {
      Poller(polls, nextSerial, interval, latestBlock, activePollsGauge, activeNewHeadsPollsGauge)
    }

    constructor ()
      ensures View() == EMPTY_POLLER
    {
      polls, nextSerial, interval, latestBlock := [], 0, false, None;
      activePollsGauge, activeNewHeadsPollsGauge := 0, 0;
    }

    method Add(tag: Tag)
      modifies this
      ensures View() == AddPoll(old(View()), tag)
      ensures polls == old(polls) + (if exists p <- old(polls) :: p.tag == tag then [] else [Poll(old(nextSerial), tag, None)])
      ensures interval && latestBlock == old(latestBlock)
      ensures activeNewHeadsPollsGauge - old(activeNewHeadsPollsGauge) == (if tag.event == "newHeads" then |polls| - |old(polls)| else 0)
      ensures activePollsGauge - old(activePollsGauge) == (if tag.event == "newHeads" then 0 else |polls| - |old(polls)|)
    {
      if !HasPoll(polls, tag) {
        polls := polls + [Poll(nextSerial, tag, None)];
        nextSerial := nextSerial + 1;
        if IsNewHeads(tag) {
          activeNewHeadsPollsGauge := activeNewHeadsPollsGauge + 1;
        } else {
          activePollsGauge := activePollsGauge + 1;
        }
      }
      if !interval {
        interval := true;
      }
    }

    method Remove(tag: Tag)
      modifies this
      ensures View() == RemovePolls(old(View()), {tag})
      ensures forall p :: p in polls <==> p in old(polls) && p.tag != tag
      ensures interval == (old(interval) && polls != []) && latestBlock == old(latestBlock)
      ensures old(activeNewHeadsPollsGauge) - activeNewHeadsPollsGauge == (if tag.event == "newHeads" then |old(polls)| - |polls| else 0)
      ensures old(activePollsGauge) - activePollsGauge == (if tag.event == "newHeads" then 0 else |old(polls)| - |polls|)
    {
      RemoveOne(View(), tag);
      WithoutMembers(polls, {tag});
      var pollsAtStart := |polls|;
      polls := Without(polls, {tag});
      var pollsRemoved := pollsAtStart - |polls|;
      if pollsRemoved > 0 {
        if IsNewHeads(tag) {
          activeNewHeadsPollsGauge := activeNewHeadsPollsGauge - pollsRemoved;
        } else {
          activePollsGauge := activePollsGauge - pollsRemoved;
        }
      }
      if |polls| == 0 {
        interval := false;
      }
    }

    /** A timer tick whose `eth_blockNumber` answered `block`: every poll sends its request. */
    method Tick(block: nat, head: nat) returns (requests: seq<Request>)
      modifies this
      ensures View() == old(View()).(latestBlock := Some(block))
      ensures requests == Requests(polls, block, head)
      ensures |requests| == |polls| && forall i :: 0 <= i < |polls| ==>
        requests[i] == Request(polls[i].serial, polls[i].tag,
                               if polls[i].lastPolled.Some? then polls[i].lastPolled.value else block, head)
    {
      latestBlock := Some(block);
      requests := [];
      for i := 0 to |polls|
        invariant requests == Requests(polls, block, head)[..i]
        invariant View() == old(View()).(latestBlock := Some(block))
      {
        requests := requests + [Request(polls[i].serial, polls[i].tag, From(polls[i], block), head)];
      }
    }

    /** The answer to a poll arrived: its cursor becomes the block number read last. */
    method Settled(serial: nat)
      modifies this
      ensures View() == old(View()).(polls := Settle(old(polls), serial, latestBlock))
      ensures |polls| == |old(polls)| && forall i :: 0 <= i < |polls| ==>
        && polls[i].serial == old(polls)[i].serial && polls[i].tag == old(polls)[i].tag
        && polls[i].lastPolled == if polls[i].serial == serial then latestBlock else old(polls)[i].lastPolled
    {
      var settled := [];
      for i := 0 to |polls|
        invariant settled == Settle(polls, serial, latestBlock)[..i]
        invariant View() == old(View())
      {
        settled := settled + [if polls[i].serial == serial then polls[i].(lastPolled := latestBlock) else polls[i]];
      }
      polls := settled;
    }
  }

  class SubscriptionService {
    const pollerService: PollerService
    var subscriptions: map<Tag, seq<Subscriber>>
    var cache: set<(SubId, Item)>
    var sent: seq<Send>

    ghost function View(): Service
      reads this, pollerService
    {
      Service(subscriptions, pollerService.View(), Outbox(cache, sent))
    }

    constructor ()
      ensures View() == EMPTY_SERVICE && fresh(pollerService)
    {
      pollerService := new PollerService();
      subscriptions, cache, sent := map[], {}, [];
    }

    /** `freshId` is the id `generateId` returns if a subscription is created. */
    method Subscribe(sameSub: bool, conn: ConnId, event: string, filters: Filters, freshId: SubId)
        returns (subId: SubId)
      modifies this, pollerService
      ensures View() == Tables.Subscribe(old(View()), sameSub, Subscriber(conn, freshId), Tag(event, filters))
      ensures Tag(event, filters) in subscriptions
      ensures Subscriber(conn, subId) in subscriptions[Tag(event, filters)]
      ensures var tag := Tag(event, filters);
        var before := if tag in old(subscriptions) then old(subscriptions)[tag] else [];
        if sameSub && exists u <- before :: u.conn == conn then View() == old(View())
        else
          && subId == freshId && subscriptions == old(subscriptions)[tag := before + [Subscriber(conn, freshId)]]
          && cache == old(cache) && sent == old(sent)
    {
      var tag := Tag(event, filters);
      var subs := SubsOf(subscriptions, tag);
      if sameSub {
        var i := 0;
        while i < |subs|
          invariant 0 <= i <= |subs|
          invariant forall j :: 0 <= j < i ==> subs[j].conn != conn
        {
          if subs[i].conn == conn {
            assert subs[i] in subs;
            return subs[i].id;
          }
          i := i + 1;
        }
      }
      subId := freshId;
      subscriptions := subscriptions[tag := subs + [Subscriber(conn, subId)]];
      pollerService.Add(tag);
    }

    /** The tags are visited in any order; the count and the tables do not depend on it. */
    method Unsubscribe(conn: ConnId, subId: Option<SubId>) returns (subCount: nat)
      modifies this, pollerService
      ensures View() == Tables.Unsubscribe(old(View()), conn, subId)
      ensures subCount == TotalMatches(old(subscriptions), conn, subId)
    {
      subCount := 0;
      var entries := subscriptions;
      ghost var done: set<Tag> := {};
      ghost var table0, poller0 := subscriptions, pollerService.View();
      SweepStart(Tables.Service(table0, poller0, View().out), conn, subId);
      while entries != map[]
        invariant done <= table0.Keys && entries == table0 - done
        invariant subscriptions == Swept(table0, done, conn, subId)
        invariant pollerService.View() == RemovePolls(poller0, Emptied(table0, conn, subId) * done)
        invariant subCount + TotalMatches(entries, conn, subId) == TotalMatches(table0, conn, subId)
        invariant cache == old(cache) && sent == old(sent)
        decreases |entries|
      {
        var tag :| tag in entries;
        SweepTable(table0, done, tag, conn, subId);
        SweepPolls(table0, poller0, done, tag, conn, subId);
        SweepCount(table0, done, tag, conn, subId);
        var left := Keep(entries[tag], conn, subId);
        subCount := subCount + (|entries[tag]| - |left|);
        Store(tag, left);
        entries := entries - {tag};
        done := done + {tag};
      }
      SweepEnd(table0, done, conn, subId);
    }

    /** What is left of a tag's subscribers replaces them, and a tag without any is no longer polled. */
    method Store(tag: Tag, left: seq<Subscriber>)
      modifies this, pollerService
      ensures subscriptions == if left == [] then old(subscriptions) - {tag} else old(subscriptions)[tag := left]
      ensures pollerService.View() == if left == [] then RemovePolls(old(pollerService.View()), {tag}) else old(pollerService.View())
      ensures cache == old(cache) && sent == old(sent)
    {
      if left == [] {
        subscriptions := subscriptions - {tag};
        pollerService.Remove(tag);
      } else {
        subscriptions := subscriptions[tag := left];
      }
    }

    /** The callback of a poll: the data goes to every subscriber that has not had it yet. */
    method NotifySubscribers(tag: Tag, data: Item)
      modifies this
      ensures View() == old(View()).(out := Notify(SubsOf(old(subscriptions), tag), data, old(View()).out))
    {
      if tag in subscriptions && |subscriptions[tag]| > 0 {
        var subs := subscriptions[tag];
        for i := 0 to |subs|
          invariant subscriptions == old(subscriptions)
          invariant Notify(subs[i..], data, View().out) == Notify(subs, data, old(View()).out)
        {
          var sub := subs[i];
          if (sub.id, data) !in cache {
            cache := cache + {(sub.id, data)};
            sent := sent + [Send(sub, data)];
          }
          assert subs[i..][1..] == subs[i + 1..];
        }
      }
    }

    /** A poll result arrived: one callback an item. */
    method Received(tag: Tag, data: seq<Item>)
      modifies this
      ensures View() == old(View()).(out := Deliver(SubsOf(old(subscriptions), tag), data, old(View()).out))
    {
      ghost var subs := SubsOf(subscriptions, tag);
      for i := 0 to |data|
        invariant subscriptions == old(subscriptions)
        invariant Deliver(subs, data[i..], View().out) == Deliver(subs, data, old(View()).out)
      {
        NotifySubscribers(tag, data[i]);
        assert data[i..][1..] == data[i + 1..];
      }
    }
  }

  // ---------- removing polls ----------

  lemma {:induction false} RemoveOne(p: Poller, tag: Tag)
    ensures var rest := Without(p.polls, {tag});
      var removed := |p.polls| - |rest|;
      && removed >= 0
      && RemovePolls(p, {tag}) == p.(
           polls := rest,
           timer := p.timer && rest != [],
           activeNewHeads := p.activeNewHeads - (if IsNewHeads(tag) then removed else 0),
           activePolls := p.activePolls - (if IsNewHeads(tag) then 0 else removed))
  {
    WithoutCounts(p.polls, tag);
    WithoutMembers(p.polls, {tag});
  }

  // ---------- the sweep of `unsubscribe` over the tags ----------

  /** The dictionary when the tags in `done` have been visited. */
  ghost function Swept(table: Table, done: set<Tag>, conn: ConnId, subId: Option<SubId>): Table {
    map t | t in table && (t in done ==> Keep(table[t], conn, subId) != []) ::
      if t in done then Keep(table[t], conn, subId) else table[t]
  }

  lemma {:induction false} SweepStart(s: Tables.Service, conn: ConnId, subId: Option<SubId>)
    ensures s.table == s.table - {} == Swept(s.table, {}, conn, subId)
    ensures RemovePolls(s.poller, Emptied(s.table, conn, subId) * {}) == s.poller
  {
    WithoutEmpty(s.poller.polls);
    assert Emptied(s.table, conn, subId) * {} == {};
  }

  lemma {:induction false} SweepTable(table: Table, done: set<Tag>, tag: Tag, conn: ConnId, subId: Option<SubId>)
    requires done <= table.Keys && tag in table - done
    ensures Keep(table[tag], conn, subId) == [] ==>
      Swept(table, done + {tag}, conn, subId) == Swept(table, done, conn, subId) - {tag}
    ensures Keep(table[tag], conn, subId) != [] ==>
      Swept(table, done + {tag}, conn, subId)
        == Swept(table, done, conn, subId)[tag := Keep(table[tag], conn, subId)]
  {}

  lemma {:induction false} SweepPolls(table: Table, p: Poller, done: set<Tag>, tag: Tag, conn: ConnId, subId: Option<SubId>)
    requires tag in table
    ensures RemovePolls(p, Emptied(table, conn, subId) * (done + {tag})) == (
      if Keep(table[tag], conn, subId) == [] then RemovePolls(RemovePolls(p, Emptied(table, conn, subId) * done), {tag})
      else RemovePolls(p, Emptied(table, conn, subId) * done))
  {
    var dead := Emptied(table, conn, subId);
    if Keep(table[tag], conn, subId) == [] {
      assert dead * (done + {tag}) == dead * done + {tag};
      RemoveStep(p, dead * done, tag);
    } else {
      assert dead * (done + {tag}) == dead * done;
    }
  }

  lemma {:induction false} SweepCount(table: Table, done: set<Tag>, tag: Tag, conn: ConnId, subId: Option<SubId>)
    requires done <= table.Keys && tag in table - done
    ensures (table - done)[tag] == table[tag] && table - done - {tag} == table - (done + {tag})
    ensures |table - done - {tag}| < |table - done|
    ensures |Keep(table[tag], conn, subId)| <= |table[tag]|
    ensures TotalMatches(table - done, conn, subId)
         == |table[tag]| - |Keep(table[tag], conn, subId)| + TotalMatches(table - done - {tag}, conn, subId)
  {
    KeepMembers(table[tag], conn, subId);
    TotalSplit(table - done, conn, subId, tag);
    assert (table - done - {tag}).Keys == (table - done).Keys - {tag};
  }

  lemma {:induction false} SweepEnd(table: Table, done: set<Tag>, conn: ConnId, subId: Option<SubId>)
    requires done <= table.Keys && table - done == map[]
    ensures Swept(table, done, conn, subId) == KeepAll(table, conn, subId)
    ensures Emptied(table, conn, subId) * done == Emptied(table, conn, subId)
    ensures TotalMatches(table - done, conn, subId) == 0
  {
    forall t | t in table ensures t in done {
      assert t !in table - done;
    }
  }

  /** Removing one more tag after a set of tags is removing the larger set. */
  lemma {:induction false} RemoveStep(p: Poller, dead: set<Tag>, tag: Tag)
    ensures RemovePolls(RemovePolls(p, dead), {tag}) == RemovePolls(p, dead + {tag})
  {
    WithoutUnion(p.polls, dead, {tag});
    WithoutMembers(p.polls, dead);
    WithoutMembers(Without(p.polls, dead), {tag});
  }
}
