/** The subscriber table and the polling list agree in every state of every run. */
module Agreement {
  import opened Prelude
  import opened Tables
  import opened Machine

  ghost predicate DistinctPolls(polls: seq<Poll>) {
    forall i, j :: 0 <= i < j < |polls| ==> polls[i].tag != polls[j].tag && polls[i].serial != polls[j].serial
  }

  /** Each tag is polled once, the timer runs iff something is polled, the gauges count what is polled. */
  ghost predicate PollerOk(p: Poller) {
    && DistinctPolls(p.polls)
    && (forall q <- p.polls :: q.serial < p.nextSerial)
    && (p.timer <==> p.polls != [])
    && p.activeNewHeads == CountPolls(p.polls, true)
    && p.activePolls == CountPolls(p.polls, false)
  }

  /** The tags with subscribers are exactly the polled tags, and no subscriber list is empty. */
  ghost predicate Agrees(s: Service) {
    && PollerOk(s.poller)
    && (forall t :: t in s.table <==> HasPoll(s.poller.polls, t))
    && (forall t :: t in s.table ==> s.table[t] != [])
  }

  lemma {:induction false} AddPollOk(p: Poller, tag: Tag)
    requires PollerOk(p)
    ensures PollerOk(AddPoll(p, tag))
    ensures forall t :: HasPoll(AddPoll(p, tag).polls, t) <==> t == tag || HasPoll(p.polls, t)
  {
    if !HasPoll(p.polls, tag) {
      var q := Poll(p.nextSerial, tag, None);
      CountAppend(p.polls, q, true);
      CountAppend(p.polls, q, false);
      forall t | t == tag || HasPoll(p.polls, t) ensures HasPoll(p.polls + [q], t) {
        if t == tag {
          assert q in p.polls + [q];
        } else {
          var r :| r in p.polls && r.tag == t;
          assert r in p.polls + [q];
        }
      }
    }
  }

  lemma {:induction false} WithoutDistinct(polls: seq<Poll>, dead: set<Tag>)
    requires DistinctPolls(polls)
    ensures DistinctPolls(Without(polls, dead))
  {
    if polls != [] {
      WithoutDistinct(polls[1..], dead);
      WithoutMembers(polls[1..], dead);
      var tail := Without(polls[1..], dead);
      forall i | 0 <= i < |tail| ensures tail[i].tag != polls[0].tag && tail[i].serial != polls[0].serial {
        assert tail[i] in polls[1..];
      }
    }
  }

  lemma {:induction false} RemovePollsOk(p: Poller, dead: set<Tag>)
    requires PollerOk(p)
    requires forall t <- dead :: HasPoll(p.polls, t)
    ensures PollerOk(RemovePolls(p, dead))
    ensures forall t :: HasPoll(RemovePolls(p, dead).polls, t) <==> t !in dead && HasPoll(p.polls, t)
  {
    WithoutDistinct(p.polls, dead);
    WithoutMembers(p.polls, dead);
    if dead == {} {
      WithoutEmpty(p.polls);
    } else {
      var t :| t in dead;
      assert HasPoll(p.polls, t);
    }
  }

  lemma {:induction false} SettleCounts(polls: seq<Poll>, serial: nat, latest: Option<nat>, heads: bool)
    ensures CountPolls(Settle(polls, serial, latest), heads) == CountPolls(polls, heads)
  {
    if polls != [] {
      SettleCounts(polls[1..], serial, latest, heads);
      assert Settle(polls, serial, latest)[1..] == Settle(polls[1..], serial, latest);
    }
  }

  lemma {:induction false} SettleOk(p: Poller, serial: nat)
    requires PollerOk(p)
    ensures PollerOk(p.(polls := Settle(p.polls, serial, p.latestBlock)))
    ensures forall t :: HasPoll(Settle(p.polls, serial, p.latestBlock), t) <==> HasPoll(p.polls, t)
  {
    var polls := Settle(p.polls, serial, p.latestBlock);
    SettleCounts(p.polls, serial, p.latestBlock, true);
    SettleCounts(p.polls, serial, p.latestBlock, false);
    forall t ensures HasPoll(polls, t) <==> HasPoll(p.polls, t) {
      if HasPoll(p.polls, t) {
        var i :| 0 <= i < |p.polls| && p.polls[i].tag == t;
        assert polls[i] in polls && polls[i].tag == t;
      }
    }
  }

  lemma {:induction false} SubscribeAgrees(s: Service, sameSub: bool, sub: Subscriber, tag: Tag)
    requires Agrees(s)
    ensures Agrees(Subscribe(s, sameSub, sub, tag))
  {
    AddPollOk(s.poller, tag);
  }

  lemma {:induction false} UnsubscribeAgrees(s: Service, conn: ConnId, subId: Option<SubId>)
    requires Agrees(s)
    ensures Agrees(Unsubscribe(s, conn, subId))
  {
    RemovePollsOk(s.poller, Emptied(s.table, conn, subId));
  }

  lemma {:induction false} StepAgrees(cfg: Config, s: State, a: Action)
    requires Agrees(s.svc) && Enabled(cfg, s, a)
    ensures Agrees(Apply(cfg, s, a).svc)
  {
    match a
    case Register(request, id) =>
      var r := s.pending[request];
      SubscribeAgrees(s.svc, cfg.sameSub, Subscriber(r.conn, id), r.tag);
    case Unsub(c, subId) => UnsubscribeAgrees(s.svc, c, subId);
    case Close(c) => UnsubscribeAgrees(s.svc, c, None);
    case Answer(r, hi) => SettleOk(s.svc.poller, r.serial);
    case _ =>
  }

  lemma {:induction false} RunAgrees(cfg: Config, s: State, acts: seq<Action>)
    requires Agrees(s.svc) && Legal(cfg, s, acts)
    ensures Agrees(After(cfg, s, acts).svc)
    decreases |acts|
  {
    if acts != [] {
      StepAgrees(cfg, s, acts[0]);
      RunAgrees(cfg, Apply(cfg, s, acts[0]), acts[1..]);
    }
  }

  /** Where the polls for newHeads stand, or those for anything else. */
  ghost function PollsOfKind(polls: seq<Poll>, heads: bool): set<nat> {
    set i: nat | i < |polls| && (polls[i].tag.event == "newHeads") == heads
  }

  lemma {:induction false} KindAppend(polls: seq<Poll>, p: Poll, heads: bool)
    ensures PollsOfKind(polls + [p], heads)
         == PollsOfKind(polls, heads) + (if (p.tag.event == "newHeads") == heads then {|polls|} else {})
    ensures |polls| !in PollsOfKind(polls, heads)
  {}

  lemma {:induction false} CountIsSize(polls: seq<Poll>, heads: bool)
    ensures CountPolls(polls, heads) == |PollsOfKind(polls, heads)|
  {
    if polls == [] {
      assert PollsOfKind(polls, heads) == {};
    } else {
      var init, last := polls[..|polls| - 1], polls[|polls| - 1];
      assert polls == init + [last];
      CountIsSize(init, heads);
      CountAppend(init, last, heads);
      KindAppend(init, last, heads);
    }
  }

  /** Table agreement, in every reachable state. */
  lemma {:induction false} TablesAlwaysAgree(cfg: Config, chain: seq<seq<Log>>, acts: seq<Action>)
    requires Legal(cfg, Init(chain), acts)
    ensures var svc := After(cfg, Init(chain), acts).svc;
      var polls := svc.poller.polls;
      && (forall t :: t in svc.table <==> exists i :: 0 <= i < |polls| && polls[i].tag == t)
      && (forall i, j :: 0 <= i < j < |polls| ==> polls[i].tag != polls[j].tag)
      && (forall t :: t in svc.table ==> svc.table[t] != [])
      && (svc.poller.timer <==> polls != [])
      && svc.poller.activeNewHeads == |set i: nat | i < |polls| && polls[i].tag.event == "newHeads"|
      && svc.poller.activePolls == |set i: nat | i < |polls| && polls[i].tag.event != "newHeads"|
  {
    RunAgrees(cfg, Init(chain), acts);
    var svc := After(cfg, Init(chain), acts).svc;
    CountIsSize(svc.poller.polls, true);
    CountIsSize(svc.poller.polls, false);
    assert PollsOfKind(svc.poller.polls, true) == set i: nat | i < |svc.poller.polls| && svc.poller.polls[i].tag.event == "newHeads";
    assert PollsOfKind(svc.poller.polls, false) == set i: nat | i < |svc.poller.polls| && svc.poller.polls[i].tag.event != "newHeads";
    forall t ensures t in svc.table <==> exists i :: 0 <= i < |svc.poller.polls| && svc.poller.polls[i].tag == t {
      if HasPoll(svc.poller.polls, t) {
        var p :| p in svc.poller.polls && p.tag == t;
      }
    }
  }
}
