/**
 The per-connection counters: what they conserve in every run, and what the subscription limit
 really bounds when subscribe requests of one connection overlap.
 */
module Counters {
  import opened Prelude
  import opened Tables
  import opened Machine

  /** Requests of `c` between the limit check and the increment. */
  ghost function Pending(pending: map<nat, SubRequest>, c: ConnId): set<nat> {
    set r | r in pending && pending[r].conn == c
  }

  /** Those of them that `subscribe` has already served. */
  ghost function Uncounted(pending: map<nat, SubRequest>, c: ConnId): set<nat> {
    set r | r in pending && pending[r].conn == c && pending[r].stage == Registered
  }

  /** With WS_SAME_SUB_FOR_SAME_EVENT a connection is on a tag at most once. */
  ghost predicate OncePerTag(table: Table) {
    forall t, i, j :: t in table && 0 <= i < j < |table[t]| ==> table[t][i].conn != table[t][j].conn
  }

  /** The counter, plus what is not counted yet, is the live subscriptions plus the deduplicated re-subscribes. */
  ghost predicate Conserved(s: State, c: ConnId)
    requires c in s.conns
  {
    s.conns[c].counter + |Uncounted(s.pending, c)| == Live(s.svc.table, c) + s.conns[c].dedups
  }

  ghost predicate PendingKnown(s: State) {
    forall r :: r in s.pending ==> s.pending[r].conn in s.conns
  }

  ghost predicate CountersOk(cfg: Config, s: State) {
    && (forall c :: c in s.conns && s.conns[c].open ==> Conserved(s, c))
    && (!cfg.sameSub ==> forall c :: c in s.conns ==> s.conns[c].dedups == 0)
    && (cfg.sameSub ==> OncePerTag(s.svc.table))
    && PendingKnown(s)
    && (forall t, u :: t in s.svc.table && u in s.svc.table[t] ==> u.conn in s.conns)
  }

  // ---------- live subscriptions ----------

  lemma {:induction false} CountKept(subs: seq<Subscriber>, c: ConnId, subId: Option<SubId>, d: ConnId)
    ensures MatchCount(Keep(subs, c, subId), d, None) + (if d == c then MatchCount(subs, c, subId) else 0)
         == MatchCount(subs, d, None)
  {
    if subs != [] {
      CountKept(subs[1..], c, subId, d);
      var tail := Keep(subs[1..], c, subId);
      assert ([subs[0]] + tail)[1..] == tail;
      assert [] + tail == tail;
    }
  }

  lemma {:induction false} KeptSplit(table: Table, c: ConnId, subId: Option<SubId>, t: Tag, d: ConnId)
    requires t in table
    ensures Live(KeepAll(table, c, subId), d)
         == MatchCount(Keep(table[t], c, subId), d, None) + Live(KeepAll(table - {t}, c, subId), d)
  {
    var kept := KeepAll(table, c, subId);
    assert kept - {t} == KeepAll(table - {t}, c, subId);
    if t in kept {
      TotalSplit(kept, d, None, t);
    } else {
      assert kept - {t} == kept;
    }
  }

  /** What `unsubscribe` counts is exactly what it removes, and other connections lose nothing. */
  lemma {:induction false} LiveAfterUnsubscribe(table: Table, c: ConnId, subId: Option<SubId>, d: ConnId)
    ensures Live(KeepAll(table, c, subId), d) + (if d == c then TotalMatches(table, c, subId) else 0)
         == Live(table, d)
    decreases |table|
  {
    if table == map[] {
      assert KeepAll(table, c, subId) == map[];
    } else {
      var t :| t in table;
      assert (table - {t}).Keys == table.Keys - {t};
      LiveAfterUnsubscribe(table - {t}, c, subId, d);
      KeptSplit(table, c, subId, t, d);
      CountKept(table[t], c, subId, d);
      TotalSplit(table, c, subId, t);
      TotalSplit(table, d, None, t);
    }
  }

  lemma {:induction false} CountPushed(subs: seq<Subscriber>, sub: Subscriber, d: ConnId)
    ensures MatchCount(subs + [sub], d, None) == MatchCount(subs, d, None) + (if sub.conn == d then 1 else 0)
  {
    if subs != [] {
      CountPushed(subs[1..], sub, d);
      assert (subs + [sub])[1..] == subs[1..] + [sub];
    }
  }

  lemma {:induction false} LiveAfterSubscribe(s: Service, sameSub: bool, sub: Subscriber, tag: Tag, d: ConnId)
    ensures Live(Subscribe(s, sameSub, sub, tag).table, d)
         == Live(s.table, d) + (if sub.conn == d && !(sameSub && SubscribedTo(s.table, d, tag)) then 1 else 0)
  {
    if !(sameSub && SubscribedTo(s.table, sub.conn, tag)) {
      var subs := SubsOf(s.table, tag);
      var table := s.table[tag := subs + [sub]];
      CountPushed(subs, sub, d);
      TotalSplit(table, d, None, tag);
      if tag in s.table {
        TotalSplit(s.table, d, None, tag);
        assert table - {tag} == s.table - {tag};
      } else {
        assert table - {tag} == s.table;
      }
    }
  }

  lemma {:induction false} KeepOnce(subs: seq<Subscriber>, c: ConnId, subId: Option<SubId>)
    requires forall i, j :: 0 <= i < j < |subs| ==> subs[i].conn != subs[j].conn
    ensures var kept := Keep(subs, c, subId);
      forall i, j :: 0 <= i < j < |kept| ==> kept[i].conn != kept[j].conn
  {
    if subs != [] {
      KeepOnce(subs[1..], c, subId);
      KeepMembers(subs[1..], c, subId);
      var tail := Keep(subs[1..], c, subId);
      forall i | 0 <= i < |tail| ensures tail[i].conn != subs[0].conn {
        assert tail[i] in subs[1..];
      }
    }
  }

  // ---------- every step conserves ----------

  /** Registering moves a checked request of its own connection to the uncounted ones. */
  lemma {:induction false} UncountedMore(pending: map<nat, SubRequest>, request: nat, c: ConnId)
    requires request in pending && pending[request].stage == Checked
    ensures |Uncounted(pending[request := pending[request].(stage := Registered)], c)|
         == |Uncounted(pending, c)| + (if pending[request].conn == c then 1 else 0)
  {
    var more := if pending[request].conn == c then {request} else {};
    assert Uncounted(pending[request := pending[request].(stage := Registered)], c) == Uncounted(pending, c) + more;
  }

  lemma {:induction false} UncountedLess(pending: map<nat, SubRequest>, request: nat, c: ConnId)
    requires request in pending
    ensures |Uncounted(pending - {request}, c)|
         == |Uncounted(pending, c)| - (if pending[request].conn == c && pending[request].stage == Registered then 1 else 0)
  {
    var gone := if pending[request].conn == c && pending[request].stage == Registered then {request} else {};
    assert Uncounted(pending - {request}, c) == Uncounted(pending, c) - gone;
  }

  lemma {:induction false} RegisterConserves(cfg: Config, s: State, request: nat, id: SubId, c: ConnId)
    requires c in s.conns && Conserved(s, c) && Enabled(cfg, s, Register(request, id))
    ensures Conserved(RegisterStep(cfg, s, request, id), c)
  {
    var r := s.pending[request];
    LiveAfterSubscribe(s.svc, cfg.sameSub, Subscriber(r.conn, id), r.tag, c);
    UncountedMore(s.pending, request, c);
  }

  lemma {:induction false} RegisterCounters(cfg: Config, s: State, request: nat, id: SubId)
    requires CountersOk(cfg, s) && Enabled(cfg, s, Register(request, id))
    ensures CountersOk(cfg, RegisterStep(cfg, s, request, id))
  {
    var s' := RegisterStep(cfg, s, request, id);
    forall c | c in s'.conns && s'.conns[c].open ensures Conserved(s', c) {
      assert Conserved(s, c);
      RegisterConserves(cfg, s, request, id, c);
    }
  }

  lemma {:induction false} UnsubscribeCounters(cfg: Config, s: State, c: ConnId, subId: Option<SubId>)
    requires CountersOk(cfg, s)
    ensures var kept := KeepAll(s.svc.table, c, subId);
      && (cfg.sameSub ==> OncePerTag(kept))
      && (forall t, u :: t in kept && u in kept[t] ==> u.conn in s.conns)
      && (forall d :: d != c ==> Live(kept, d) == Live(s.svc.table, d))
      && Live(kept, c) + TotalMatches(s.svc.table, c, subId) == Live(s.svc.table, c)
  {
    var kept: Table := KeepAll(s.svc.table, c, subId);
    forall t | t in kept ensures forall u <- kept[t] :: u in s.svc.table[t] {
      KeepMembers(s.svc.table[t], c, subId);
    }
    if cfg.sameSub {
      forall t: Tag | t in kept
        ensures forall i, j :: 0 <= i < j < |kept[t]| ==> kept[t][i].conn != kept[t][j].conn
      {
        KeepOnce(s.svc.table[t], c, subId);
        assert kept[t] == Keep(s.svc.table[t], c, subId);
      }
    }
    forall d ensures Live(kept, d) + (if d == c then TotalMatches(s.svc.table, c, subId) else 0) == Live(s.svc.table, d) {
      LiveAfterUnsubscribe(s.svc.table, c, subId, d);
    }
  }

  lemma {:induction false} PendingConserves(cfg: Config, s: State, a: Action, c: ConnId)
    requires c in s.conns && Conserved(s, c) && Enabled(cfg, s, a)
    requires a.Open? || a.Check? || a.Count? || a.Reject?
    ensures Conserved(Apply(cfg, s, a), c)
  {
    if a.Count? || a.Reject? {
      UncountedLess(s.pending, a.request, c);
    } else if a.Check? {
      assert Uncounted(s.pending[a.request := SubRequest(a.conn, a.tag, Checked)], c) == Uncounted(s.pending, c);
    }
  }

  /** A connection that just opened has nothing yet. */
  lemma {:induction false} OpenConserves(cfg: Config, s: State, a: Action)
    requires CountersOk(cfg, s) && a.Open? && Enabled(cfg, s, a)
    ensures Conserved(Apply(cfg, s, a), a.conn)
  {
    assert Uncounted(s.pending, a.conn) == {};
    LiveNone(s.svc.table, a.conn);
  }

  lemma {:induction false} PendingCounters(cfg: Config, s: State, a: Action)
    requires CountersOk(cfg, s) && Enabled(cfg, s, a)
    requires a.Open? || a.Check? || a.Count? || a.Reject?
    ensures CountersOk(cfg, Apply(cfg, s, a))
  {
    var s' := Apply(cfg, s, a);
    forall c | c in s'.conns && s'.conns[c].open ensures Conserved(s', c) {
      if c in s.conns {
        PendingConserves(cfg, s, a, c);
      } else {
        OpenConserves(cfg, s, a);
      }
    }
  }

  lemma {:induction false} LiveNone(table: Table, c: ConnId)
    requires forall t, u :: t in table && u in table[t] ==> u.conn != c
    ensures Live(table, c) == 0
    decreases |table|
  {
    if table != map[] {
      var t :| t in table;
      assert (table - {t}).Keys == table.Keys - {t};
      TotalSplit(table, c, None, t);
      LiveNone(table - {t}, c);
      CountNone(table[t], c);
    }
  }

  lemma {:induction false} CountNone(subs: seq<Subscriber>, c: ConnId)
    requires forall u <- subs :: u.conn != c
    ensures MatchCount(subs, c, None) == 0
  {
    if subs != [] {
      CountNone(subs[1..], c);
    }
  }

  lemma {:induction false} StepCounters(cfg: Config, s: State, a: Action)
    requires CountersOk(cfg, s) && Enabled(cfg, s, a)
    ensures CountersOk(cfg, Apply(cfg, s, a))
  {
    match a
    case Register(request, id) => RegisterCounters(cfg, s, request, id);
    case Unsub(c, subId) => UnsubscribeCounters(cfg, s, c, subId);
    case Close(c) => UnsubscribeCounters(cfg, s, c, None);
    case Open(_, _, _) => PendingCounters(cfg, s, a);
    case Check(_, _, _) => PendingCounters(cfg, s, a);
    case Count(_) => PendingCounters(cfg, s, a);
    case Reject(_) => PendingCounters(cfg, s, a);
    case _ => assert forall c :: c in s.conns && s.conns[c].open ==> Conserved(s, c);
  }

  lemma {:induction false} RunCounters(cfg: Config, s: State, acts: seq<Action>)
    requires CountersOk(cfg, s) && Legal(cfg, s, acts)
    ensures CountersOk(cfg, After(cfg, s, acts))
    decreases |acts|
  {
    if acts != [] {
      StepCounters(cfg, s, acts[0]);
      RunCounters(cfg, Apply(cfg, s, acts[0]), acts[1..]);
    }
  }

  /**
   Counter conservation. For an open connection the counter never falls below minus the number of
   requests still to be counted; with none of those it is at least the live subscriptions, and equal
   to them when WS_SAME_SUB_FOR_SAME_EVENT is off.
   */
  lemma {:induction false} CounterConservation(cfg: Config, chain: seq<seq<Log>>, acts: seq<Action>, c: ConnId)
    requires Legal(cfg, Init(chain), acts)
    requires var s := After(cfg, Init(chain), acts); c in s.conns && s.conns[c].open
    ensures var s := After(cfg, Init(chain), acts);
      && s.conns[c].counter + |Uncounted(s.pending, c)| == Live(s.svc.table, c) + s.conns[c].dedups
      && (!cfg.sameSub ==> s.conns[c].dedups == 0)
      && (cfg.sameSub ==> OncePerTag(s.svc.table))
  {
    RunCounters(cfg, Init(chain), acts);
    var s := After(cfg, Init(chain), acts);
    assert Conserved(s, c);
  }

  // ---------- the limit ----------

  /** At every point of the run at most `k` requests of `c` sit between check and increment. */
  ghost predicate AtMostPending(cfg: Config, s: State, acts: seq<Action>, c: ConnId, k: nat)
    requires Legal(cfg, s, acts)
    decreases |acts|
  {
    && |Pending(s.pending, c)| <= k
    && (acts != [] ==> AtMostPending(cfg, Apply(cfg, s, acts[0]), acts[1..], c, k))
  }

  /** What every step keeps: the counter plus the requests that may still raise it. */
  ghost predicate WithinLimit(cfg: Config, s: State, c: ConnId, k: nat) {
    c in s.conns ==> s.conns[c].counter + |Pending(s.pending, c)| <= cfg.subLimit - 1 + k
  }

  lemma {:induction false} PendingLess(pending: map<nat, SubRequest>, request: nat, c: ConnId)
    requires request in pending
    ensures |Pending(pending - {request}, c)| == |Pending(pending, c)| - (if pending[request].conn == c then 1 else 0)
  {
    var gone := if pending[request].conn == c then {request} else {};
    assert Pending(pending - {request}, c) == Pending(pending, c) - gone;
  }

  lemma {:induction false} PendingSame(pending: map<nat, SubRequest>, request: nat, r: SubRequest, c: ConnId)
    requires if request in pending then pending[request].conn == r.conn else r.conn != c
    ensures Pending(pending[request := r], c) == Pending(pending, c)
  {}

  lemma {:induction false} StepWithinLimit(cfg: Config, s: State, a: Action, c: ConnId, k: nat)
    requires PendingKnown(s) && WithinLimit(cfg, s, c, k) && k >= 1 && Enabled(cfg, s, a)
    requires |Pending(Apply(cfg, s, a).pending, c)| <= k
    ensures WithinLimit(cfg, Apply(cfg, s, a), c, k)
  {
    match a
    case Open(d, _, _) =>
      if c == d {
        assert Pending(s.pending, c) == {};
      }
    case Register(request, _) => PendingSame(s.pending, request, s.pending[request].(stage := Registered), c);
    case Count(request) => PendingLess(s.pending, request, c);
    case Reject(request) => PendingLess(s.pending, request, c);
    case Check(d, request, tag) =>
      if c != d {
        PendingSame(s.pending, request, SubRequest(d, tag, Checked), c);
      }
    case _ =>
  }

  lemma {:induction false} RunWithinLimit(cfg: Config, s: State, acts: seq<Action>, c: ConnId, k: nat)
    requires Legal(cfg, s, acts) && AtMostPending(cfg, s, acts, c, k)
    requires CountersOk(cfg, s) && WithinLimit(cfg, s, c, k) && k >= 1
    ensures WithinLimit(cfg, After(cfg, s, acts), c, k)
    decreases |acts|
  {
    if acts != [] {
      StepCounters(cfg, s, acts[0]);
      StepWithinLimit(cfg, s, acts[0], c, k);
      RunWithinLimit(cfg, Apply(cfg, s, acts[0]), acts[1..], c, k);
    }
  }

  /** The limit under interleaving: at most `k` overlapping requests overshoot it by at most k - 1. */
  lemma {:induction false} LimitUnderInterleaving(cfg: Config, chain: seq<seq<Log>>, acts: seq<Action>, c: ConnId, k: nat)
    requires Legal(cfg, Init(chain), acts) && AtMostPending(cfg, Init(chain), acts, c, k) && k >= 1
    ensures var s := After(cfg, Init(chain), acts);
      c in s.conns ==>
        && s.conns[c].counter <= cfg.subLimit - 1 + k
        && (s.conns[c].open ==> Live(s.svc.table, c) <= cfg.subLimit - 1 + k)
  {
    RunWithinLimit(cfg, Init(chain), acts, c, k);
    RunCounters(cfg, Init(chain), acts);
    var s := After(cfg, Init(chain), acts);
    if c in s.conns && s.conns[c].open {
      assert Conserved(s, c);
      assert Uncounted(s.pending, c) <= Pending(s.pending, c);
      assert Pending(s.pending, c) == Uncounted(s.pending, c) + (Pending(s.pending, c) - Uncounted(s.pending, c));
    }
  }
}
