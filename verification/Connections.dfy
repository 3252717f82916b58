/** Connections: what `clientIps` counts, whom the per-IP limit admits, and when a close is final. */
module Connections {
  import opened Prelude
  import opened Tables
  import opened Machine

  ghost function OpenFrom(conns: map<ConnId, Conn>, ip: string): set<ConnId> {
    set c | c in conns && conns[c].open && conns[c].ip == ip
  }

  ghost function AdmittedFrom(conns: map<ConnId, Conn>, ip: string): set<ConnId> {
    set c | c in OpenFrom(conns, ip) && conns[c].admitted
  }

  /** `clientIps[ip]` is the number of open connections from `ip`, absent when there are none. */
  ghost predicate IpOk(cfg: Config, s: State, ip: string) {
    && (ip in s.clientIps <==> OpenFrom(s.conns, ip) != {})
    && (ip in s.clientIps ==> s.clientIps[ip] == |OpenFrom(s.conns, ip)|)
    && |AdmittedFrom(s.conns, ip)| <= cfg.ipLimit
  }

  lemma {:induction false} Smaller<T>(a: set<T>, b: set<T>)
    requires a <= b
    ensures |a| <= |b|
  {
    assert b == a + (b - a);
  }

  lemma {:induction false} OpenSets(conns: map<ConnId, Conn>, c: ConnId, conn: Conn, at: string)
    requires c !in conns && conn.open
    ensures var after := conns[c := conn];
      && OpenFrom(after, at) == OpenFrom(conns, at) + (if conn.ip == at then {c} else {})
      && AdmittedFrom(after, at) == AdmittedFrom(conns, at) + (if conn.ip == at && conn.admitted then {c} else {})
  {}

  lemma {:induction false} OpenIpOk(cfg: Config, s: State, c: ConnId, ip: string, totalExceeded: bool, at: string)
    requires IpOk(cfg, s, at) && c !in s.conns
    ensures IpOk(cfg, Apply(cfg, s, Open(c, ip, totalExceeded)), at)
  {
    var s' := Apply(cfg, s, Open(c, ip, totalExceeded));
    OpenSets(s.conns, c, s'.conns[c], at);
    if at == ip && s'.conns[c].admitted {
      Smaller(AdmittedFrom(s'.conns, at), OpenFrom(s'.conns, at));
    }
  }

  /** Closing takes one connection out of its own address's open set, and out of no other. */
  lemma {:induction false} CloseSets(conns: map<ConnId, Conn>, c: ConnId, at: string)
    requires c in conns && conns[c].open
    ensures var after := conns[c := conns[c].(open := false)];
      && |OpenFrom(after, at)| == |OpenFrom(conns, at)| - (if conns[c].ip == at then 1 else 0)
      && |AdmittedFrom(after, at)| <= |AdmittedFrom(conns, at)|
  {
    var after := conns[c := conns[c].(open := false)];
    var gone := if conns[c].ip == at then {c} else {};
    assert OpenFrom(after, at) == OpenFrom(conns, at) - gone;
    assert gone <= OpenFrom(conns, at);
    Smaller(AdmittedFrom(after, at), AdmittedFrom(conns, at));
  }

  lemma {:induction false} CloseIpOk(cfg: Config, s: State, c: ConnId, at: string)
    requires IpOk(cfg, s, at) && c in s.conns && s.conns[c].open
    ensures IpOk(cfg, Apply(cfg, s, Close(c)), at)
  {
    CloseSets(s.conns, c, at);
    var after := s.conns[c := s.conns[c].(open := false)];
    assert OpenFrom(after, at) == {} <==> |OpenFrom(after, at)| == 0;
    assert OpenFrom(s.conns, at) == {} <==> |OpenFrom(s.conns, at)| == 0;
  }

  /** The steps that neither open nor close leave every connection's address and status alone. */
  ghost predicate SameStatus(conns: map<ConnId, Conn>, conns': map<ConnId, Conn>) {
    && conns.Keys == conns'.Keys
    && forall c :: c in conns ==>
         conns'[c].ip == conns[c].ip && conns'[c].open == conns[c].open && conns'[c].admitted == conns[c].admitted
  }

  lemma {:induction false} FrameIpOk(cfg: Config, s: State, s': State, at: string)
    requires IpOk(cfg, s, at) && s'.clientIps == s.clientIps && SameStatus(s.conns, s'.conns)
    ensures IpOk(cfg, s', at)
  {
    assert OpenFrom(s'.conns, at) == OpenFrom(s.conns, at);
    assert AdmittedFrom(s'.conns, at) == AdmittedFrom(s.conns, at);
  }

  lemma {:induction false} OneStatus(conns: map<ConnId, Conn>, c: ConnId, counter: int, dedups: nat)
    requires c in conns
    ensures SameStatus(conns, conns[c := conns[c].(counter := counter)])
    ensures SameStatus(conns, conns[c := conns[c].(dedups := dedups)])
  {}

  /** Those steps change at most one connection's counter or history. */
  lemma {:induction false} StepConns(cfg: Config, s: State, a: Action) returns (c: ConnId, counter: int, dedups: nat)
    requires Enabled(cfg, s, a) && !a.Open? && !a.Close?
    ensures var conns' := Apply(cfg, s, a).conns;
      || conns' == s.conns
      || (c in s.conns && conns' == s.conns[c := s.conns[c].(counter := counter)])
      || (c in s.conns && conns' == s.conns[c := s.conns[c].(dedups := dedups)])
    ensures Apply(cfg, s, a).clientIps == s.clientIps
  {
    c, counter, dedups := "", 0, 0;
    if a.Register? || a.Count? {
      c := s.pending[a.request].conn;
      counter, dedups := s.conns[c].counter + 1, Apply(cfg, s, a).conns[c].dedups;
    } else if a.Unsub? {
      c, counter := a.conn, s.conns[a.conn].counter - TotalMatches(s.svc.table, a.conn, a.subId);
    }
  }

  lemma {:induction false} StepStatus(cfg: Config, s: State, a: Action)
    requires Enabled(cfg, s, a) && !a.Open? && !a.Close?
    ensures SameStatus(s.conns, Apply(cfg, s, a).conns) && Apply(cfg, s, a).clientIps == s.clientIps
  {
    var c, counter, dedups := StepConns(cfg, s, a);
    if c in s.conns {
      OneStatus(s.conns, c, counter, dedups);
    }
  }

  lemma {:induction false} StepIpOk(cfg: Config, s: State, a: Action, at: string)
    requires IpOk(cfg, s, at) && Enabled(cfg, s, a)
    ensures IpOk(cfg, Apply(cfg, s, a), at)
  {
    if a.Open? {
      OpenIpOk(cfg, s, a.conn, a.ip, a.totalExceeded, at);
    } else if a.Close? {
      CloseIpOk(cfg, s, a.conn, at);
    } else {
      StepStatus(cfg, s, a);
      FrameIpOk(cfg, s, Apply(cfg, s, a), at);
    }
  }

  lemma {:induction false} RunIpOk(cfg: Config, s: State, acts: seq<Action>, ip: string)
    requires IpOk(cfg, s, ip) && Legal(cfg, s, acts)
    ensures IpOk(cfg, After(cfg, s, acts), ip)
    decreases |acts|
  {
    if acts != [] {
      StepIpOk(cfg, s, acts[0], ip);
      RunIpOk(cfg, Apply(cfg, s, acts[0]), acts[1..], ip);
    }
  }

  /** Per-IP accounting, in every reachable state. */
  lemma {:induction false} PerIpAccounting(cfg: Config, chain: seq<seq<Log>>, acts: seq<Action>, ip: string)
    requires Legal(cfg, Init(chain), acts)
    ensures var s := After(cfg, Init(chain), acts);
      && (ip in s.clientIps <==> OpenFrom(s.conns, ip) != {})
      && (ip in s.clientIps ==> s.clientIps[ip] == |OpenFrom(s.conns, ip)|)
      && |AdmittedFrom(s.conns, ip)| <= cfg.ipLimit
  {
    assert OpenFrom(Init(chain).conns, ip) == {};
    assert AdmittedFrom(Init(chain).conns, ip) == {};
    RunIpOk(cfg, Init(chain), acts, ip);
  }

  /** A new connection is admitted exactly when neither the total nor, with it, the number from its address is exceeded. */
  lemma {:induction false} AdmittedIff(cfg: Config, chain: seq<seq<Log>>, acts: seq<Action>, c: ConnId, ip: string, totalExceeded: bool)
    requires Legal(cfg, Init(chain), acts) && c !in After(cfg, Init(chain), acts).conns
    ensures var conns := Apply(cfg, After(cfg, Init(chain), acts), Open(c, ip, totalExceeded)).conns;
      && c in conns && conns[c].open && conns[c].ip == ip
      && (conns[c].admitted <==> !totalExceeded && |OpenFrom(conns, ip)| <= cfg.ipLimit)
  {
    var s := After(cfg, Init(chain), acts);
    PerIpAccounting(cfg, chain, acts, ip);
    var conn := Apply(cfg, s, Open(c, ip, totalExceeded)).conns[c];
    OpenSets(s.conns, c, conn, ip);
    assert OpenFrom(s.conns, ip) == {} <==> |OpenFrom(s.conns, ip)| == 0;
  }

  // ---------- closing ----------

  ghost predicate Absent(table: Table, c: ConnId) {
    forall t, u :: t in table && u in table[t] ==> u.conn != c
  }

  /** `c` has no subscription at any point of the run. */
  ghost predicate AbsentThroughout(cfg: Config, s: State, acts: seq<Action>, c: ConnId)
    requires Legal(cfg, s, acts)
    decreases |acts|
  {
    && Absent(s.svc.table, c)
    && (acts != [] ==> AbsentThroughout(cfg, Apply(cfg, s, acts[0]), acts[1..], c))
  }

  ghost predicate RegistersNow(s: State, a: Action, c: ConnId) {
    a.Register? && a.request in s.pending && s.pending[a.request].conn == c
  }

  /** Some subscribe request of `c` reaches `subscribe` during the run. */
  ghost predicate Registers(cfg: Config, s: State, acts: seq<Action>, c: ConnId)
    requires Legal(cfg, s, acts)
    decreases |acts|
  {
    acts != [] && (RegistersNow(s, acts[0], c) || Registers(cfg, Apply(cfg, s, acts[0]), acts[1..], c))
  }

  lemma {:induction false} KeepAbsent(table: Table, d: ConnId, subId: Option<SubId>, c: ConnId)
    requires Absent(table, c) || (d == c && subId == None)
    ensures Absent(KeepAll(table, d, subId), c)
  {
    forall t | t in table ensures forall u <- Keep(table[t], d, subId) :: u in table[t] && !Matches(u, d, subId) {
      KeepMembers(table[t], d, subId);
    }
  }

  /** A step brings `c` back exactly when it is a registration on behalf of `c`. */
  lemma {:induction false} StepAbsent(cfg: Config, s: State, a: Action, c: ConnId)
    requires Absent(s.svc.table, c) && Enabled(cfg, s, a)
    ensures Absent(Apply(cfg, s, a).svc.table, c) <==> !RegistersNow(s, a, c)
  {
    match a
    case Register(request, id) =>
      var r := s.pending[request];
      if r.conn == c {
        assert Subscriber(c, id) in Apply(cfg, s, a).svc.table[r.tag];
      }
    case Unsub(d, subId) => KeepAbsent(s.svc.table, d, subId, c);
    case Close(d) => KeepAbsent(s.svc.table, d, None, c);
    case _ =>
  }

  lemma {:induction false} RunAbsent(cfg: Config, s: State, acts: seq<Action>, c: ConnId)
    requires Absent(s.svc.table, c) && Legal(cfg, s, acts)
    ensures AbsentThroughout(cfg, s, acts, c) <==> !Registers(cfg, s, acts, c)
    decreases |acts|
  {
    if acts != [] {
      StepAbsent(cfg, s, acts[0], c);
      if Absent(Apply(cfg, s, acts[0]).svc.table, c) {
        RunAbsent(cfg, Apply(cfg, s, acts[0]), acts[1..], c);
      }
    }
  }

  /** Sends are only ever appended. */
  ghost predicate NothingSentTo(before: seq<Send>, after: seq<Send>, c: ConnId) {
    before <= after && forall i :: |before| <= i < |after| ==> after[i].to.conn != c
  }

  lemma {:induction false} NotifySends(subs: seq<Subscriber>, item: Item, o: Outbox, c: ConnId)
    requires forall u <- subs :: u.conn != c
    ensures NothingSentTo(o.sent, Notify(subs, item, o).sent, c)
  {
    if subs != [] {
      NotifySends(subs[1..], item, NotifyOne(subs[0], item, o), c);
    }
  }

  lemma {:induction false} DeliverSends(subs: seq<Subscriber>, items: seq<Item>, o: Outbox, c: ConnId)
    requires forall u <- subs :: u.conn != c
    ensures NothingSentTo(o.sent, Deliver(subs, items, o).sent, c)
  {
    if items != [] {
      NotifySends(subs, items[0], o, c);
      DeliverSends(subs, items[1..], Notify(subs, items[0], o), c);
    }
  }

  lemma {:induction false} RunSends(cfg: Config, s: State, acts: seq<Action>, c: ConnId)
    requires Legal(cfg, s, acts) && AbsentThroughout(cfg, s, acts, c)
    ensures NothingSentTo(s.svc.out.sent, After(cfg, s, acts).svc.out.sent, c)
    decreases |acts|
  {
    if acts != [] {
      var a := acts[0];
      if a.Answer? {
        DeliverSends(SubsOf(s.svc.table, a.poll.tag), Data(cfg, s.chain, a.poll, a.hi), s.svc.out, c);
      }
      RunSends(cfg, Apply(cfg, s, a), acts[1..], c);
    }
  }

  /** A subscribe request of `c` has passed the limit check and will be accepted by `subscribe`. */
  ghost predicate OnTheWay(cfg: Config, s: State, c: ConnId) {
    exists r :: r in s.pending && s.pending[r].conn == c && s.pending[r].stage == Checked
      && (s.pending[r].tag.event == "logs" || (s.pending[r].tag.event == "newHeads" && cfg.newHeadsEnabled))
  }

  /** No new subscribe request of `c` comes in, as after a close. */
  ghost predicate NoNewRequest(acts: seq<Action>, c: ConnId) {
    forall i :: 0 <= i < |acts| && acts[i].Check? ==> acts[i].conn != c
  }

  lemma {:induction false} StaysOffTheWay(cfg: Config, s: State, a: Action, c: ConnId)
    requires !OnTheWay(cfg, s, c) && Enabled(cfg, s, a) && (a.Check? ==> a.conn != c)
    ensures !OnTheWay(cfg, Apply(cfg, s, a), c) && !RegistersNow(s, a, c)
  {
    if a.Register? {
      assert s.pending[a.request].conn != c;
    }
  }

  lemma {:induction false} NeverRegisters(cfg: Config, s: State, acts: seq<Action>, c: ConnId)
    requires !OnTheWay(cfg, s, c) && Legal(cfg, s, acts) && NoNewRequest(acts, c)
    ensures !Registers(cfg, s, acts, c)
    decreases |acts|
  {
    if acts != [] {
      StaysOffTheWay(cfg, s, acts[0], c);
      assert NoNewRequest(acts[1..], c) by {
        assert forall i :: 0 <= i < |acts| - 1 ==> acts[1..][i] == acts[i + 1];
      }
      NeverRegisters(cfg, Apply(cfg, s, acts[0]), acts[1..], c);
    }
  }

  /** There is always another id to give out. */
  lemma {:induction false} LongerThanAll(used: set<SubId>) returns (n: nat)
    ensures forall id <- used :: |id| < n
  {
    if used == {} {
      n := 0;
    } else {
      var id :| id in used;
      n := LongerThanAll(used - {id});
      n := if n > |id| then n else |id| + 1;
    }
  }

  /** A request that is on its way puts the connection back into the table. */
  lemma {:induction false} ComesBack(cfg: Config, s: State, c: ConnId) returns (a: Action)
    requires OnTheWay(cfg, s, c) && c in s.conns && Absent(s.svc.table, c)
    ensures Legal(cfg, s, [a]) && a.Register? && !AbsentThroughout(cfg, s, [a], c)
  {
    var r :| r in s.pending && s.pending[r].conn == c && s.pending[r].stage == Checked
      && Supported(cfg, s.pending[r].tag.event);
    var n := LongerThanAll(s.used);
    a := Register(r, seq(n, _ => 'i'));
    assert [a][1..] == [];
    StepAbsent(cfg, s, a, c);
  }

  /** However the run goes on without a new request of `c`, it never is in the table again. */
  ghost predicate StaysAbsent(cfg: Config, s: State, c: ConnId) {
    forall acts :: Legal(cfg, s, acts) && NoNewRequest(acts, c) ==> AbsentThroughout(cfg, s, acts, c)
  }

  lemma {:induction false} StaysAbsentIff(cfg: Config, s: State, c: ConnId)
    requires c in s.conns && Absent(s.svc.table, c)
    ensures StaysAbsent(cfg, s, c) <==> !OnTheWay(cfg, s, c)
  {
    if OnTheWay(cfg, s, c) {
      var a := ComesBack(cfg, s, c);
      assert NoNewRequest([a], c);
    } else {
      forall acts | Legal(cfg, s, acts) && NoNewRequest(acts, c) ensures AbsentThroughout(cfg, s, acts, c) {
        NeverRegisters(cfg, s, acts, c);
        RunAbsent(cfg, s, acts, c);
      }
    }
  }

  /**
   A close is final exactly when no subscribe request of the connection is on its way at that moment:
   then it stays out of the table whatever happens next, and nothing more is sent to it.
   */
  lemma {:induction false} CloseIsFinalIff(cfg: Config, s: State, c: ConnId)
    requires Enabled(cfg, s, Close(c))
    ensures var closed := Apply(cfg, s, Close(c));
      && (StaysAbsent(cfg, closed, c) <==> !OnTheWay(cfg, s, c))
      && (!OnTheWay(cfg, s, c) ==> forall acts :: Legal(cfg, closed, acts) && NoNewRequest(acts, c) ==>
            NothingSentTo(s.svc.out.sent, After(cfg, closed, acts).svc.out.sent, c))
  {
    var closed := Apply(cfg, s, Close(c));
    KeepAbsent(s.svc.table, c, None, c);
    StaysAbsentIff(cfg, closed, c);
    assert OnTheWay(cfg, closed, c) <==> OnTheWay(cfg, s, c);
    if !OnTheWay(cfg, s, c) {
      forall acts | Legal(cfg, closed, acts) && NoNewRequest(acts, c)
        ensures NothingSentTo(s.svc.out.sent, After(cfg, closed, acts).svc.out.sent, c)
      {
        RunSends(cfg, closed, acts, c);
      }
    }
  }
}
