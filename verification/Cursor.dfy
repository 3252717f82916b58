/**
 Polling windows. An answer to a logs poll writes the shared `latestBlock` into the cursor, which is
 not the end of the window that was fetched. No block is skipped as long as every answer is timely:
 the block number read last is at most one past the end of the fetched window. Runs in which polls
 do not overlap ticks are timely; a run in which they do can skip blocks for good.
 */
module Cursor {
  import opened Prelude
  import opened Tables
  import opened Machine
  import opened Agreement

  ghost predicate Covered(windows: seq<Window>, serial: nat, b: nat) {
    exists w <- windows :: w.serial == serial && w.lo <= b <= w.hi
  }

  /** Everything from the start of any window of this poll up to its cursor was fetched. */
  ghost predicate NoHoleBelowCursor(windows: seq<Window>, q: Poll) {
    forall w <- windows :: w.serial == q.serial ==>
      && q.lastPolled.Some?
      && w.lo <= q.lastPolled.value
      && forall b :: w.lo <= b < q.lastPolled.value ==> Covered(windows, q.serial, b)
  }

  /** A request asks from no later than its poll's cursor, and knows that poll's tag. */
  ghost predicate RequestLags(p: Poller, length: nat, r: Request) {
    && r.serial < p.nextSerial && r.from <= r.head < length
    && p.latestBlock.Some? && r.from <= p.latestBlock.value
    && (forall q <- p.polls :: q.serial == r.serial ==>
          q.tag == r.tag && (q.lastPolled.Some? ==> r.from <= q.lastPolled.value))
  }

  /** Cursors and requests lag behind the block number read last, and that behind the chain. */
  ghost predicate CursorsLag(s: State) {
    && (s.svc.poller.latestBlock.Some? ==> s.svc.poller.latestBlock.value < |s.chain|)
    && (forall q <- s.svc.poller.polls :: q.lastPolled.Some? ==>
          s.svc.poller.latestBlock.Some? && q.lastPolled.value <= s.svc.poller.latestBlock.value)
    && (forall r <- s.inflight :: RequestLags(s.svc.poller, |s.chain|, r))
  }

  ghost predicate WindowsOk(s: State) {
    && (forall w <- s.windows :: w.serial < s.svc.poller.nextSerial && w.tag.event == LOGS)
    && (forall w <- s.windows, q <- s.svc.poller.polls :: w.serial == q.serial ==> w.tag == q.tag)
    && (forall q <- s.svc.poller.polls :: NoHoleBelowCursor(s.windows, q))
  }

  ghost predicate CursorOk(s: State) {
    Agrees(s.svc) && CursorsLag(s) && WindowsOk(s)
  }

  /** When an answer arrives, no tick has read a block number beyond the next block after its window. */
  ghost predicate TimelyNow(s: State, a: Action) {
    a.Answer? && a.poll.tag.event == LOGS && s.svc.poller.latestBlock.Some? ==>
      s.svc.poller.latestBlock.value <= a.hi + 1
  }

  ghost predicate Timely(cfg: Config, s: State, acts: seq<Action>)
    requires Legal(cfg, s, acts)
    decreases |acts|
  {
    acts != [] ==> TimelyNow(s, acts[0]) && Timely(cfg, Apply(cfg, s, acts[0]), acts[1..])
  }

  // ---------- steps ----------

  lemma {:induction false} Shrinks(s: State, c: ConnId, subId: Option<SubId>)
    ensures forall q <- Unsubscribe(s.svc, c, subId).poller.polls :: q in s.svc.poller.polls
  {
    WithoutMembers(s.svc.poller.polls, Emptied(s.svc.table, c, subId));
  }

  /** Every request in flight after a tick was in flight before or comes from a poll on the list. */
  lemma {:induction false} Issued(polls: seq<Poll>, latest: nat, head: nat, r: Request) returns (q: Poll)
    requires r in multiset(Requests(polls, latest, head))
    ensures q in polls && r == Request(q.serial, q.tag, From(q, latest), head)
  {
    var issued := Requests(polls, latest, head);
    assert r in issued;
    var i :| 0 <= i < |issued| && issued[i] == r;
    q := polls[i];
  }

  lemma {:induction false} IssuedLag(p: Poller, block: nat, head: nat, r: Request)
    requires PollerOk(p) && block <= head && r in multiset(Requests(p.polls, block, head))
    requires forall q <- p.polls :: q.lastPolled.Some? ==> q.lastPolled.value <= block
    ensures RequestLags(p.(latestBlock := Some(block)), head + 1, r)
  {
    var o := Issued(p.polls, block, head, r);
    forall q | q in p.polls && q.serial == o.serial ensures q == o {
      SameSerial(p.polls, o, q);
    }
  }

  lemma {:induction false} TickRequest(s: State, block: nat, r: Request)
    requires PollerOk(s.svc.poller) && CursorsLag(s) && block < |s.chain|
    requires s.svc.poller.latestBlock.Some? ==> s.svc.poller.latestBlock.value <= block
    requires r in s.inflight || r in multiset(Requests(s.svc.poller.polls, block, |s.chain| - 1))
    ensures RequestLags(s.svc.poller.(latestBlock := Some(block)), |s.chain|, r)
  {
    if r in s.inflight {
      assert RequestLags(s.svc.poller, |s.chain|, r);
    } else {
      IssuedLag(s.svc.poller, block, |s.chain| - 1, r);
    }
  }

  lemma {:induction false} TickLag(cfg: Config, s: State, block: nat)
    requires PollerOk(s.svc.poller) && CursorsLag(s) && Enabled(cfg, s, Tick(block))
    ensures CursorsLag(Apply(cfg, s, Tick(block)))
  {
    var s' := Apply(cfg, s, Tick(block));
    forall r | r in s'.inflight ensures RequestLags(s'.svc.poller, |s'.chain|, r) {
      TickRequest(s, block, r);
    }
  }

  lemma {:induction false} SameSerial(polls: seq<Poll>, p: Poll, q: Poll)
    requires DistinctPolls(polls) && p in polls && q in polls && p.serial == q.serial
    ensures p == q
  {
    var i :| 0 <= i < |polls| && polls[i] == p;
    var j :| 0 <= j < |polls| && polls[j] == q;
  }

  lemma {:induction false} RegisterPolls(cfg: Config, s: State, request: nat, id: SubId)
    requires Enabled(cfg, s, Register(request, id))
    ensures var p, p' := s.svc.poller, RegisterStep(cfg, s, request, id).svc.poller;
      && p.nextSerial <= p'.nextSerial && p'.latestBlock == p.latestBlock
      && forall q <- p'.polls :: q in p.polls || (q.serial == p.nextSerial && q.lastPolled == None)
  {}

  lemma {:induction false} RegisterWindows(cfg: Config, s: State, request: nat, id: SubId)
    requires WindowsOk(s) && Enabled(cfg, s, Register(request, id))
    ensures WindowsOk(RegisterStep(cfg, s, request, id))
  {
    RegisterPolls(cfg, s, request, id);
    forall q | q in RegisterStep(cfg, s, request, id).svc.poller.polls
      ensures NoHoleBelowCursor(s.windows, q)
    {
      if q in s.svc.poller.polls {
        assert NoHoleBelowCursor(s.windows, q);
      }
    }
  }

  lemma {:induction false} CoverageGrows(windows: seq<Window>, fetched: Window, q: Poll)
    requires NoHoleBelowCursor(windows, q) && fetched.serial != q.serial
    ensures NoHoleBelowCursor(windows + [fetched], q)
  {
    forall w, b | w in windows && w.serial == q.serial && w.lo <= b < q.lastPolled.value
      ensures Covered(windows + [fetched], q.serial, b)
    {
      assert Covered(windows, q.serial, b);
    }
  }

  /** A window that starts at or below the cursor and reaches the new cursor closes the stretch. */
  lemma {:induction false} AnswerCoverage(windows: seq<Window>, fetched: Window, q: Poll, latest: nat)
    requires NoHoleBelowCursor(windows, q) && fetched.serial == q.serial
    requires fetched.lo <= latest <= fetched.hi + 1
    requires q.lastPolled.Some? ==> fetched.lo <= q.lastPolled.value <= latest
    ensures NoHoleBelowCursor(windows + [fetched], q.(lastPolled := Some(latest)))
  {
    forall w, b: nat | w in windows + [fetched] && w.serial == q.serial && w.lo <= b < latest
      ensures Covered(windows + [fetched], q.serial, b)
    {
      assert fetched in windows + [fetched];
      if b < fetched.lo {
        assert w in windows && Covered(windows, q.serial, b);
      }
    }
  }

  /** What an answer makes of one poll and the history, seen from that poll. */
  lemma {:induction false} AnswerWindow(cfg: Config, s: State, r: Request, hi: nat, i: nat)
    requires CursorOk(s) && Enabled(cfg, s, Answer(r, hi)) && TimelyNow(s, Answer(r, hi)) && i < |s.svc.poller.polls|
    ensures var s' := AnswerStep(cfg, s, r, hi); NoHoleBelowCursor(s'.windows, s'.svc.poller.polls[i])
  {
    var q, fetched := s.svc.poller.polls[i], Window(r.serial, r.tag, r.from, hi, SubsOf(s.svc.table, r.tag));
    assert q in s.svc.poller.polls && NoHoleBelowCursor(s.windows, q);
    assert RequestLags(s.svc.poller, |s.chain|, r);
    if q.serial != r.serial {
      CoverageGrows(s.windows, fetched, q);
    } else if r.tag.event == LOGS {
      AnswerCoverage(s.windows, fetched, q, s.svc.poller.latestBlock.value);
    } else {
      NotALogsPoll(s, q);
    }
    assert s.windows + [] == s.windows;
  }

  lemma {:induction false} NotALogsPoll(s: State, q: Poll)
    requires WindowsOk(s) && q in s.svc.poller.polls && q.tag.event != LOGS
    ensures forall w <- s.windows :: w.serial != q.serial
  {}

  /** The step the module is about: a timely answer extends the covered stretch to the new cursor. */
  lemma {:induction false} AnswerWindows(cfg: Config, s: State, r: Request, hi: nat)
    requires CursorOk(s) && Enabled(cfg, s, Answer(r, hi)) && TimelyNow(s, Answer(r, hi))
    ensures WindowsOk(AnswerStep(cfg, s, r, hi))
  {
    var s' := AnswerStep(cfg, s, r, hi);
    forall q' | q' in s'.svc.poller.polls ensures NoHoleBelowCursor(s'.windows, q') {
      var i :| 0 <= i < |s'.svc.poller.polls| && s'.svc.poller.polls[i] == q';
      AnswerWindow(cfg, s, r, hi, i);
    }
    AnswerTags(cfg, s, r, hi);
  }

  lemma {:induction false} AnswerTags(cfg: Config, s: State, r: Request, hi: nat)
    requires CursorOk(s) && Enabled(cfg, s, Answer(r, hi))
    ensures var s' := AnswerStep(cfg, s, r, hi);
      && (forall w <- s'.windows :: w.serial < s'.svc.poller.nextSerial && w.tag.event == LOGS)
      && (forall w <- s'.windows, q' <- s'.svc.poller.polls :: w.serial == q'.serial ==> w.tag == q'.tag)
  {
    var s' := AnswerStep(cfg, s, r, hi);
    assert RequestLags(s.svc.poller, |s.chain|, r);
    forall w, q' | w in s'.windows && q' in s'.svc.poller.polls && w.serial == q'.serial ensures w.tag == q'.tag {
      var q := AnswerPolls(cfg, s, r, hi, q');
      if w !in s.windows {
        assert w.serial == r.serial && w.tag == r.tag;
      }
    }
  }

  lemma {:induction false} AnswerPolls(cfg: Config, s: State, r: Request, hi: nat, q': Poll) returns (q: Poll)
    requires Enabled(cfg, s, Answer(r, hi)) && q' in AnswerStep(cfg, s, r, hi).svc.poller.polls
    ensures q in s.svc.poller.polls && q.serial == q'.serial && q.tag == q'.tag
    ensures q' == q || q'.lastPolled == s.svc.poller.latestBlock
  {
    var polls' := AnswerStep(cfg, s, r, hi).svc.poller.polls;
    var i :| 0 <= i < |polls'| && polls'[i] == q';
    q := s.svc.poller.polls[i];
  }

  lemma {:induction false} AnswerLag(cfg: Config, s: State, r: Request, hi: nat)
    requires CursorsLag(s) && Enabled(cfg, s, Answer(r, hi))
    ensures CursorsLag(AnswerStep(cfg, s, r, hi))
  {
    var s' := AnswerStep(cfg, s, r, hi);
    forall o | o in s'.inflight ensures RequestLags(s'.svc.poller, |s.chain|, o) {
      assert RequestLags(s.svc.poller, |s.chain|, o);
      forall q' | q' in s'.svc.poller.polls && q'.serial == o.serial
        ensures q'.tag == o.tag && (q'.lastPolled.Some? ==> o.from <= q'.lastPolled.value)
      {
        var q := AnswerPolls(cfg, s, r, hi, q');
      }
    }
    forall q' | q' in s'.svc.poller.polls && q'.lastPolled.Some?
      ensures s.svc.poller.latestBlock.Some? && q'.lastPolled.value <= s.svc.poller.latestBlock.value
    {
      var q := AnswerPolls(cfg, s, r, hi, q');
    }
  }

  lemma {:induction false} SameRequestsLag(s: State, s': State)
    requires CursorsLag(s) && s'.inflight <= s.inflight && |s.chain| <= |s'.chain|
    requires s'.svc.poller.latestBlock == s.svc.poller.latestBlock
    requires s.svc.poller.nextSerial <= s'.svc.poller.nextSerial
    requires forall q <- s'.svc.poller.polls ::
      q in s.svc.poller.polls || (q.serial == s.svc.poller.nextSerial && q.lastPolled == None)
    ensures CursorsLag(s')
  {
    forall r | r in s'.inflight ensures RequestLags(s'.svc.poller, |s'.chain|, r) {
      assert RequestLags(s.svc.poller, |s.chain|, r);
    }
  }

  lemma {:induction false} StepLag(cfg: Config, s: State, a: Action)
    requires Agrees(s.svc) && CursorsLag(s) && Enabled(cfg, s, a)
    ensures CursorsLag(Apply(cfg, s, a))
  {
    match a
    case Tick(block) => TickLag(cfg, s, block);
    case Answer(r, hi) => AnswerLag(cfg, s, r, hi);
    case Register(request, id) =>
      RegisterPolls(cfg, s, request, id);
      SameRequestsLag(s, Apply(cfg, s, a));
    case Unsub(c, subId) =>
      Shrinks(s, c, subId);
      SameRequestsLag(s, Apply(cfg, s, a));
    case Close(c) =>
      Shrinks(s, c, None);
      SameRequestsLag(s, Apply(cfg, s, a));
    case _ => SameRequestsLag(s, Apply(cfg, s, a));
  }

  lemma {:induction false} StepCursor(cfg: Config, s: State, a: Action)
    requires CursorOk(s) && Enabled(cfg, s, a) && TimelyNow(s, a)
    ensures CursorOk(Apply(cfg, s, a))
  {
    StepAgrees(cfg, s, a);
    StepLag(cfg, s, a);
    match a
    case Register(request, id) => RegisterWindows(cfg, s, request, id);
    case Unsub(c, subId) => Shrinks(s, c, subId);
    case Close(c) => Shrinks(s, c, None);
    case Answer(r, hi) => AnswerWindows(cfg, s, r, hi);
    case _ =>
  }
}
