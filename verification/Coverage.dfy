/** What whole runs do to the polling windows: no gaps, no step back, and exactly when a hole appears. */
module Coverage {
  import opened Prelude
  import opened Tables
  import opened Machine
  import opened Agreement
  import opened Cursor

  lemma {:induction false} RunCursor(cfg: Config, s: State, acts: seq<Action>)
    requires CursorOk(s) && Legal(cfg, s, acts) && Timely(cfg, s, acts)
    ensures CursorOk(After(cfg, s, acts))
    decreases |acts|
  {
    if acts != [] {
      StepCursor(cfg, s, acts[0]);
      RunCursor(cfg, Apply(cfg, s, acts[0]), acts[1..]);
    }
  }

  /**
   No gaps: in a timely run, for a tag that is still polled, every block between the start of any
   successful window and the end of any successful window of that poll lies in a successful window.
   */
  lemma {:induction false} NoGaps(cfg: Config, chain: seq<seq<Log>>, acts: seq<Action>, q: Poll, w1: Window, w2: Window, b: nat)
    requires Legal(cfg, Init(chain), acts) && Timely(cfg, Init(chain), acts)
    requires var s := After(cfg, Init(chain), acts);
      && q in s.svc.poller.polls && w1 in s.windows && w2 in s.windows
      && w1.serial == w2.serial == q.serial
    requires w1.lo <= b <= w2.hi
    ensures Covered(After(cfg, Init(chain), acts).windows, q.serial, b)
  {
    RunCursor(cfg, Init(chain), acts);
    assert NoHoleBelowCursor(After(cfg, Init(chain), acts).windows, q);
  }

  // ---------- when runs are timely ----------

  /** Each tick starts only after every earlier poll was answered or failed. */
  ghost predicate NonOverlapping(cfg: Config, s: State, acts: seq<Action>)
    requires Legal(cfg, s, acts)
    decreases |acts|
  {
    acts != [] ==>
      && (acts[0].Tick? ==> s.inflight == multiset{})
      && NonOverlapping(cfg, Apply(cfg, s, acts[0]), acts[1..])
  }

  /** No request is older than the block number read last. */
  ghost predicate CurrentRequests(s: State) {
    forall r <- s.inflight :: s.svc.poller.latestBlock.Some? ==> s.svc.poller.latestBlock.value <= r.head
  }

  lemma {:induction false} TickCurrent(cfg: Config, s: State, block: nat)
    requires Enabled(cfg, s, Tick(block)) && s.inflight == multiset{}
    ensures CurrentRequests(Apply(cfg, s, Tick(block)))
  {
    var issued := Requests(s.svc.poller.polls, block, |s.chain| - 1);
    forall r | r in Apply(cfg, s, Tick(block)).inflight ensures r.head == |s.chain| - 1 {
      assert r in issued;
    }
  }

  /** Polls that finish before the next tick are always timely. */
  lemma {:induction false} NonOverlappingIsTimely(cfg: Config, s: State, acts: seq<Action>)
    requires Legal(cfg, s, acts) && NonOverlapping(cfg, s, acts) && CurrentRequests(s)
    ensures Timely(cfg, s, acts)
    decreases |acts|
  {
    if acts != [] {
      if acts[0].Tick? {
        TickCurrent(cfg, s, acts[0].block);
      }
      NonOverlappingIsTimely(cfg, Apply(cfg, s, acts[0]), acts[1..]);
    }
  }

  /** With the polls of each tick finished before the next one, no block is ever skipped. */
  lemma {:induction false} NoGapsWithoutOverlap(cfg: Config, chain: seq<seq<Log>>, acts: seq<Action>,
                                                q: Poll, w1: Window, w2: Window, b: nat)
    requires Legal(cfg, Init(chain), acts) && NonOverlapping(cfg, Init(chain), acts)
    requires var s := After(cfg, Init(chain), acts);
      && q in s.svc.poller.polls && w1 in s.windows && w2 in s.windows
      && w1.serial == w2.serial == q.serial
    requires w1.lo <= b <= w2.hi
    ensures Covered(After(cfg, Init(chain), acts).windows, q.serial, b)
  {
    NonOverlappingIsTimely(cfg, Init(chain), acts);
    NoGaps(cfg, chain, acts, q, w1, w2, b);
  }

  // ---------- the cursor only moves forward ----------

  ghost predicate NotBehind(before: Option<nat>, after: Option<nat>) {
    before.Some? ==> after.Some? && before.value <= after.value
  }

  /** A poll object present before and after has not had its cursor moved back. */
  ghost predicate Advanced(p: Poller, p': Poller) {
    && p.nextSerial <= p'.nextSerial
    && forall q' <- p'.polls :: q'.serial < p.nextSerial ==>
         exists q <- p.polls :: q.serial == q'.serial && NotBehind(q.lastPolled, q'.lastPolled)
  }

  lemma {:induction false} StepAdvances(cfg: Config, s: State, a: Action)
    requires CursorsLag(s) && Enabled(cfg, s, a)
    ensures Advanced(s.svc.poller, Apply(cfg, s, a).svc.poller)
  {
    match a
    case Register(request, id) => RegisterPolls(cfg, s, request, id);
    case Unsub(c, subId) => Shrinks(s, c, subId);
    case Close(c) => Shrinks(s, c, None);
    case Answer(r, hi) =>
      forall q' | q' in Apply(cfg, s, a).svc.poller.polls
        ensures exists q <- s.svc.poller.polls :: q.serial == q'.serial && NotBehind(q.lastPolled, q'.lastPolled)
      {
        var q := AnswerPolls(cfg, s, r, hi, q');
      }
    case _ =>
  }

  lemma {:induction false} AdvancedTransitive(p: Poller, m: Poller, l: Poller)
    requires Advanced(p, m) && Advanced(m, l)
    ensures Advanced(p, l)
  {
    forall q' | q' in l.polls && q'.serial < p.nextSerial
      ensures exists q <- p.polls :: q.serial == q'.serial && NotBehind(q.lastPolled, q'.lastPolled)
    {
      var o :| o in m.polls && o.serial == q'.serial && NotBehind(o.lastPolled, q'.lastPolled);
      var q :| q in p.polls && q.serial == o.serial && NotBehind(q.lastPolled, o.lastPolled);
    }
  }

  /** `lastPolled` never goes backwards, in any run, overlapping or not. */
  lemma {:induction false} CursorNeverGoesBack(cfg: Config, s: State, acts: seq<Action>)
    requires Agrees(s.svc) && CursorsLag(s) && Legal(cfg, s, acts)
    ensures Advanced(s.svc.poller, After(cfg, s, acts).svc.poller)
    decreases |acts|
  {
    if acts != [] {
      var next := Apply(cfg, s, acts[0]);
      StepAgrees(cfg, s, acts[0]);
      StepLag(cfg, s, acts[0]);
      StepAdvances(cfg, s, acts[0]);
      CursorNeverGoesBack(cfg, next, acts[1..]);
      AdvancedTransitive(s.svc.poller, next.svc.poller, After(cfg, s, acts).svc.poller);
    }
  }

  // ---------- what goes wrong otherwise ----------

  /** Some earlier window of the poll starts no later than one past `hi`. */
  ghost predicate Joins(windows: seq<Window>, serial: nat, hi: nat) {
    exists w <- windows :: w.serial == serial && w.lo <= hi + 1
  }

  /** Some earlier window of the poll ends no earlier than one before `latest`. */
  ghost predicate Extends(windows: seq<Window>, serial: nat, latest: nat) {
    exists w <- windows :: w.serial == serial && latest <= w.hi + 1
  }

  lemma {:induction false} JoinedCoverage(windows: seq<Window>, fetched: Window, q: Poll, latest: nat)
    requires NoHoleBelowCursor(windows, q) && fetched.serial == q.serial && fetched.lo <= latest
    requires q.lastPolled.Some? ==> fetched.lo <= q.lastPolled.value <= latest
    requires Joins(windows, q.serial, fetched.hi) && Extends(windows, q.serial, latest)
    ensures NoHoleBelowCursor(windows + [fetched], q.(lastPolled := Some(latest)))
  {
    var all := windows + [fetched];
    var join :| join in windows && join.serial == q.serial && join.lo <= fetched.hi + 1;
    var far :| far in windows && far.serial == q.serial && latest <= far.hi + 1;
    assert join in all && far in all && fetched in all;
    forall w, b: nat | w in all && w.serial == q.serial && w.lo <= b < latest ensures Covered(all, q.serial, b) {
      if b >= q.lastPolled.value {
        assert far.lo <= b <= far.hi;
      } else if !(fetched.lo <= b <= fetched.hi) {
        var o := if w in windows then w else join;
        assert o in windows && o.lo <= b;
        assert Covered(windows, q.serial, b);
      }
    }
  }

  /** An untimely answer leaves a block right behind its window and one right below the new cursor. */
  lemma {:induction false} HoleOtherwise(windows: seq<Window>, fetched: Window, q': Poll)
    requires fetched.serial == q'.serial && fetched.lo <= fetched.hi + 1 && q'.lastPolled.Some?
    requires fetched.hi + 1 < q'.lastPolled.value && NoHoleBelowCursor(windows + [fetched], q')
    ensures Joins(windows, q'.serial, fetched.hi) && Extends(windows, q'.serial, q'.lastPolled.value)
  {
    var all, latest := windows + [fetched], q'.lastPolled.value;
    assert fetched in all;
    assert Covered(all, q'.serial, fetched.hi + 1) && Covered(all, q'.serial, latest - 1);
    var w :| w in all && w.serial == q'.serial && w.lo <= fetched.hi + 1 <= w.hi;
    var v :| v in all && v.serial == q'.serial && v.lo <= latest - 1 <= v.hi;
    assert w in windows && v in windows;
  }

  /**
   An answer leaves no hole below its poll's new cursor exactly when it is timely, or earlier windows
   of the poll both join its own window and reach the new cursor.
   */
  lemma {:induction false} HoleBelowCursorIff(cfg: Config, s: State, r: Request, hi: nat, q: Poll)
    requires CursorOk(s) && Enabled(cfg, s, Answer(r, hi)) && r.tag.event == LOGS
    requires q in s.svc.poller.polls && q.serial == r.serial
    ensures s.svc.poller.latestBlock.Some?
    ensures var s', latest := AnswerStep(cfg, s, r, hi), s.svc.poller.latestBlock.value;
      var q' := q.(lastPolled := Some(latest));
      && q' in s'.svc.poller.polls
      && (NoHoleBelowCursor(s'.windows, q') <==>
            latest <= hi + 1 || (Joins(s.windows, q.serial, hi) && Extends(s.windows, q.serial, latest)))
  {
    assert RequestLags(s.svc.poller, |s.chain|, r);
    var s', latest := AnswerStep(cfg, s, r, hi), s.svc.poller.latestBlock.value;
    var q' := q.(lastPolled := Some(latest));
    var fetched := Window(r.serial, r.tag, r.from, hi, SubsOf(s.svc.table, r.tag));
    var i :| 0 <= i < |s.svc.poller.polls| && s.svc.poller.polls[i] == q;
    assert s'.svc.poller.polls[i] == q' && s'.windows == s.windows + [fetched];
    assert NoHoleBelowCursor(s.windows, q);
    if latest <= hi + 1 {
      AnswerCoverage(s.windows, fetched, q, latest);
    } else if Joins(s.windows, q.serial, hi) && Extends(s.windows, q.serial, latest) {
      JoinedCoverage(s.windows, fetched, q, latest);
    } else if NoHoleBelowCursor(s'.windows, q') {
      HoleOtherwise(s.windows, fetched, q');
    }
  }

  // ---------- holes that stay ----------

  /** No window of poll `n`, in flight or to come, reaches back to block `b`. */
  ghost predicate PassedBy(s: State, n: nat, b: nat) {
    && n < s.svc.poller.nextSerial
    && (forall r <- s.inflight :: r.serial == n && r.tag.event == LOGS ==> b < r.from)
    && (forall q <- s.svc.poller.polls :: q.serial == n ==> q.lastPolled.Some? && b < q.lastPolled.value)
  }

  lemma {:induction false} TickPasses(cfg: Config, s: State, block: nat, n: nat, b: nat)
    requires PassedBy(s, n, b) && Enabled(cfg, s, Tick(block))
    ensures PassedBy(Apply(cfg, s, Tick(block)), n, b)
  {
    var s' := Apply(cfg, s, Tick(block));
    forall r | r in s'.inflight && r.serial == n && r.tag.event == LOGS ensures b < r.from {
      if r !in s.inflight {
        var q := Issued(s.svc.poller.polls, block, |s.chain| - 1, r);
      }
    }
  }

  lemma {:induction false} AnswerPasses(cfg: Config, s: State, r: Request, hi: nat, n: nat, b: nat)
    requires CursorsLag(s) && PassedBy(s, n, b) && Enabled(cfg, s, Answer(r, hi))
    ensures PassedBy(AnswerStep(cfg, s, r, hi), n, b)
    ensures !Covered(s.windows, n, b) ==> !Covered(AnswerStep(cfg, s, r, hi).windows, n, b)
  {
    var s' := AnswerStep(cfg, s, r, hi);
    forall q' | q' in s'.svc.poller.polls && q'.serial == n ensures q'.lastPolled.Some? && b < q'.lastPolled.value {
      var q := AnswerPolls(cfg, s, r, hi, q');
    }
  }

  lemma {:induction false} FewerPass(s: State, s': State, n: nat, b: nat)
    requires PassedBy(s, n, b) && s'.inflight <= s.inflight && s.svc.poller.nextSerial <= s'.svc.poller.nextSerial
    requires forall q <- s'.svc.poller.polls :: q in s.svc.poller.polls || q.serial == s.svc.poller.nextSerial
    ensures PassedBy(s', n, b)
  {}

  lemma {:induction false} StepPasses(cfg: Config, s: State, a: Action, n: nat, b: nat)
    requires CursorsLag(s) && PassedBy(s, n, b) && !Covered(s.windows, n, b) && Enabled(cfg, s, a)
    ensures PassedBy(Apply(cfg, s, a), n, b) && !Covered(Apply(cfg, s, a).windows, n, b)
  {
    if a.Tick? {
      TickPasses(cfg, s, a.block, n, b);
    } else if a.Answer? {
      AnswerPasses(cfg, s, a.poll, a.hi, n, b);
    } else {
      if a.Register? {
        RegisterPolls(cfg, s, a.request, a.id);
      } else if a.Unsub? {
        Shrinks(s, a.conn, a.subId);
      } else if a.Close? {
        Shrinks(s, a.conn, None);
      }
      FewerPass(s, Apply(cfg, s, a), n, b);
    }
  }

  lemma {:induction false} RunPasses(cfg: Config, s: State, acts: seq<Action>, n: nat, b: nat)
    requires Agrees(s.svc) && CursorsLag(s) && PassedBy(s, n, b) && !Covered(s.windows, n, b) && Legal(cfg, s, acts)
    ensures !Covered(After(cfg, s, acts).windows, n, b)
    decreases |acts|
  {
    if acts != [] {
      StepPasses(cfg, s, acts[0], n, b);
      StepAgrees(cfg, s, acts[0]);
      StepLag(cfg, s, acts[0]);
      RunPasses(cfg, Apply(cfg, s, acts[0]), acts[1..], n, b);
    }
  }

  /** However the run goes on, no window of poll `n` will hold block `b`. */
  ghost predicate SkippedForGood(cfg: Config, s: State, n: nat, b: nat) {
    forall acts :: Legal(cfg, s, acts) ==> !Covered(After(cfg, s, acts).windows, n, b)
  }

  lemma {:induction false} OneAnswer(cfg: Config, s: State, r: Request, hi: nat)
    requires Enabled(cfg, s, Answer(r, hi))
    ensures Legal(cfg, s, [Answer(r, hi)]) && After(cfg, s, [Answer(r, hi)]) == AnswerStep(cfg, s, r, hi)
  {
    assert [Answer(r, hi)][1..] == [];
  }

  /** The answer of a request that reaches back to `b` covers it. */
  lemma {:induction false} AnswerFills(cfg: Config, s: State, r: Request, b: nat)
    requires CursorsLag(s) && r in s.inflight && r.tag.event == LOGS && r.from <= b < |s.chain|
    ensures !SkippedForGood(cfg, s, r.serial, b)
  {
    var hi := |s.chain| - 1;
    assert RequestLags(s.svc.poller, |s.chain|, r);
    OneAnswer(cfg, s, r, hi);
    var w := Window(r.serial, r.tag, r.from, hi, SubsOf(s.svc.table, r.tag));
    assert w in After(cfg, s, [Answer(r, hi)]).windows;
  }

  /** A block that is missing below a poll's cursor is missing for good exactly when no request in flight reaches it. */
  lemma {:induction false} SkippedForGoodIff(cfg: Config, s: State, q: Poll, b: nat)
    requires Agrees(s.svc) && CursorsLag(s) && q in s.svc.poller.polls
    requires q.lastPolled.Some? && b < q.lastPolled.value && !Covered(s.windows, q.serial, b)
    ensures SkippedForGood(cfg, s, q.serial, b) <==>
      forall r <- s.inflight :: r.serial == q.serial && r.tag.event == LOGS ==> b < r.from
  {
    if forall r <- s.inflight :: r.serial == q.serial && r.tag.event == LOGS ==> b < r.from {
      forall p | p in s.svc.poller.polls && p.serial == q.serial ensures p == q {
        SameSerial(s.svc.poller.polls, p, q);
      }
      forall acts | Legal(cfg, s, acts) ensures !Covered(After(cfg, s, acts).windows, q.serial, b) {
        RunPasses(cfg, s, acts, q.serial, b);
      }
    } else {
      var r :| r in s.inflight && r.serial == q.serial && r.tag.event == LOGS && r.from <= b;
      AnswerFills(cfg, s, r, b);
    }
  }

  lemma {:induction false} RunLag(cfg: Config, s: State, acts: seq<Action>)
    requires Agrees(s.svc) && CursorsLag(s) && Legal(cfg, s, acts)
    ensures Agrees(After(cfg, s, acts).svc) && CursorsLag(After(cfg, s, acts))
    decreases |acts|
  {
    if acts != [] {
      StepAgrees(cfg, s, acts[0]);
      StepLag(cfg, s, acts[0]);
      RunLag(cfg, Apply(cfg, s, acts[0]), acts[1..]);
    }
  }
}
