/**
 Cursor and cache together: what one live subscription has received. Between any two windows of its
 poll that were handed to it, no block is missing and every matching log came exactly once.
 */
module EndToEnd {
  import opened Prelude
  import opened Tables
  import opened Machine
  import opened Agreement
  import opened Cursor
  import opened Coverage
  import opened OverlappingPolls
  import opened Notification
  import opened Delivery

  /** The windows whose data was handed to `v`, in order. */
  ghost function HandedTo(windows: seq<Window>, v: Subscriber): seq<Window> {
    if windows == [] then []
    else
      var last := windows[|windows| - 1];
      HandedTo(windows[..|windows| - 1], v) + (if v in last.subs then [last] else [])
  }

  lemma {:induction false} HandedMembers(windows: seq<Window>, v: Subscriber)
    ensures forall w :: w in HandedTo(windows, v) <==> w in windows && v in w.subs
  {
    if windows != [] {
      HandedMembers(windows[..|windows| - 1], v);
      assert windows == windows[..|windows| - 1] + [windows[|windows| - 1]];
    }
  }

  lemma {:induction false} HandedAppend(windows: seq<Window>, w: Window, v: Subscriber)
    ensures HandedTo(windows + [w], v) == HandedTo(windows, v) + (if v in w.subs then [w] else [])
  {
    assert (windows + [w])[..|windows|] == windows;
  }

  /** Each live subscription has an unbroken stretch up to the cursor of its tag's poll. */
  ghost predicate Unbroken(s: State) {
    forall q <- s.svc.poller.polls :: q.tag in s.svc.table ==>
      forall v <- s.svc.table[q.tag] :: NoHoleBelowCursor(HandedTo(s.windows, v), q)
  }

  lemma {:induction false} RegisterUnbroken(cfg: Config, s: State, request: nat, id: SubId)
    requires Unbroken(s) && CursorOk(s) && IdsOk(s) && Enabled(cfg, s, Register(request, id))
    ensures Unbroken(RegisterStep(cfg, s, request, id))
  {
    var s' := RegisterStep(cfg, s, request, id);
    RegisterTable(cfg, s, request, id);
    RegisterPolls(cfg, s, request, id);
    forall q, v | q in s'.svc.poller.polls && q.tag in s'.svc.table && v in s'.svc.table[q.tag]
      ensures NoHoleBelowCursor(HandedTo(s.windows, v), q)
    {
      HandedMembers(s.windows, v);
      if v.id !in s.used {
        assert forall w <- s.windows :: v !in w.subs;
      } else if q in s.svc.poller.polls {
        assert q.tag in s.svc.table && v in s.svc.table[q.tag];
      }
    }
  }

  lemma {:induction false} ShrinkUnbroken(s: State, c: ConnId, subId: Option<SubId>, s': State)
    requires Unbroken(s) && s'.svc == Unsubscribe(s.svc, c, subId) && s'.windows == s.windows
    ensures Unbroken(s')
  {
    KeptSubs(s.svc.table, c, subId);
    Shrinks(s, c, subId);
  }

  lemma {:induction false} AnswerUnbroken(cfg: Config, s: State, r: Request, hi: nat, i: nat, v: Subscriber)
    requires Unbroken(s) && CursorOk(s) && Enabled(cfg, s, Answer(r, hi)) && TimelyNow(s, Answer(r, hi))
    requires i < |s.svc.poller.polls|
    requires var q := s.svc.poller.polls[i]; q.tag in s.svc.table && v in s.svc.table[q.tag]
    ensures var s' := AnswerStep(cfg, s, r, hi);
      NoHoleBelowCursor(HandedTo(s'.windows, v), s'.svc.poller.polls[i])
  {
    var s', q := AnswerStep(cfg, s, r, hi), s.svc.poller.polls[i];
    var before, latest := HandedTo(s.windows, v), s.svc.poller.latestBlock.value;
    assert q in s.svc.poller.polls && NoHoleBelowCursor(before, q);
    assert RequestLags(s.svc.poller, |s.chain|, r);
    if r.tag.event == LOGS {
      var w := Window(r.serial, r.tag, r.from, hi, SubsOf(s.svc.table, r.tag));
      HandedAppend(s.windows, w, v);
      if q.serial == r.serial {
        AnswerCoverage(before, w, q, latest);
      } else {
        CoverageGrows(before, w, q);
        assert before + [] == before;
      }
    } else {
      assert s'.windows == s.windows;
      HandedMembers(s.windows, v);
      assert q.serial == r.serial ==> q.tag == r.tag;
      assert q.serial == r.serial ==> forall w <- before :: w.serial != q.serial;
    }
  }

  lemma {:induction false} AnswersUnbroken(cfg: Config, s: State, r: Request, hi: nat)
    requires Unbroken(s) && CursorOk(s) && Enabled(cfg, s, Answer(r, hi)) && TimelyNow(s, Answer(r, hi))
    ensures Unbroken(AnswerStep(cfg, s, r, hi))
  {
    var s' := AnswerStep(cfg, s, r, hi);
    forall q', v | q' in s'.svc.poller.polls && q'.tag in s.svc.table && v in s.svc.table[q'.tag]
      ensures NoHoleBelowCursor(HandedTo(s'.windows, v), q')
    {
      var i :| 0 <= i < |s'.svc.poller.polls| && s'.svc.poller.polls[i] == q';
      AnswerUnbroken(cfg, s, r, hi, i, v);
    }
  }

  lemma {:induction false} StepUnbroken(cfg: Config, s: State, a: Action)
    requires Unbroken(s) && CursorOk(s) && IdsOk(s) && Enabled(cfg, s, a) && TimelyNow(s, a)
    ensures Unbroken(Apply(cfg, s, a))
  {
    var s' := Apply(cfg, s, a);
    if a.Register? {
      RegisterUnbroken(cfg, s, a.request, a.id);
    } else if a.Unsub? {
      ShrinkUnbroken(s, a.conn, a.subId, s');
    } else if a.Close? {
      ShrinkUnbroken(s, a.conn, None, s');
    } else if a.Answer? {
      AnswersUnbroken(cfg, s, a.poll, a.hi);
    }
  }

  lemma {:induction false} RunUnbroken(cfg: Config, s: State, acts: seq<Action>)
    requires Unbroken(s) && CursorOk(s) && DeliveryOk(cfg, s)
    requires Legal(cfg, s, acts) && Timely(cfg, s, acts) && SafeEvictions(cfg, s, acts)
    ensures Unbroken(After(cfg, s, acts)) && DeliveryOk(cfg, After(cfg, s, acts))
    decreases |acts|
  {
    if acts != [] {
      StepUnbroken(cfg, s, acts[0]);
      StepCursor(cfg, s, acts[0]);
      StepDelivery(cfg, s, acts[0]);
      RunUnbroken(cfg, Apply(cfg, s, acts[0]), acts[1..]);
    }
  }

  /**
   The whole pipeline: in a timely run with safe evictions, take a live subscription and any two
   windows of its poll that were handed to it. Every matching log on the chain between the start of
   the one and the end of the other has been sent to the subscription exactly once.
   */
  lemma {:induction false} NothingMissedNothingTwice(cfg: Config, chain: seq<seq<Log>>, acts: seq<Action>,
                                  q: Poll, v: Subscriber, w1: Window, w2: Window, l: Log)
    requires WellFormed(chain) && Legal(cfg, Init(chain), acts)
    requires Timely(cfg, Init(chain), acts) && SafeEvictions(cfg, Init(chain), acts)
    requires var s := After(cfg, Init(chain), acts);
      && q in s.svc.poller.polls && q.tag in s.svc.table && v in s.svc.table[q.tag]
      && w1 in s.windows && w2 in s.windows && v in w1.subs && v in w2.subs
      && w1.serial == w2.serial == q.serial
      && InChain(s.chain, l) && cfg.matches(q.tag, l)
    requires w1.lo <= l.block <= w2.hi
    ensures multiset(After(cfg, Init(chain), acts).svc.out.sent)[Send(v, LogItem(l))] == 1
  {
    RunUnbroken(cfg, Init(chain), acts);
    RunCursor(cfg, Init(chain), acts);
    DueBetween(cfg, After(cfg, Init(chain), acts), q, v, w1, w2, l);
  }

  lemma {:induction false} DueBetween(cfg: Config, s: State, q: Poll, v: Subscriber, w1: Window, w2: Window, l: Log)
    requires Unbroken(s) && CursorOk(s) && ExactlyOnce(cfg, s)
    requires q in s.svc.poller.polls && q.tag in s.svc.table && v in s.svc.table[q.tag]
    requires w1 in s.windows && w2 in s.windows && v in w1.subs && v in w2.subs
    requires w1.serial == w2.serial == q.serial && InChain(s.chain, l) && cfg.matches(q.tag, l)
    requires w1.lo <= l.block <= w2.hi
    ensures Times(s.svc.out, v, LogItem(l)) == 1
  {
    var handed := HandedTo(s.windows, v);
    HandedMembers(s.windows, v);
    assert NoHoleBelowCursor(handed, q);
    assert w1 in handed && w2 in handed;
    assert Covered(handed, q.serial, l.block);
    var w :| w in handed && w.serial == q.serial && w.lo <= l.block <= w.hi;
    assert DueIn(cfg, s.chain, w, v, l);
  }

  // ---------- a log sent twice ----------

  const LOG := Log(0, 0, "transfer")
  const SUB := Subscriber("c", "id")

  /** The first poll of a fresh subscription fetches block 0 and sends its log. */
  lemma {:induction false} FirstDelivery(cfg: Config, s: State)
    requires cfg.matches(LOGS_TAG, LOG) && s.chain == [[LOG]]
    requires s.svc.table == map[LOGS_TAG := [SUB]]
    ensures Data(cfg, s.chain, Request(0, LOGS_TAG, 0, 0), 0) == [LogItem(LOG)]
    ensures (SUB.id, LogItem(LOG)) !in s.svc.out.cache ==>
      AnswerStep(cfg, s, Request(0, LOGS_TAG, 0, 0), 0).svc.out.sent == s.svc.out.sent + [Send(SUB, LogItem(LOG))]
  {
    assert Matching(cfg, LOGS_TAG, [LOG]) == [LogItem(LOG)];
    assert LogsIn(cfg, s.chain, LOGS_TAG, 1, 0) == [];
    assert LogsIn(cfg, s.chain, LOGS_TAG, 0, 0) == [LogItem(LOG)];
    assert SubsOf(s.svc.table, LOGS_TAG) == [SUB];
    var sent := NotifyOne(SUB, LogItem(LOG), s.svc.out);
    assert [SUB][1..] == [] && [LogItem(LOG)][1..] == [];
    assert Notify([SUB], LogItem(LOG), s.svc.out) == Notify([], LogItem(LOG), sent) == sent;
    assert Deliver([SUB], [LogItem(LOG)], s.svc.out) == Deliver([SUB], [], sent) == sent;
  }

  /** The state of a run with that one subscription, apart from what its log's delivery has left. */
  ghost predicate OnlyLog(s: State, cursor: Option<nat>, latest: Option<nat>) {
    && s.chain == [[LOG]] && s.inflight == multiset{} && s.svc.table == map[LOGS_TAG := [SUB]]
    && s.svc.poller.polls == [Poll(0, LOGS_TAG, cursor)] && s.svc.poller.timer && s.svc.poller.latestBlock == latest
  }

  /** A tick and its answer send the log if the cache does not hold it. */
  lemma {:induction false} PollOnce(cfg: Config, s0: State, acts: seq<Action>, cursor: Option<nat>) returns (acts': seq<Action>)
    requires cfg.matches(LOGS_TAG, LOG) && Legal(cfg, s0, acts) && (cursor.Some? ==> cursor.value == 0)
    requires var s := After(cfg, s0, acts); OnlyLog(s, cursor, cursor) && (SUB.id, LogItem(LOG)) !in s.svc.out.cache
    ensures Legal(cfg, s0, acts') && OnlyLog(After(cfg, s0, acts'), Some(0), Some(0))
    ensures After(cfg, s0, acts').svc.out.sent == After(cfg, s0, acts).svc.out.sent + [Send(SUB, LogItem(LOG))]
    ensures After(cfg, s0, acts').conns == After(cfg, s0, acts).conns
  {
    acts' := OneTick(cfg, s0, acts, 0, cursor);
    FirstDelivery(cfg, After(cfg, s0, acts'));
    acts' := AnswerNext(cfg, s0, acts', Request(0, LOGS_TAG, 0, 0), 0, cursor);
  }

  /** A connection whose subscribe request is overtaken by its own close. */
  lemma {:induction false} CloseOvertakes(cfg: Config) returns (acts: seq<Action>)
    requires cfg.subLimit >= 1
    ensures Legal(cfg, Init([[LOG]]), acts)
    ensures var s := After(cfg, Init([[LOG]]), acts);
      && SUB.conn in s.conns && !s.conns[SUB.conn].open
      && OnlyLog(s, None, None) && s.svc.out == Outbox({}, [])
  {
    var s0 := Init([[LOG]]);
    Extend(cfg, s0, [], Open("c", "ip", false));
    acts := [Open("c", "ip", false)];
    Extend(cfg, s0, acts, Check("c", 0, LOGS_TAG));
    acts := acts + [Check("c", 0, LOGS_TAG)];
    Extend(cfg, s0, acts, Close("c"));
    acts := acts + [Close("c")];
    Extend(cfg, s0, acts, Register(0, "id"));
    acts := acts + [Register(0, "id")];
    assert [] + [SUB] == [SUB];
  }

  /** A log is sent to a connection that is closed, and its subscription stays. */
  lemma {:induction false} ClosedConnectionIsSent(cfg: Config) returns (acts: seq<Action>)
    requires cfg.subLimit >= 1 && cfg.matches(LOGS_TAG, LOG)
    ensures Legal(cfg, Init([[LOG]]), acts)
    ensures var s := After(cfg, Init([[LOG]]), acts);
      && SUB.conn in s.conns && !s.conns[SUB.conn].open
      && s.svc.out.sent == [Send(SUB, LogItem(LOG))] && s.svc.table == map[LOGS_TAG := [SUB]]
  {
    acts := CloseOvertakes(cfg);
    acts := PollOnce(cfg, Init([[LOG]]), acts, None);
  }

  /** Dropping an entry of the block the cursor stands on sends that log a second time. */
  lemma {:induction false} UnsafeEvictionDuplicates(cfg: Config) returns (acts: seq<Action>)
    requires cfg.subLimit >= 1 && cfg.matches(LOGS_TAG, LOG)
    ensures Legal(cfg, Init([[LOG]]), acts)
    ensures multiset(After(cfg, Init([[LOG]]), acts).svc.out.sent)[Send(SUB, LogItem(LOG))] == 2
  {
    var s0, entry := Init([[LOG]]), (SUB.id, LogItem(LOG));
    acts := OneSubscription(cfg, [[LOG]]);
    acts := PollOnce(cfg, s0, acts, None);
    Extend(cfg, s0, acts, Evict({entry}));
    acts := acts + [Evict({entry})];
    acts := PollOnce(cfg, s0, acts, Some(0));
    assert After(cfg, s0, acts).svc.out.sent == [Send(SUB, LogItem(LOG)), Send(SUB, LogItem(LOG))];
  }
}
