/** A run in which polls overlap ticks, step by step, and the blocks it skips. */
module OverlappingPolls {
  import opened Prelude
  import opened Tables
  import opened Machine
  import opened Agreement
  import opened Cursor
  import opened Coverage

  const LOGS_TAG := Tag(LOGS, [])

  /** One connection with one logs subscription. */
  lemma {:induction false} OneSubscription(cfg: Config, chain: seq<seq<Log>>) returns (acts: seq<Action>)
    requires cfg.subLimit >= 1
    ensures Legal(cfg, Init(chain), acts)
    ensures var s := After(cfg, Init(chain), acts);
      && s.chain == chain && s.inflight == multiset{} && s.windows == []
      && s.svc.table == map[LOGS_TAG := [Subscriber("c", "id")]]
      && s.svc.poller == Poller([Poll(0, LOGS_TAG, None)], 1, true, None, 1, 0)
      && s.svc.out == Outbox({}, [])
  {
    var s0 := Init(chain);
    Extend(cfg, s0, [], Open("c", "ip", false));
    acts := [Open("c", "ip", false)];
    Extend(cfg, s0, acts, Check("c", 0, LOGS_TAG));
    acts := acts + [Check("c", 0, LOGS_TAG)];
    Extend(cfg, s0, acts, Register(0, "id"));
    acts := acts + [Register(0, "id")];
    assert [] + [Subscriber("c", "id")] == [Subscriber("c", "id")];
  }

  /** Grows the chain by one empty block. */
  lemma {:induction false} EmptyBlock(cfg: Config, s0: State, acts: seq<Action>) returns (acts': seq<Action>)
    requires Legal(cfg, s0, acts)
    ensures Legal(cfg, s0, acts')
    ensures var s := After(cfg, s0, acts); After(cfg, s0, acts') == s.(chain := s.chain + [[]])
  {
    Extend(cfg, s0, acts, NewBlock([]));
    acts' := acts + [NewBlock([])];
  }

  /** A tick sends one request for the only poll. */
  lemma {:induction false} OneTick(cfg: Config, s0: State, acts: seq<Action>, block: nat, cursor: Option<nat>)
      returns (acts': seq<Action>)
    requires Legal(cfg, s0, acts)
    requires var s := After(cfg, s0, acts);
      Enabled(cfg, s, Tick(block)) && s.svc.poller.polls == [Poll(0, LOGS_TAG, cursor)]
    ensures Legal(cfg, s0, acts')
    ensures var s := After(cfg, s0, acts);
      After(cfg, s0, acts') == s.(
        svc := s.svc.(poller := s.svc.poller.(latestBlock := Some(block))),
        inflight := s.inflight + multiset{Request(0, LOGS_TAG, From(s.svc.poller.polls[0], block), |s.chain| - 1)})
  {
    var s := After(cfg, s0, acts);
    Extend(cfg, s0, acts, Tick(block));
    assert Requests(s.svc.poller.polls, block, |s.chain| - 1) 
        == [Request(0, LOGS_TAG, From(s.svc.poller.polls[0], block), |s.chain| - 1)];
    acts' := acts + [Tick(block)];
  }

  lemma {:induction false} ThreeEmptyBlocks(cfg: Config, s0: State, acts: seq<Action>) returns (acts': seq<Action>)
    requires Legal(cfg, s0, acts)
    ensures Legal(cfg, s0, acts')
    ensures var s := After(cfg, s0, acts); After(cfg, s0, acts') == s.(chain := s.chain + [[], [], []])
  {
    acts' := EmptyBlock(cfg, s0, acts);
    acts' := EmptyBlock(cfg, s0, acts');
    acts' := EmptyBlock(cfg, s0, acts');
    var chain := After(cfg, s0, acts).chain;
    assert chain + [[]] + [[]] + [[]] == chain + [[], [], []];
  }

  lemma {:induction false} TwoTicks(cfg: Config) returns (acts: seq<Action>)
    requires cfg.subLimit >= 1
    ensures Legal(cfg, Init([[]]), acts)
    ensures var s := After(cfg, Init([[]]), acts);
      && s.chain == [[], [], [], []] && s.windows == []
      && s.inflight == multiset{Request(0, LOGS_TAG, 0, 0), Request(0, LOGS_TAG, 3, 3)}
      && s.svc.poller.polls == [Poll(0, LOGS_TAG, None)] && s.svc.poller.latestBlock == Some(3)
  {
    acts := OneSubscription(cfg, [[]]);
    acts := OneTick(cfg, Init([[]]), acts, 0, None);
    acts := ThreeEmptyBlocks(cfg, Init([[]]), acts);
    acts := OneTick(cfg, Init([[]]), acts, 3, None);
  }

  lemma {:induction false} AnswerOne(cfg: Config, s: State, r: Request, hi: nat, cursor: Option<nat>)
    requires hi < |s.chain| && r.tag == LOGS_TAG && r.serial == 0
    requires s.svc.poller.polls == [Poll(0, LOGS_TAG, cursor)]
    ensures var s' := AnswerStep(cfg, s, r, hi);
      && s'.svc.poller.polls == [Poll(0, LOGS_TAG, s.svc.poller.latestBlock)]
      && s'.svc.poller.latestBlock == s.svc.poller.latestBlock && s'.chain == s.chain
      && s'.inflight == s.inflight - multiset{r}
      && s'.windows == s.windows + [Window(0, LOGS_TAG, r.from, hi, SubsOf(s.svc.table, LOGS_TAG))]
  {}

  /** An answer to the only poll, as the next step of a run. */
  lemma {:induction false} AnswerNext(cfg: Config, s0: State, acts: seq<Action>, r: Request, hi: nat, cursor: Option<nat>)
      returns (acts': seq<Action>)
    requires Legal(cfg, s0, acts) && r.tag == LOGS_TAG && r.serial == 0
    requires var s := After(cfg, s0, acts); Enabled(cfg, s, Answer(r, hi)) && s.svc.poller.polls == [Poll(0, LOGS_TAG, cursor)]
    ensures Legal(cfg, s0, acts') && After(cfg, s0, acts') == AnswerStep(cfg, After(cfg, s0, acts), r, hi)
    ensures var s, s' := After(cfg, s0, acts), After(cfg, s0, acts');
      && s'.svc.poller.polls == [Poll(0, LOGS_TAG, s.svc.poller.latestBlock)]
      && s'.svc.poller.latestBlock == s.svc.poller.latestBlock && s'.chain == s.chain
      && s'.inflight == s.inflight - multiset{r}
      && s'.windows == s.windows + [Window(0, LOGS_TAG, r.from, hi, SubsOf(s.svc.table, LOGS_TAG))]
  {
    AnswerOne(cfg, After(cfg, s0, acts), r, hi, cursor);
    Extend(cfg, s0, acts, Answer(r, hi));
    acts' := acts + [Answer(r, hi)];
  }

  lemma {:induction false} NothingInFlight(cfg: Config, s: State, q: Poll, b: nat)
    requires Agrees(s.svc) && CursorsLag(s) && s.svc.poller.polls == [q] && s.inflight == multiset{}
    requires q.lastPolled.Some? && b < q.lastPolled.value && !Covered(s.windows, q.serial, b)
    ensures SkippedForGood(cfg, s, q.serial, b)
  {
    SkippedForGoodIff(cfg, s, q, b);
  }

  /** Both requests of `TwoTicks` are answered, the older one first. */
  lemma {:induction false} BothAnswered(cfg: Config) returns (acts: seq<Action>)
    requires cfg.subLimit >= 1
    ensures Legal(cfg, Init([[]]), acts)
    ensures var s := After(cfg, Init([[]]), acts);
      && s.svc.poller.polls == [Poll(0, LOGS_TAG, Some(3))] && s.inflight == multiset{}
      && |s.windows| == 2
      && s.windows[0].serial == s.windows[1].serial == 0
      && s.windows[0].lo == s.windows[0].hi == 0 && s.windows[1].lo == s.windows[1].hi == 3
  {
    var s0, r1, r2 := Init([[]]), Request(0, LOGS_TAG, 0, 0), Request(0, LOGS_TAG, 3, 3);
    acts := TwoTicks(cfg);
    acts := AnswerNext(cfg, s0, acts, r1, 0, None);
    acts := AnswerNext(cfg, s0, acts, r2, 3, Some(3));
  }

  /**
   Overlapping polls can skip blocks for good: the first poll is answered after a later tick has read
   block 3, so the cursor jumps past blocks 1 and 2, which no window of the poll will ever hold.
   */
  lemma {:induction false} OverlapSkipsBlocks(cfg: Config) returns (acts: seq<Action>)
    requires cfg.subLimit >= 1
    ensures Legal(cfg, Init([[]]), acts)
    ensures var s := After(cfg, Init([[]]), acts);
      && s.svc.poller.polls == [Poll(0, LOGS_TAG, Some(3))]
      && |s.windows| == 2
      && s.windows[0].serial == s.windows[1].serial == 0
      && s.windows[0].lo == s.windows[0].hi == 0 && s.windows[1].lo == s.windows[1].hi == 3
      && SkippedForGood(cfg, s, 0, 1) && SkippedForGood(cfg, s, 0, 2)
  {
    acts := BothAnswered(cfg);
    RunLag(cfg, Init([[]]), acts);
    var s, q := After(cfg, Init([[]]), acts), Poll(0, LOGS_TAG, Some(3));
    NothingInFlight(cfg, s, q, 1);
    NothingInFlight(cfg, s, q, 2);
  }
}
