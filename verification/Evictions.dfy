/**
 What the dedup cache may forget. An eviction is harmless in every continuation exactly when what it
 drops is behind the windows of its tag; where polls do not overlap ticks, that is below `lastPolled`.
 */
module Evictions {
  import opened Prelude
  import opened Tables
  import opened Machine
  import opened Agreement
  import opened Cursor
  import opened Coverage
  import opened Notification
  import opened Delivery
  import opened EndToEnd

  // ---------- harmless exactly when behind ----------

  /** From here on, as long as later evictions are safe, no log is ever sent twice to anyone. */
  ghost predicate NeverTwice(cfg: Config, s: State) {
    forall acts, u, l :: Legal(cfg, s, acts) && SafeEvictions(cfg, s, acts) ==>
      Times(After(cfg, s, acts).svc.out, u, LogItem(l)) <= 1
  }

  lemma {:induction false} DeliveryNeverTwice(cfg: Config, s: State)
    requires DeliveryOk(cfg, s)
    ensures NeverTwice(cfg, s)
  {
    forall acts, u, l | Legal(cfg, s, acts) && SafeEvictions(cfg, s, acts)
      ensures Times(After(cfg, s, acts).svc.out, u, LogItem(l)) <= 1
    {
      RunDelivery(cfg, s, acts);
    }
  }

  /** A log that was sent to a live subscription is on the chain and matches that subscription's tag. */
  lemma {:induction false} SentIsWanted(cfg: Config, s: State, t: Tag, u: Subscriber, l: Log)
    requires DeliveryOk(cfg, s) && SentLive(s, t, u, l)
    ensures t.event == LOGS && InChain(s.chain, l) && cfg.matches(t, l) && Times(s.svc.out, u, LogItem(l)) == 1
  {
    assert Times(s.svc.out, u, LogItem(l)) > 0;
    assert Due(cfg, s, u, l);
    var w :| w in s.windows && DueIn(cfg, s.chain, w, u, l);
  }

  /** `u` would be sent `l` again by any window of `t` that holds it. */
  ghost predicate Forgotten(cfg: Config, s: State, t: Tag, u: Subscriber, l: Log) {
    && WellFormed(s.chain) && t.event == LOGS && u in SubsOf(s.svc.table, t) && DistinctIds(SubsOf(s.svc.table, t))
    && InChain(s.chain, l) && cfg.matches(t, l) && (u.id, LogItem(l)) !in s.svc.out.cache
  }

  lemma {:induction false} AnswerRepeats(cfg: Config, s: State, r: Request, u: Subscriber, l: Log)
    requires Forgotten(cfg, s, r.tag, u, l) && r in s.inflight && r.from <= l.block && r.head < |s.chain|
    ensures Enabled(cfg, s, Answer(r, |s.chain| - 1))
    ensures Times(AnswerStep(cfg, s, r, |s.chain| - 1).svc.out, u, LogItem(l)) == Times(s.svc.out, u, LogItem(l)) + 1
  {
    var hi := |s.chain| - 1;
    DataItems(cfg, s.chain, r, hi);
    DeliverTimes(SubsOf(s.svc.table, r.tag), Data(cfg, s.chain, r, hi), s.svc.out, u, LogItem(l));
  }

  /** A tick makes every poll ask from the first block it can ask for. */
  lemma {:induction false} TickAsks(cfg: Config, s: State, q: Poll) returns (block: nat, r: Request)
    requires s.chain != [] && CursorsLag(s) && q in s.svc.poller.polls
    ensures Enabled(cfg, s, Tick(block)) && r in Apply(cfg, s, Tick(block)).inflight
    ensures r == Request(q.serial, q.tag, NextFrom(s.svc.poller, q), |s.chain| - 1)
  {
    block := if s.svc.poller.latestBlock.Some? then s.svc.poller.latestBlock.value else 0;
    var issued := Requests(s.svc.poller.polls, block, |s.chain| - 1);
    var i :| 0 <= i < |s.svc.poller.polls| && s.svc.poller.polls[i] == q;
    r := issued[i];
    assert r in issued;
  }

  lemma {:induction false} OneStep(cfg: Config, s: State, a: Action)
    requires Enabled(cfg, s, a) && SafeEvictionNow(s, a)
    ensures Legal(cfg, s, [a]) && SafeEvictions(cfg, s, [a]) && After(cfg, s, [a]) == Apply(cfg, s, a)
  {
    assert [a][1..] == [];
  }

  /** A run from `s` without evictions that sends `l` to `u` once more. */
  ghost predicate Repeats(cfg: Config, s: State, acts: seq<Action>, u: Subscriber, l: Log) {
    && Legal(cfg, s, acts) && SafeEvictions(cfg, s, acts)
    && Times(After(cfg, s, acts).svc.out, u, LogItem(l)) == Times(s.svc.out, u, LogItem(l)) + 1
  }

  lemma {:induction false} RepeatsFromRequest(cfg: Config, s: State, r: Request, u: Subscriber, l: Log)
      returns (acts: seq<Action>)
    requires Forgotten(cfg, s, r.tag, u, l) && r in s.inflight && r.from <= l.block && r.head < |s.chain|
    ensures Repeats(cfg, s, acts, u, l)
  {
    AnswerRepeats(cfg, s, r, u, l);
    OneStep(cfg, s, Answer(r, |s.chain| - 1));
    acts := [Answer(r, |s.chain| - 1)];
  }

  lemma {:induction false} RepeatsLater(cfg: Config, s: State, a: Action, acts: seq<Action>, u: Subscriber, l: Log)
    requires Enabled(cfg, s, a) && !a.Evict? && Apply(cfg, s, a).svc.out == s.svc.out
    requires Repeats(cfg, Apply(cfg, s, a), acts, u, l)
    ensures Repeats(cfg, s, [a] + acts, u, l)
  {
    assert ([a] + acts)[1..] == acts;
  }

  lemma {:induction false} TickForgets(cfg: Config, s: State, block: nat, t: Tag, u: Subscriber, l: Log)
    requires Forgotten(cfg, s, t, u, l) && Enabled(cfg, s, Tick(block))
    ensures Forgotten(cfg, Apply(cfg, s, Tick(block)), t, u, l) && Apply(cfg, s, Tick(block)).svc.out == s.svc.out
    ensures Apply(cfg, s, Tick(block)).chain == s.chain
  {}

  lemma {:induction false} RepeatsFromPoll(cfg: Config, s: State, q: Poll, u: Subscriber, l: Log)
      returns (acts: seq<Action>)
    requires Forgotten(cfg, s, q.tag, u, l) && CursorsLag(s)
    requires q in s.svc.poller.polls && NextFrom(s.svc.poller, q) <= l.block
    ensures Repeats(cfg, s, acts, u, l)
  {
    var block, r := TickAsks(cfg, s, q);
    TickForgets(cfg, s, block, q.tag, u, l);
    acts := RepeatsFromRequest(cfg, Apply(cfg, s, Tick(block)), r, u, l);
    RepeatsLater(cfg, s, Tick(block), acts, u, l);
    acts := [Tick(block)] + acts;
  }

  /** What is not behind and not in the cache can be sent again. */
  lemma {:induction false} NotBehindRepeats(cfg: Config, s: State, t: Tag, u: Subscriber, l: Log)
      returns (acts: seq<Action>)
    requires Forgotten(cfg, s, t, u, l) && CursorsLag(s) && !Behind(s, t, l.block)
    ensures Repeats(cfg, s, acts, u, l)
  {
    if r :| r in s.inflight && r.tag == t && r.from <= l.block {
      assert RequestLags(s.svc.poller, |s.chain|, r);
      acts := RepeatsFromRequest(cfg, s, r, u, l);
    } else {
      var q :| q in s.svc.poller.polls && q.tag == t && NextFrom(s.svc.poller, q) <= l.block;
      acts := RepeatsFromPoll(cfg, s, q, u, l);
    }
  }

  lemma {:induction false} EvictLag(cfg: Config, s: State, entries: set<(SubId, Item)>, t: Tag, b: nat)
    requires CursorsLag(s)
    ensures CursorsLag(Apply(cfg, s, Evict(entries))) && (Behind(Apply(cfg, s, Evict(entries)), t, b) <==> Behind(s, t, b))
  {
    SameRequestsLag(s, Apply(cfg, s, Evict(entries)));
  }

  /** Dropping what is not behind lets the same log be sent a second time, without any further eviction. */
  lemma {:induction false} EvictionRepeats(cfg: Config, s: State, entries: set<(SubId, Item)>,
                                           t: Tag, u: Subscriber, l: Log) returns (acts: seq<Action>)
    requires DeliveryOk(cfg, s) && SentLive(s, t, u, l) && (u.id, LogItem(l)) in entries && !Behind(s, t, l.block)
    ensures var dropped := Apply(cfg, s, Evict(entries));
      && Legal(cfg, dropped, acts) && SafeEvictions(cfg, dropped, acts)
      && Times(After(cfg, dropped, acts).svc.out, u, LogItem(l)) == 2
  {
    SentIsWanted(cfg, s, t, u, l);
    EvictLag(cfg, s, entries, t, l.block);
    acts := NotBehindRepeats(cfg, Apply(cfg, s, Evict(entries)), t, u, l);
  }

  /** An eviction is harmless in every later safe run exactly when it drops only what is behind. */
  lemma {:induction false} EvictionHarmlessIff(cfg: Config, s: State, entries: set<(SubId, Item)>)
    requires DeliveryOk(cfg, s)
    ensures NeverTwice(cfg, Apply(cfg, s, Evict(entries))) <==> SafeEvictionNow(s, Evict(entries))
  {
    if SafeEvictionNow(s, Evict(entries)) {
      StepDelivery(cfg, s, Evict(entries));
      DeliveryNeverTwice(cfg, Apply(cfg, s, Evict(entries)));
    } else {
      var t, u, l :| SentLive(s, t, u, l) && (u.id, LogItem(l)) in entries && !Behind(s, t, l.block);
      var acts := EvictionRepeats(cfg, s, entries, t, u, l);
    }
  }

  // ---------- without overlap: below the cursor ----------

  /** One request a tag, and it asks from the tag's cursor if there is one. */
  ghost predicate OneEach(inflight: multiset<Request>, polls: seq<Poll>) {
    && (forall r <- inflight :: inflight[r] == 1)
    && (forall r <- inflight, o <- inflight :: r.tag == o.tag ==> r == o)
    && (forall r <- inflight, q <- polls :: r.tag == q.tag ==> FromCursor(r, q))
  }

  ghost predicate OneRequestEach(s: State) {
    OneEach(s.inflight, s.svc.poller.polls)
  }

  ghost predicate FromCursor(r: Request, q: Poll) {
    q.lastPolled.Some? ==> r.from == q.lastPolled.value
  }

  lemma {:induction false} SameTag(polls: seq<Poll>, p: Poll, q: Poll)
    requires DistinctPolls(polls) && p in polls && q in polls && p.tag == q.tag
    ensures p == q
  {
    var i :| 0 <= i < |polls| && polls[i] == p;
    var j :| 0 <= j < |polls| && polls[j] == q;
  }

  lemma {:induction false} TagsInRequests(polls: seq<Poll>, block: nat, head: nat, i: nat, j: nat)
    requires DistinctPolls(polls) && i < |polls| && j < |polls|
    requires Requests(polls, block, head)[i].tag == Requests(polls, block, head)[j].tag
    ensures i == j
  {}

  /** What a tick sends out has no tag twice, so nothing twice. */
  lemma {:induction false} IssuedOnce(polls: seq<Poll>, block: nat, head: nat, r: Request)
    requires DistinctPolls(polls) && r in Requests(polls, block, head)
    ensures multiset(Requests(polls, block, head))[r] == 1
  {
    var issued := Requests(polls, block, head);
    var i :| 0 <= i < |issued| && issued[i] == r;
    var front, back := issued[..i], issued[i + 1..];
    assert issued == front + [r] + back;
    forall j | 0 <= j < |issued| && issued[j] == r ensures i == j {
      TagsInRequests(polls, block, head, i, j);
    }
    assert r !in front && r !in back;
  }

  lemma {:induction false} IssuedApart(polls: seq<Poll>, block: nat, head: nat, r: Request, o: Request)
    requires DistinctPolls(polls) && r in Requests(polls, block, head) && o in Requests(polls, block, head)
    requires r.tag == o.tag
    ensures r == o
  {
    var issued := Requests(polls, block, head);
    var i :| 0 <= i < |issued| && issued[i] == r;
    var j :| 0 <= j < |issued| && issued[j] == o;
    TagsInRequests(polls, block, head, i, j);
  }

  lemma {:induction false} IssuedFrom(polls: seq<Poll>, block: nat, head: nat, r: Request, q: Poll)
    requires DistinctPolls(polls) && r in Requests(polls, block, head) && q in polls && r.tag == q.tag
    ensures FromCursor(r, q)
  {
    var o := Issued(polls, block, head, r);
    SameTag(polls, o, q);
  }

  lemma {:induction false} IssuedEach(polls: seq<Poll>, block: nat, head: nat)
    requires DistinctPolls(polls)
    ensures OneEach(multiset(Requests(polls, block, head)), polls)
  {
    var issued := Requests(polls, block, head);
    forall r | r in issued ensures multiset(issued)[r] == 1 {
      IssuedOnce(polls, block, head, r);
    }
    forall r, q | r in issued && q in polls && r.tag == q.tag ensures FromCursor(r, q) {
      IssuedFrom(polls, block, head, r, q);
    }
    forall r, o | r in issued && o in issued && r.tag == o.tag ensures r == o {
      IssuedApart(polls, block, head, r, o);
    }
  }

  lemma {:induction false} OnlyIssued(none: multiset<Request>, issued: multiset<Request>, polls: seq<Poll>)
    requires none == multiset{} && OneEach(issued, polls)
    ensures OneEach(none + issued, polls)
  {
    assert none + issued == issued;
  }

  lemma {:induction false} TickParts(cfg: Config, s: State, block: nat)
    requires Enabled(cfg, s, Tick(block))
    ensures Apply(cfg, s, Tick(block)).inflight
         == s.inflight + multiset(Requests(s.svc.poller.polls, block, |s.chain| - 1))
    ensures Apply(cfg, s, Tick(block)).svc.poller.polls == s.svc.poller.polls
  {}

  lemma {:induction false} TickEach(cfg: Config, s: State, block: nat, s': State)
    requires DistinctPolls(s.svc.poller.polls) && s.inflight == multiset{} && s.chain != []
    requires s'.inflight == s.inflight + multiset(Requests(s.svc.poller.polls, block, |s.chain| - 1))
    requires s'.svc.poller.polls == s.svc.poller.polls
    ensures OneRequestEach(s')
  {
    IssuedEach(s.svc.poller.polls, block, |s.chain| - 1);
    OnlyIssued(s.inflight, multiset(Requests(s.svc.poller.polls, block, |s.chain| - 1)), s.svc.poller.polls);
  }

  /** Settling the one request of a tag leaves none behind that could lag its new cursor. */
  lemma {:induction false} SettledEach(inflight: multiset<Request>, polls: seq<Poll>, r: Request, latest: Option<nat>)
    requires OneEach(inflight, polls) && r in inflight && forall q <- polls :: q.serial == r.serial ==> q.tag == r.tag
    ensures OneEach(inflight - multiset{r}, Settle(polls, r.serial, latest))
  {
    var settled, rest := Settle(polls, r.serial, latest), inflight - multiset{r};
    forall o, q' | o in rest && q' in settled && o.tag == q'.tag ensures FromCursor(o, q') {
      var i :| 0 <= i < |settled| && settled[i] == q';
      assert polls[i] in polls && o in inflight && o != r;
    }
  }

  lemma {:induction false} AnswerEach(cfg: Config, s: State, r: Request, hi: nat)
    requires CursorsLag(s) && OneRequestEach(s) && Enabled(cfg, s, Answer(r, hi))
    ensures OneRequestEach(AnswerStep(cfg, s, r, hi))
  {
    assert RequestLags(s.svc.poller, |s.chain|, r);
    SettledEach(s.inflight, s.svc.poller.polls, r, s.svc.poller.latestBlock);
    FewerEach(s, s.(inflight := s.inflight - multiset{r}));
  }

  lemma {:induction false} FewerEach(s: State, s': State)
    requires OneRequestEach(s) && s'.inflight <= s.inflight
    requires forall q <- s'.svc.poller.polls :: q in s.svc.poller.polls || q.lastPolled == None
    ensures OneRequestEach(s')
  {}

  lemma {:induction false} StepEach(cfg: Config, s: State, a: Action)
    requires Agrees(s.svc) && CursorsLag(s) && OneRequestEach(s) && Enabled(cfg, s, a)
    requires a.Tick? ==> s.inflight == multiset{}
    ensures OneRequestEach(Apply(cfg, s, a))
  {
    if a.Tick? {
      TickParts(cfg, s, a.block);
      TickEach(cfg, s, a.block, Apply(cfg, s, a));
    } else if a.Answer? {
      AnswerEach(cfg, s, a.poll, a.hi);
    } else {
      if a.Register? {
        RegisterPolls(cfg, s, a.request, a.id);
      } else if a.Unsub? {
        Shrinks(s, a.conn, a.subId);
      } else if a.Close? {
        Shrinks(s, a.conn, None);
      }
      FewerEach(s, Apply(cfg, s, a));
    }
  }

  /** Where that holds, "behind every window" is the plain condition: below the tag's `lastPolled`. */
  lemma {:induction false} BehindIsBelowCursor(s: State, q: Poll, b: nat)
    requires Agrees(s.svc) && OneRequestEach(s) && q in s.svc.poller.polls && q.lastPolled.Some?
    ensures Behind(s, q.tag, b) <==> b < q.lastPolled.value
  {
    forall p | p in s.svc.poller.polls && p.tag == q.tag ensures p == q {
      SameTag(s.svc.poller.polls, p, q);
    }
    forall r | r in s.inflight && r.tag == q.tag ensures r.from == q.lastPolled.value {
      assert FromCursor(r, q);
    }
  }

  ghost predicate BelowCursor(s: State, t: Tag, b: nat) {
    exists q <- s.svc.poller.polls :: q.tag == t && q.lastPolled.Some? && b < q.lastPolled.value
  }

  /** The eviction drops, of what was sent to a live subscription, only logs below its tag's `lastPolled`. */
  ghost predicate EvictsBelowCursorNow(s: State, a: Action) {
    a.Evict? ==> forall t, u, l ::
      SentLive(s, t, u, l) && (u.id, LogItem(l)) in a.entries ==> BelowCursor(s, t, l.block)
  }

  ghost predicate EvictsBelowCursor(cfg: Config, s: State, acts: seq<Action>)
    requires Legal(cfg, s, acts)
    decreases |acts|
  {
    acts != [] ==> EvictsBelowCursorNow(s, acts[0]) && EvictsBelowCursor(cfg, Apply(cfg, s, acts[0]), acts[1..])
  }

  lemma {:induction false} BelowCursorIsSafe(s: State, a: Action)
    requires Agrees(s.svc) && OneRequestEach(s) && EvictsBelowCursorNow(s, a)
    ensures SafeEvictionNow(s, a)
  {
    if a.Evict? {
      forall t, u, l | SentLive(s, t, u, l) && (u.id, LogItem(l)) in a.entries ensures Behind(s, t, l.block) {
        var q :| q in s.svc.poller.polls && q.tag == t && q.lastPolled.Some? && l.block < q.lastPolled.value;
        BehindIsBelowCursor(s, q, l.block);
      }
    }
  }

  /** Evicting only below `lastPolled` is safe in every run whose polls do not overlap ticks. */
  lemma {:induction false} BelowCursorEvictionsAreSafe(cfg: Config, s: State, acts: seq<Action>)
    requires Agrees(s.svc) && CursorsLag(s) && OneRequestEach(s) && Legal(cfg, s, acts)
    requires NonOverlapping(cfg, s, acts) && EvictsBelowCursor(cfg, s, acts)
    ensures SafeEvictions(cfg, s, acts)
    decreases |acts|
  {
    if acts != [] {
      BelowCursorIsSafe(s, acts[0]);
      StepAgrees(cfg, s, acts[0]);
      StepLag(cfg, s, acts[0]);
      StepEach(cfg, s, acts[0]);
      BelowCursorEvictionsAreSafe(cfg, Apply(cfg, s, acts[0]), acts[1..]);
    }
  }

  /** Exactly-once delivery under the two plain hypotheses: no overlap, and evictions below `lastPolled`. */
  lemma {:induction false} ExactlyOnceWithoutOverlap(cfg: Config, chain: seq<seq<Log>>, acts: seq<Action>, u: Subscriber, l: Log)
    requires WellFormed(chain) && Legal(cfg, Init(chain), acts)
    requires NonOverlapping(cfg, Init(chain), acts) && EvictsBelowCursor(cfg, Init(chain), acts)
    ensures var s := After(cfg, Init(chain), acts);
      multiset(s.svc.out.sent)[Send(u, LogItem(l))] == if Due(cfg, s, u, l) then 1 else 0
  {
    BelowCursorEvictionsAreSafe(cfg, Init(chain), acts);
    ExactlyOnceDelivery(cfg, chain, acts, u, l);
  }

  /** Nothing missed and nothing twice, under the same two hypotheses. */
  lemma {:induction false} NothingMissedWithoutOverlap(cfg: Config, chain: seq<seq<Log>>, acts: seq<Action>,
                                                       q: Poll, v: Subscriber, w1: Window, w2: Window, l: Log)
    requires WellFormed(chain) && Legal(cfg, Init(chain), acts)
    requires NonOverlapping(cfg, Init(chain), acts) && EvictsBelowCursor(cfg, Init(chain), acts)
    requires var s := After(cfg, Init(chain), acts);
      && q in s.svc.poller.polls && q.tag in s.svc.table && v in s.svc.table[q.tag]
      && w1 in s.windows && w2 in s.windows && v in w1.subs && v in w2.subs
      && w1.serial == w2.serial == q.serial
      && InChain(s.chain, l) && cfg.matches(q.tag, l)
    requires w1.lo <= l.block <= w2.hi
    ensures multiset(After(cfg, Init(chain), acts).svc.out.sent)[Send(v, LogItem(l))] == 1
  {
    BelowCursorEvictionsAreSafe(cfg, Init(chain), acts);
    NonOverlappingIsTimely(cfg, Init(chain), acts);
    NothingMissedNothingTwice(cfg, chain, acts, q, v, w1, w2, l);
  }
}
