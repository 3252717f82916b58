/**
 Exactly-once delivery of logs. Consecutive windows overlap, so the same log is fetched again and
 again; the dedup cache has to absorb that although it evicts.
 */
module Delivery {
  import opened Prelude
  import opened Tables
  import opened Machine
  import opened Agreement
  import opened Cursor
  import opened Notification

  // ---------- what is known about subscription ids ----------

  ghost predicate Apart(a: seq<Subscriber>, b: seq<Subscriber>) {
    forall u <- a, v <- b :: u.id != v.id
  }

  /** Every live subscription has its own id. */
  ghost predicate UniqueIds(table: Table) {
    && (forall t :: t in table ==> DistinctIds(table[t]))
    && (forall t, t' :: t in table && t' in table && t != t' ==> Apart(table[t], table[t']))
  }

  ghost predicate TableIdsOk(s: State) {
    UniqueIds(s.svc.table) && forall t, u :: t in s.svc.table && u in s.svc.table[t] ==> u.id in s.used
  }

  /** History only knows ids that were given out, and knows whose they are while they are live. */
  ghost predicate HistoryIdsOk(s: State) {
    && (forall w, u :: w in s.windows && u in w.subs ==> u.id in s.used)
    && (forall e <- s.svc.out.sent :: e.to.id in s.used)
  }

  ghost predicate SentToOwners(s: State) {
    forall e, t, u :: e in s.svc.out.sent && t in s.svc.table && u in s.svc.table[t] && e.to.id == u.id ==> e.to == u
  }

  /** A window's data went to subscriptions of its own tag, for as long as they are live. */
  ghost predicate WindowsToOwners(s: State) {
    && (forall w <- s.windows :: w.tag.event == LOGS)
    && (forall w, t, u :: w in s.windows && u in w.subs && t in s.svc.table && u in s.svc.table[t] ==> w.tag == t)
  }

  ghost predicate CacheWasSent(o: Outbox) {
    forall k <- o.cache :: exists e <- o.sent :: e.to.id == k.0 && e.item == k.1
  }

  ghost predicate IdsOk(s: State) {
    TableIdsOk(s) && HistoryIdsOk(s) && SentToOwners(s) && WindowsToOwners(s) && CacheWasSent(s.svc.out)
  }

  // ---------- what the cache must not forget ----------

  /** The first block the next request of this poll can ask for, as far as is known now. */
  ghost function NextFrom(p: Poller, q: Poll): nat {
    if q.lastPolled.Some? then q.lastPolled.value
    else if p.latestBlock.Some? then p.latestBlock.value
    else 0
  }

  /** No window of this tag, in flight or to come, reaches back to block `b`. */
  ghost predicate Behind(s: State, tag: Tag, b: nat) {
    && (forall r <- s.inflight :: r.tag == tag ==> b < r.from)
    && (forall q <- s.svc.poller.polls :: q.tag == tag ==> b < NextFrom(s.svc.poller, q))
  }

  /** Whatever was sent to a live subscription and could be fetched again is still in the cache. */
  ghost predicate CacheHolds(s: State) {
    forall t, u, l :: t in s.svc.table && u in s.svc.table[t] && Send(u, LogItem(l)) in s.svc.out.sent ==>
      (u.id, LogItem(l)) in s.svc.out.cache || Behind(s, t, l.block)
  }

  /** The log was sent to `u`, which is still subscribed to `t`. */
  ghost predicate SentLive(s: State, t: Tag, u: Subscriber, l: Log) {
    t in s.svc.table && u in s.svc.table[t] && Send(u, LogItem(l)) in s.svc.out.sent
  }

  /** Eviction drops, of what was sent to a live subscription, only logs behind its tag's windows. */
  ghost predicate SafeEvictionNow(s: State, a: Action) {
    a.Evict? ==> forall t, u, l :: SentLive(s, t, u, l) && (u.id, LogItem(l)) in a.entries ==> Behind(s, t, l.block)
  }

  ghost predicate SafeEvictions(cfg: Config, s: State, acts: seq<Action>)
    requires Legal(cfg, s, acts)
    decreases |acts|
  {
    acts != [] ==> SafeEvictionNow(s, acts[0]) && SafeEvictions(cfg, Apply(cfg, s, acts[0]), acts[1..])
  }

  // ---------- what is due ----------

  ghost predicate DueIn(cfg: Config, chain: seq<seq<Log>>, w: Window, u: Subscriber, l: Log) {
    u in w.subs && Wanted(cfg, chain, w.tag, w.lo, w.hi, l)
  }

  /** Some successful window handed to `u` holds `l`. */
  ghost predicate Due(cfg: Config, s: State, u: Subscriber, l: Log) {
    exists w <- s.windows :: DueIn(cfg, s.chain, w, u, l)
  }

  /** Every log is sent once to whom it is due, and never to anyone else. */
  ghost predicate ExactlyOnce(cfg: Config, s: State) {
    forall u, l :: Times(s.svc.out, u, LogItem(l)) == if Due(cfg, s, u, l) then 1 else 0
  }

  ghost predicate DeliveryOk(cfg: Config, s: State) {
    && WellFormed(s.chain) && Agrees(s.svc) && CursorsLag(s)
    && (forall w <- s.windows :: w.hi < |s.chain|)
    && IdsOk(s) && CacheHolds(s) && ExactlyOnce(cfg, s)
  }

  // ---------- steps that send nothing ----------

  lemma {:induction false} KeptSubs(table: Table, c: ConnId, subId: Option<SubId>)
    ensures forall t, u :: t in KeepAll(table, c, subId) && u in KeepAll(table, c, subId)[t] ==> t in table && u in table[t]
    ensures UniqueIds(table) ==> UniqueIds(KeepAll(table, c, subId))
  {
    forall t | t in table ensures forall u <- Keep(table[t], c, subId) :: u in table[t] {
      KeepMembers(table[t], c, subId);
    }
    if UniqueIds(table) {
      forall t | t in table ensures DistinctIds(Keep(table[t], c, subId)) {
        KeepDistinct(table[t], c, subId);
      }
      forall t, t' | t in table && t' in table && t != t'
        ensures Apart(Keep(table[t], c, subId), Keep(table[t'], c, subId))
      {
        assert Apart(table[t], table[t']);
      }
    }
  }

  lemma {:induction false} KeepDistinct(subs: seq<Subscriber>, c: ConnId, subId: Option<SubId>)
    requires DistinctIds(subs)
    ensures DistinctIds(Keep(subs, c, subId))
  {
    if subs != [] {
      KeepDistinct(subs[1..], c, subId);
      KeepMembers(subs[1..], c, subId);
      var tail := Keep(subs[1..], c, subId);
      forall i | 0 <= i < |tail| ensures tail[i].id != subs[0].id {
        assert tail[i] in subs[1..];
      }
    }
  }

  ghost predicate SubTable(small: Table, big: Table) {
    forall t, u :: t in small && u in small[t] ==> t in big && u in big[t]
  }

  lemma {:induction false} BehindStays(s: State, s': State, t: Tag, b: nat)
    requires Behind(s, t, b) && s'.inflight <= s.inflight
    requires s'.svc.poller.latestBlock == s.svc.poller.latestBlock
    requires forall q <- s'.svc.poller.polls :: q.tag == t ==> q in s.svc.poller.polls
    ensures Behind(s', t, b)
  {}

  lemma {:induction false} ShrinkCache(s: State, s': State)
    requires CacheHolds(s) && SubTable(s'.svc.table, s.svc.table)
    requires s'.inflight <= s.inflight && s'.svc.out == s.svc.out
    requires s'.svc.poller.latestBlock == s.svc.poller.latestBlock
    requires forall q <- s'.svc.poller.polls :: q in s.svc.poller.polls
    ensures CacheHolds(s')
  {
    forall t, u, l | t in s'.svc.table && u in s'.svc.table[t] && Send(u, LogItem(l)) in s.svc.out.sent
      && (u.id, LogItem(l)) !in s.svc.out.cache
      ensures Behind(s', t, l.block)
    {
      assert t in s.svc.table && u in s.svc.table[t];
      BehindStays(s, s', t, l.block);
    }
  }

  /** Fewer subscribers and polls, the same requests and outbox: nothing that held can fail. */
  lemma {:induction false} UnsubscribeDelivery(s: State, c: ConnId, subId: Option<SubId>, s': State)
    requires IdsOk(s) && CacheHolds(s)
    requires s'.svc == Unsubscribe(s.svc, c, subId)
    requires s'.inflight == s.inflight && s'.windows == s.windows && s'.used == s.used
    ensures IdsOk(s') && CacheHolds(s')
  {
    KeptSubs(s.svc.table, c, subId);
    assert SubTable(s'.svc.table, s.svc.table);
    Shrinks(s, c, subId);
    ShrinkCache(s, s');
  }

  lemma {:induction false} RegisterTable(cfg: Config, s: State, request: nat, id: SubId)
    requires Enabled(cfg, s, Register(request, id))
    ensures var table := RegisterStep(cfg, s, request, id).svc.table;
      forall t, u :: t in table && u in table[t] ==>
        u == Subscriber(s.pending[request].conn, id) || (t in s.svc.table && u in s.svc.table[t])
  {}

  lemma {:induction false} PushUnique(table: Table, tag: Tag, sub: Subscriber)
    requires UniqueIds(table)
    requires forall t :: t in table ==> Apart(table[t], [sub])
    ensures UniqueIds(table[tag := SubsOf(table, tag) + [sub]])
  {
    var subs, table' := SubsOf(table, tag), table[tag := SubsOf(table, tag) + [sub]];
    assert Apart(subs, [sub]);
    assert sub in [sub];
    forall t | t in table && t != tag ensures Apart(table[t], subs + [sub]) && Apart(subs + [sub], table[t]) {
      assert Apart(table[t], [sub]);
      if tag in table {
        assert Apart(table[t], subs);
      }
    }
    forall t, t' | t in table' && t' in table' && t != t' ensures Apart(table'[t], table'[t']) {
      if t != tag && t' != tag {
        assert Apart(table[t], table[t']);
      }
    }
  }

  lemma {:induction false} RegisterTableIds(cfg: Config, s: State, request: nat, id: SubId)
    requires TableIdsOk(s) && Enabled(cfg, s, Register(request, id))
    ensures TableIdsOk(RegisterStep(cfg, s, request, id))
  {
    var sub := Subscriber(s.pending[request].conn, id);
    RegisterTable(cfg, s, request, id);
    forall t | t in s.svc.table ensures Apart(s.svc.table[t], [sub]) {}
    PushUnique(s.svc.table, s.pending[request].tag, sub);
  }

  lemma {:induction false} RegisterIds(cfg: Config, s: State, request: nat, id: SubId)
    requires IdsOk(s) && Enabled(cfg, s, Register(request, id))
    ensures IdsOk(RegisterStep(cfg, s, request, id))
  {
    var s' := RegisterStep(cfg, s, request, id);
    RegisterTable(cfg, s, request, id);
    RegisterTableIds(cfg, s, request, id);
    assert SentToOwners(s') by {
      assert forall e <- s.svc.out.sent :: e.to.id != id;
    }
    assert WindowsToOwners(s') by {
      assert forall w, u :: w in s.windows && u in w.subs ==> u.id != id;
    }
  }

  lemma {:induction false} RegisterCache(cfg: Config, s: State, request: nat, id: SubId)
    requires IdsOk(s) && CacheHolds(s) && Agrees(s.svc) && Enabled(cfg, s, Register(request, id))
    ensures CacheHolds(RegisterStep(cfg, s, request, id))
  {
    var s' := RegisterStep(cfg, s, request, id);
    RegisterTable(cfg, s, request, id);
    forall t, u, l | t in s'.svc.table && u in s'.svc.table[t] && Send(u, LogItem(l)) in s.svc.out.sent
      && (u.id, LogItem(l)) !in s.svc.out.cache
      ensures Behind(s', t, l.block)
    {
      assert Send(u, LogItem(l)).to.id in s.used;
      assert t in s.svc.table && u in s.svc.table[t];
      RegisterPollsOfTag(cfg, s, request, id, t);
      BehindStays(s, s', t, l.block);
    }
  }

  /** Registering leaves the polls of every tag that had one as they were. */
  lemma {:induction false} RegisterPollsOfTag(cfg: Config, s: State, request: nat, id: SubId, t: Tag)
    requires Agrees(s.svc) && Enabled(cfg, s, Register(request, id)) && t in s.svc.table
    ensures forall q <- RegisterStep(cfg, s, request, id).svc.poller.polls :: q.tag == t ==> q in s.svc.poller.polls
  {
    assert HasPoll(s.svc.poller.polls, t);
  }

  lemma {:induction false} TickBehind(cfg: Config, s: State, block: nat, t: Tag, b: nat)
    requires Behind(s, t, b) && Enabled(cfg, s, Tick(block))
    ensures Behind(Apply(cfg, s, Tick(block)), t, b)
  {
    var s' := Apply(cfg, s, Tick(block));
    forall r | r in s'.inflight && r.tag == t ensures b < r.from {
      if r !in s.inflight {
        var q := Issued(s.svc.poller.polls, block, |s.chain| - 1, r);
        assert b < NextFrom(s.svc.poller, q);
      }
    }
  }

  lemma {:induction false} TickCache(cfg: Config, s: State, block: nat)
    requires CacheHolds(s) && Enabled(cfg, s, Tick(block))
    ensures CacheHolds(Apply(cfg, s, Tick(block)))
  {
    forall t, b: nat | Behind(s, t, b) ensures Behind(Apply(cfg, s, Tick(block)), t, b) {
      TickBehind(cfg, s, block, t, b);
    }
  }

  // ---------- an answer ----------

  /** At most once: what is due already and fetched again is still in the cache, and conversely. */
  lemma {:induction false} CacheKnows(cfg: Config, s: State, r: Request, u: Subscriber, l: Log)
    requires DeliveryOk(cfg, s) && r in s.inflight && r.from <= l.block
    requires r.tag in s.svc.table && u in s.svc.table[r.tag]
    ensures (u.id, LogItem(l)) in s.svc.out.cache <==> Due(cfg, s, u, l)
  {
    if (u.id, LogItem(l)) in s.svc.out.cache {
      var e :| e in s.svc.out.sent && e.to.id == u.id && e.item == LogItem(l);
      assert e.to == u && e == Send(u, LogItem(l));
    }
    assert Times(s.svc.out, u, LogItem(l)) == if Due(cfg, s, u, l) then 1 else 0;
    assert Send(u, LogItem(l)) in s.svc.out.sent <==> Due(cfg, s, u, l);
  }

  lemma {:induction false} AnswerTimes(cfg: Config, s: State, r: Request, hi: nat, u: Subscriber, l: Log)
    requires DeliveryOk(cfg, s) && Enabled(cfg, s, Answer(r, hi))
    ensures var s' := AnswerStep(cfg, s, r, hi);
      Times(s'.svc.out, u, LogItem(l)) == if Due(cfg, s', u, l) then 1 else 0
  {
    var s' := AnswerStep(cfg, s, r, hi);
    var subs, data := SubsOf(s.svc.table, r.tag), Data(cfg, s.chain, r, hi);
    DataItems(cfg, s.chain, r, hi);
    DeliverTimes(subs, data, s.svc.out, u, LogItem(l));
    assert Times(s.svc.out, u, LogItem(l)) == if Due(cfg, s, u, l) then 1 else 0;
    DueAfterAnswer(cfg, s, r, hi, u, l);
    if u in subs && LogItem(l) in data {
      CacheKnows(cfg, s, r, u, l);
    }
  }

  lemma {:induction false} DueAfterAnswer(cfg: Config, s: State, r: Request, hi: nat, u: Subscriber, l: Log)
    requires hi < |s.chain|
    ensures Due(cfg, AnswerStep(cfg, s, r, hi), u, l) <==>
      Due(cfg, s, u, l)
      || (r.tag.event == LOGS && u in SubsOf(s.svc.table, r.tag) && Wanted(cfg, s.chain, r.tag, r.from, hi, l))
  {
    var s' := AnswerStep(cfg, s, r, hi);
    if r.tag.event == LOGS {
      var w := Window(r.serial, r.tag, r.from, hi, SubsOf(s.svc.table, r.tag));
      assert s'.windows == s.windows + [w];
      assert w in s'.windows;
      assert forall v <- s.windows :: v in s'.windows;
    } else {
      assert s'.windows == s.windows;
    }
  }

  lemma {:induction false} AnswerSends(cfg: Config, s: State, r: Request, hi: nat)
    requires IdsOk(s) && Enabled(cfg, s, Answer(r, hi))
    ensures IdsOk(AnswerStep(cfg, s, r, hi))
  {
    var s' := AnswerStep(cfg, s, r, hi);
    var subs := SubsOf(s.svc.table, r.tag);
    DeliverOnlyTo(subs, Data(cfg, s.chain, r, hi), s.svc.out);
    assert forall w <- s'.windows :: w in s.windows || w.subs == subs;
    assert SentToOwners(s') by {
      forall e, t, u | e in s'.svc.out.sent && t in s.svc.table && u in s.svc.table[t] && e.to.id == u.id
        ensures e.to == u
      {
        if e !in s.svc.out.sent {
          assert e.to in subs && t == r.tag;
          SameId(subs, e.to, u);
        }
      }
    }
    AnswerOwners(cfg, s, r, hi);
  }

  lemma {:induction false} AnswerOwners(cfg: Config, s: State, r: Request, hi: nat)
    requires IdsOk(s) && Enabled(cfg, s, Answer(r, hi))
    ensures WindowsToOwners(AnswerStep(cfg, s, r, hi))
  {
    var s' := AnswerStep(cfg, s, r, hi);
    forall w, t, u | w in s'.windows && u in w.subs && t in s.svc.table && u in s.svc.table[t] ensures w.tag == t {
      if w !in s.windows && t != r.tag {
        assert Apart(s.svc.table[t], s.svc.table[r.tag]);
      }
    }
  }

  lemma {:induction false} SameId(subs: seq<Subscriber>, u: Subscriber, v: Subscriber)
    requires DistinctIds(subs) && u in subs && v in subs && u.id == v.id
    ensures u == v
  {
    var i :| 0 <= i < |subs| && subs[i] == u;
    var j :| 0 <= j < |subs| && subs[j] == v;
  }

  /** New sends go to the subscribers handed in, and the cache records only what was sent. */
  lemma {:induction false} NotifyOnlyTo(subs: seq<Subscriber>, item: Item, o: Outbox)
    requires CacheWasSent(o)
    ensures forall e <- Notify(subs, item, o).sent :: e in o.sent || e.to in subs
    ensures CacheWasSent(Notify(subs, item, o))
  {
    if subs != [] {
      var o' := NotifyOne(subs[0], item, o);
      assert CacheWasSent(o') by {
        assert forall e <- o.sent :: e in o'.sent;
        if o' != o {
          assert Send(subs[0], item) in o'.sent;
        }
      }
      NotifyOnlyTo(subs[1..], item, o');
    }
  }

  lemma {:induction false} DeliverOnlyTo(subs: seq<Subscriber>, items: seq<Item>, o: Outbox)
    requires CacheWasSent(o)
    ensures forall e <- Deliver(subs, items, o).sent :: e in o.sent || e.to in subs
    ensures CacheWasSent(Deliver(subs, items, o))
  {
    if items != [] {
      NotifyOnlyTo(subs, items[0], o);
      DeliverOnlyTo(subs, items[1..], Notify(subs, items[0], o));
    }
  }

  lemma {:induction false} AnswerBehind(cfg: Config, s: State, r: Request, hi: nat, t: Tag, b: nat)
    requires CursorsLag(s) && Enabled(cfg, s, Answer(r, hi)) && Behind(s, t, b)
    ensures Behind(AnswerStep(cfg, s, r, hi), t, b)
  {
    var s' := AnswerStep(cfg, s, r, hi);
    forall q' | q' in s'.svc.poller.polls && q'.tag == t ensures b < NextFrom(s'.svc.poller, q') {
      var q := AnswerPolls(cfg, s, r, hi, q');
      assert b < NextFrom(s.svc.poller, q);
    }
  }

  lemma {:induction false} AnswerCache(cfg: Config, s: State, r: Request, hi: nat)
    requires DeliveryOk(cfg, s) && Enabled(cfg, s, Answer(r, hi))
    ensures CacheHolds(AnswerStep(cfg, s, r, hi))
  {
    var s' := AnswerStep(cfg, s, r, hi);
    var subs, data := SubsOf(s.svc.table, r.tag), Data(cfg, s.chain, r, hi);
    DataItems(cfg, s.chain, r, hi);
    forall t, u, l | t in s.svc.table && u in s.svc.table[t] && Send(u, LogItem(l)) in s'.svc.out.sent
      && (u.id, LogItem(l)) !in s'.svc.out.cache
      ensures Behind(s', t, l.block)
    {
      DeliverTimes(subs, data, s.svc.out, u, LogItem(l));
      DeliverCache(subs, data, s.svc.out, u.id, LogItem(l));
      assert Times(s'.svc.out, u, LogItem(l)) > 0;
      assert Times(s.svc.out, u, LogItem(l)) > 0;
      AnswerBehind(cfg, s, r, hi, t, l.block);
    }
  }

  /** What an answer keeps of the chain, the tables and the cursors. */
  lemma {:induction false} AnswerFrame(cfg: Config, s: State, r: Request, hi: nat)
    requires Agrees(s.svc) && CursorsLag(s) && Enabled(cfg, s, Answer(r, hi))
    requires forall w <- s.windows :: w.hi < |s.chain|
    ensures var s' := AnswerStep(cfg, s, r, hi);
      && s'.chain == s.chain && Agrees(s'.svc) && CursorsLag(s')
      && (forall w <- s'.windows :: w.hi < |s'.chain|)
  {
    StepAgrees(cfg, s, Answer(r, hi));
    AnswerLag(cfg, s, r, hi);
  }

  lemma {:induction false} AnswerDelivery(cfg: Config, s: State, r: Request, hi: nat)
    requires DeliveryOk(cfg, s) && Enabled(cfg, s, Answer(r, hi))
    ensures DeliveryOk(cfg, AnswerStep(cfg, s, r, hi))
  {
    AnswerFrame(cfg, s, r, hi);
    AnswerSends(cfg, s, r, hi);
    AnswerCache(cfg, s, r, hi);
    AnswerOnce(cfg, s, r, hi);
  }

  lemma {:induction false} AnswerOnce(cfg: Config, s: State, r: Request, hi: nat)
    requires DeliveryOk(cfg, s) && Enabled(cfg, s, Answer(r, hi))
    ensures ExactlyOnce(cfg, AnswerStep(cfg, s, r, hi))
  {
    var s' := AnswerStep(cfg, s, r, hi);
    forall u, l ensures Times(s'.svc.out, u, LogItem(l)) == if Due(cfg, s', u, l) then 1 else 0 {
      AnswerTimes(cfg, s, r, hi, u, l);
    }
  }

  // ---------- every run ----------

  /** A new block is beyond every window, so it makes nothing due. */
  lemma {:induction false} BlockDue(cfg: Config, s: State, logs: seq<Log>, u: Subscriber, l: Log)
    requires (forall w <- s.windows :: w.hi < |s.chain|) && WellFormed(s.chain) && Enabled(cfg, s, NewBlock(logs))
    ensures Due(cfg, s.(chain := s.chain + [logs]), u, l) <==> Due(cfg, s, u, l)
  {
    var chain' := s.chain + [logs];
    forall w | w in s.windows ensures DueIn(cfg, chain', w, u, l) <==> DueIn(cfg, s.chain, w, u, l) {
      BlockWanted(cfg, s.chain, logs, w, l);
    }
  }

  lemma {:induction false} BlockWanted(cfg: Config, chain: seq<seq<Log>>, logs: seq<Log>, w: Window, l: Log)
    requires w.hi < |chain|
    ensures Wanted(cfg, chain + [logs], w.tag, w.lo, w.hi, l) <==> Wanted(cfg, chain, w.tag, w.lo, w.hi, l)
  {}

  lemma {:induction false} BlockOnce(cfg: Config, s: State, logs: seq<Log>)
    requires DeliveryOk(cfg, s) && Enabled(cfg, s, NewBlock(logs))
    ensures ExactlyOnce(cfg, s.(chain := s.chain + [logs]))
  {
    var s' := s.(chain := s.chain + [logs]);
    forall u, l ensures Times(s'.svc.out, u, LogItem(l)) == if Due(cfg, s', u, l) then 1 else 0 {
      BlockDue(cfg, s, logs, u, l);
      assert Times(s.svc.out, u, LogItem(l)) == if Due(cfg, s, u, l) then 1 else 0;
    }
  }

  lemma {:induction false} BlockDelivery(cfg: Config, s: State, logs: seq<Log>)
    requires DeliveryOk(cfg, s) && Enabled(cfg, s, NewBlock(logs))
    ensures DeliveryOk(cfg, Apply(cfg, s, NewBlock(logs)))
  {
    var s' := Apply(cfg, s, NewBlock(logs));
    StepLag(cfg, s, NewBlock(logs));
    BlockOnce(cfg, s, logs);
    assert forall t, b: nat :: Behind(s, t, b) ==> Behind(s', t, b);
  }

  lemma {:induction false} SameHistory(cfg: Config, s: State, s': State)
    requires ExactlyOnce(cfg, s) && s'.chain == s.chain && s'.windows == s.windows
    requires s'.svc.out.sent == s.svc.out.sent
    ensures ExactlyOnce(cfg, s')
  {
    forall u, l ensures Times(s'.svc.out, u, LogItem(l)) == if Due(cfg, s', u, l) then 1 else 0 {
      assert Times(s.svc.out, u, LogItem(l)) == if Due(cfg, s, u, l) then 1 else 0;
      assert Due(cfg, s, u, l) <==> Due(cfg, s', u, l);
    }
  }

  lemma {:induction false} EvictCache(cfg: Config, s: State, entries: set<(SubId, Item)>)
    requires CacheHolds(s) && SafeEvictionNow(s, Evict(entries))
    ensures CacheHolds(Apply(cfg, s, Evict(entries)))
  {
    var s' := Apply(cfg, s, Evict(entries));
    forall t, u, l | t in s.svc.table && u in s.svc.table[t] && Send(u, LogItem(l)) in s.svc.out.sent
      && (u.id, LogItem(l)) !in s'.svc.out.cache
      ensures Behind(s', t, l.block)
    {
      assert SentLive(s, t, u, l);
      assert Behind(s, t, l.block);
    }
  }

  lemma {:induction false} StepIdsAndCache(cfg: Config, s: State, a: Action)
    requires DeliveryOk(cfg, s) && Enabled(cfg, s, a) && SafeEvictionNow(s, a) && !a.Answer? && !a.NewBlock?
    ensures IdsOk(Apply(cfg, s, a)) && CacheHolds(Apply(cfg, s, a))
  {
    if a.Register? {
      RegisterIds(cfg, s, a.request, a.id);
      RegisterCache(cfg, s, a.request, a.id);
    } else if a.Unsub? {
      UnsubscribeDelivery(s, a.conn, a.subId, Apply(cfg, s, a));
    } else if a.Close? {
      UnsubscribeDelivery(s, a.conn, None, Apply(cfg, s, a));
    } else if a.Tick? {
      TickCache(cfg, s, a.block);
    } else if a.Evict? {
      EvictCache(cfg, s, a.entries);
    } else {
      ShrinkCache(s, Apply(cfg, s, a));
    }
  }

  lemma {:induction false} StepDelivery(cfg: Config, s: State, a: Action)
    requires DeliveryOk(cfg, s) && Enabled(cfg, s, a) && SafeEvictionNow(s, a)
    ensures DeliveryOk(cfg, Apply(cfg, s, a))
  {
    if a.Answer? {
      AnswerDelivery(cfg, s, a.poll, a.hi);
    } else if a.NewBlock? {
      BlockDelivery(cfg, s, a.logs);
    } else {
      StepAgrees(cfg, s, a);
      StepLag(cfg, s, a);
      StepIdsAndCache(cfg, s, a);
      SameHistory(cfg, s, Apply(cfg, s, a));
    }
  }

  lemma {:induction false} RunDelivery(cfg: Config, s: State, acts: seq<Action>)
    requires DeliveryOk(cfg, s) && Legal(cfg, s, acts) && SafeEvictions(cfg, s, acts)
    ensures DeliveryOk(cfg, After(cfg, s, acts))
    decreases |acts|
  {
    if acts != [] {
      StepDelivery(cfg, s, acts[0]);
      RunDelivery(cfg, Apply(cfg, s, acts[0]), acts[1..]);
    }
  }

  /**
   Exactly-once delivery: in every run whose evictions are safe, overlapping polls or not, a log has
   been sent to a subscription once if some successful window handed to it holds the log, and never
   otherwise.
   */
  lemma {:induction false} ExactlyOnceDelivery(cfg: Config, chain: seq<seq<Log>>, acts: seq<Action>, u: Subscriber, l: Log)
    requires WellFormed(chain) && Legal(cfg, Init(chain), acts) && SafeEvictions(cfg, Init(chain), acts)
    ensures var s := After(cfg, Init(chain), acts);
      multiset(s.svc.out.sent)[Send(u, LogItem(l))] == if Due(cfg, s, u, l) then 1 else 0
  {
    RunDelivery(cfg, Init(chain), acts);
    var s := After(cfg, Init(chain), acts);
    assert Times(s.svc.out, u, LogItem(l)) == if Due(cfg, s, u, l) then 1 else 0;
  }
}
