/**
 The tables of the WebSocket subscription engine, as values.

 `Service` is what a `SubscriptionService` holds (tag -> subscribers, the dedup cache, what was
 sent) together with its `PollerService`. The functions say what each operation makes of those
 tables; the classes in SubscriptionService.dfy are proved against them, and Machine.dfy runs them.
 */
module Tables {
  import opened Prelude

  const NEW_HEADS := "newHeads"
  const LOGS := "logs"

  type ConnId = string
  type SubId = string

  /** Filter entries in the order `JSON.stringify` writes them; none means the tag has no filters. */
  type Filters = seq<(string, string)>

  /** The parsed form of a tag: the source's key is its JSON text. */
  datatype Tag = Tag(event: string, filters: Filters)

  datatype Log = Log(block: nat, index: nat, body: string)

  /** What a poll hands to its callback: a log, a block, or the `undefined` of an unsupported event. */
  datatype Item = LogItem(log: Log) | HeadItem(number: nat) | NoData

  datatype Subscriber = Subscriber(conn: ConnId, id: SubId)

  datatype Send = Send(to: Subscriber, item: Item)

  /** A poll object; `serial` is its identity, since a removed tag that is added again is a new object. */
  datatype Poll = Poll(serial: nat, tag: Tag, lastPolled: Option<nat>)

  datatype Poller = Poller(
    polls: seq<Poll>,
    nextSerial: nat,
    timer: bool,
    latestBlock: Option<nat>,
    activePolls: int,
    activeNewHeads: int)

  /** The dedup cache (keys are hashed as (subscription, data) pairs) and everything sent so far. */
  datatype Outbox = Outbox(cache: set<(SubId, Item)>, sent: seq<Send>)

  type Table = map<Tag, seq<Subscriber>>

  datatype Service = Service(table: Table, poller: Poller, out: Outbox)

  const EMPTY_POLLER := Poller([], 0, false, None, 0, 0)
  const EMPTY_SERVICE := Service(map[], EMPTY_POLLER, Outbox({}, []))

  // ---------- the poller ----------

  predicate HasPoll(polls: seq<Poll>, tag: Tag) {
    exists p <- polls :: p.tag == tag
  }

  predicate IsNewHeads(tag: Tag) {
    tag.event == NEW_HEADS
  }

  /** How many polls are for newHeads (`heads`) or for anything else (`!heads`). */
  function CountPolls(polls: seq<Poll>, heads: bool): nat {
    if polls == [] then 0
    else (if IsNewHeads(polls[0].tag) == heads then 1 else 0) + CountPolls(polls[1..], heads)
  }

  function AddPoll(p: Poller, tag: Tag): Poller {
    if HasPoll(p.polls, tag) then p.(timer := true)
    else p.(
      polls := p.polls + [Poll(p.nextSerial, tag, None)],
      nextSerial := p.nextSerial + 1,
      timer := true,
      activeNewHeads := p.activeNewHeads + (if IsNewHeads(tag) then 1 else 0),
      activePolls := p.activePolls + (if IsNewHeads(tag) then 0 else 1))
  }

  function Without(polls: seq<Poll>, dead: set<Tag>): seq<Poll> {
    if polls == [] then []
    else (if polls[0].tag in dead then [] else [polls[0]]) + Without(polls[1..], dead)
  }

  /** The poller after the polls of all `dead` tags were removed, in whatever order. */
  function RemovePolls(p: Poller, dead: set<Tag>): Poller {
    var rest := Without(p.polls, dead);
    p.(
      polls := rest,
      timer := p.timer && (dead == {} || rest != []),
      activeNewHeads := p.activeNewHeads - (CountPolls(p.polls, true) - CountPolls(rest, true)),
      activePolls := p.activePolls - (CountPolls(p.polls, false) - CountPolls(rest, false)))
  }

  /** One `getLogs` or `getBlockByNumber` in flight; `from` is the window's first block. */
  datatype Request = Request(serial: nat, tag: Tag, from: nat, head: nat)

  /** The first block a poll asks for: its cursor, or the block number this tick has read. */
  function From(p: Poll, latest: nat): nat {
    if p.lastPolled.Some? then p.lastPolled.value else latest
  }

  /** What a tick sends out: one request a poll, in list order. `head` is the chain's head then. */
  function Requests(polls: seq<Poll>, latest: nat, head: nat): seq<Request> {
    seq(|polls|, i requires 0 <= i < |polls| =>
      Request(polls[i].serial, polls[i].tag, From(polls[i], latest), head))
  }

  /** The completion of a poll writes the shared `latestBlock` into that poll object. */
  function Settle(polls: seq<Poll>, serial: nat, latest: Option<nat>): seq<Poll> {
    seq(|polls|, i requires 0 <= i < |polls| =>
      if polls[i].serial == serial then polls[i].(lastPolled := latest) else polls[i])
  }

  // ---------- the subscribers ----------

  predicate Matches(sub: Subscriber, conn: ConnId, subId: Option<SubId>) {
    // an empty id is falsy, so it means "all of this connection", like a missing one
    sub.conn == conn && (subId.None? || subId.value == "" || subId.value == sub.id)
  }

  function Keep(subs: seq<Subscriber>, conn: ConnId, subId: Option<SubId>): seq<Subscriber> {
    if subs == [] then []
    else (if Matches(subs[0], conn, subId) then [] else [subs[0]]) + Keep(subs[1..], conn, subId)
  }

  predicate SubscribedTo(table: Table, conn: ConnId, tag: Tag) {
    tag in table && exists s <- table[tag] :: s.conn == conn
  }

  /** `subscribe`: with `sameSub` a connection already on the tag keeps what it has. */
  function Subscribe(s: Service, sameSub: bool, sub: Subscriber, tag: Tag): Service {
    if sameSub && SubscribedTo(s.table, sub.conn, tag) then s
    else
      var subs := if tag in s.table then s.table[tag] else [];
      s.(table := s.table[tag := subs + [sub]], poller := AddPoll(s.poller, tag))
  }

  function Emptied(table: Table, conn: ConnId, subId: Option<SubId>): set<Tag> {
    set t | t in table && Keep(table[t], conn, subId) == []
  }

  function KeepAll(table: Table, conn: ConnId, subId: Option<SubId>): Table {
    map t | t in table && Keep(table[t], conn, subId) != [] :: Keep(table[t], conn, subId)
  }

  function Unsubscribe(s: Service, conn: ConnId, subId: Option<SubId>): Service {
    s.(table := KeepAll(s.table, conn, subId),
       poller := RemovePolls(s.poller, Emptied(s.table, conn, subId)))
  }

  /** How many entries of one tag `unsubscribe` would remove. */
  function MatchCount(subs: seq<Subscriber>, conn: ConnId, subId: Option<SubId>): nat {
    if subs == [] then 0
    else (if Matches(subs[0], conn, subId) then 1 else 0) + MatchCount(subs[1..], conn, subId)
  }

  /** How many entries of the whole table `unsubscribe` would remove. */
  ghost function TotalMatches(table: Table, conn: ConnId, subId: Option<SubId>): nat
    decreases |table|
  {
    if table == map[] then 0
    else
      var t :| t in table;
      assert |table - {t}| < |table| by { assert (table - {t}).Keys == table.Keys - {t}; }
      MatchCount(table[t], conn, subId) + TotalMatches(table - {t}, conn, subId)
  }

  /** The live subscriptions of a connection. */
  ghost function Live(table: Table, conn: ConnId): nat {
    TotalMatches(table, conn, None)
  }

  // ---------- notification ----------

  /** One item to one subscriber: sent unless the pair is still in the cache. */
  function NotifyOne(sub: Subscriber, item: Item, o: Outbox): Outbox {
    if (sub.id, item) in o.cache then o
    else Outbox(o.cache + {(sub.id, item)}, o.sent + [Send(sub, item)])
  }

  function Notify(subs: seq<Subscriber>, item: Item, o: Outbox): Outbox {
    if subs == [] then o else Notify(subs[1..], item, NotifyOne(subs[0], item, o))
  }

  /** All items of one poll result to all subscribers of the tag. */
  function Deliver(subs: seq<Subscriber>, items: seq<Item>, o: Outbox): Outbox {
    if items == [] then o else Deliver(subs, items[1..], Notify(subs, items[0], o))
  }

  function SubsOf(table: Table, tag: Tag): seq<Subscriber> {
    if tag in table then table[tag] else []
  }

  // ---------- facts about the functions ----------

  /** The total does not depend on the order the tags are visited in. */
  lemma {:induction false} TotalSplit(table: Table, conn: ConnId, subId: Option<SubId>, t: Tag)
    requires t in table
    ensures TotalMatches(table, conn, subId)
         == MatchCount(table[t], conn, subId) + TotalMatches(table - {t}, conn, subId)
    decreases |table|
  {
    var u :| u in table && TotalMatches(table, conn, subId)
      == MatchCount(table[u], conn, subId) + TotalMatches(table - {u}, conn, subId);
    if u != t {
      assert (table - {u}).Keys == table.Keys - {u};
      assert (table - {t}).Keys == table.Keys - {t};
      TotalSplit(table - {u}, conn, subId, t);
      TotalSplit(table - {t}, conn, subId, u);
      assert table - {u} - {t} == table - {t} - {u};
    }
  }

  lemma WithoutEmpty(polls: seq<Poll>)
    ensures Without(polls, {}) == polls
  {}

  lemma {:induction false} WithoutUnion(polls: seq<Poll>, a: set<Tag>, b: set<Tag>)
    ensures Without(Without(polls, a), b) == Without(polls, a + b)
  {
    if polls != [] {
      WithoutUnion(polls[1..], a, b);
      var tail := Without(polls[1..], a);
      assert [] + tail == tail;
      assert ([polls[0]] + tail)[1..] == tail;
    }
  }

  /** What stays is what was there, under tags that are not dead, in the same order. */
  lemma {:induction false} WithoutMembers(polls: seq<Poll>, dead: set<Tag>)
    ensures forall p :: p in Without(polls, dead) <==> p in polls && p.tag !in dead
    ensures |Without(polls, dead)| <= |polls|
  {
    if polls != [] {
      WithoutMembers(polls[1..], dead);
      assert polls == [polls[0]] + polls[1..];
    }
  }

  /** A removed tag's polls are all of the one kind its event says. */
  lemma {:induction false} WithoutCounts(polls: seq<Poll>, tag: Tag)
    ensures CountPolls(polls, IsNewHeads(tag)) - CountPolls(Without(polls, {tag}), IsNewHeads(tag))
         == |polls| - |Without(polls, {tag})|
    ensures CountPolls(polls, !IsNewHeads(tag)) == CountPolls(Without(polls, {tag}), !IsNewHeads(tag))
  {
    if polls != [] {
      WithoutCounts(polls[1..], tag);
      var tail := Without(polls[1..], {tag});
      assert [] + tail == tail;
      assert ([polls[0]] + tail)[1..] == tail;
    }
  }

  lemma {:induction false} CountAppend(polls: seq<Poll>, p: Poll, heads: bool)
    ensures CountPolls(polls + [p], heads)
         == CountPolls(polls, heads) + (if IsNewHeads(p.tag) == heads then 1 else 0)
  {
    if polls != [] {
      CountAppend(polls[1..], p, heads);
      assert (polls + [p])[1..] == polls[1..] + [p];
    }
  }

  lemma {:induction false} KeepMembers(subs: seq<Subscriber>, conn: ConnId, subId: Option<SubId>)
    ensures forall s :: s in Keep(subs, conn, subId) <==> s in subs && !Matches(s, conn, subId)
    ensures |Keep(subs, conn, subId)| + MatchCount(subs, conn, subId) == |subs|
  {
    if subs != [] {
      KeepMembers(subs[1..], conn, subId);
      assert subs == [subs[0]] + subs[1..];
    }
  }
}
