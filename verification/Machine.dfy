/**
 The WebSocket server as a state machine: connections open and close, subscribe requests pass the
 limit check, register and bump the counter in separate steps (the handlers await in between),
 the chain grows, ticks send polls out, answers come back or fail, and the dedup cache evicts.
 A run is any interleaving of these steps.
 */
module Machine {
  import opened Prelude
  import opened Tables

  /** `matches` is the mirror node's log filter; the rest is configuration. */
  datatype Config = Config(
    sameSub: bool,
    subLimit: nat,
    ipLimit: nat,
    newHeadsEnabled: bool,
    matches: (Tag, Log) -> bool)

  /**
   A connection. `counter` is `websocket.subscriptions`; `admitted` says that `applyLimits` did not
   tell it to close. `dedups` is history: the re-subscribes that were answered with an existing id.
   */
  datatype Conn = Conn(ip: string, counter: int, admitted: bool, open: bool, dedups: nat)

  /** A subscribe request is past the limit check, and then past `subscribe` but not yet counted. */
  datatype Stage = Checked | Registered

  datatype SubRequest = SubRequest(conn: ConnId, tag: Tag, stage: Stage)

  /** History: a successful logs poll of blocks lo..hi, and the subscribers its data was handed to. */
  datatype Window = Window(serial: nat, tag: Tag, lo: nat, hi: nat, subs: seq<Subscriber>)

  datatype State = State(
    svc: Service,
    chain: seq<seq<Log>>,
    inflight: multiset<Request>,
    windows: seq<Window>,
    used: set<SubId>,
    conns: map<ConnId, Conn>,
    clientIps: map<string, int>,
    pending: map<nat, SubRequest>)

  datatype Action =
    | NewBlock(logs: seq<Log>)
    | Open(conn: ConnId, ip: string, totalExceeded: bool)
    | Check(conn: ConnId, request: nat, tag: Tag)
    | Register(request: nat, id: SubId)
    | Count(request: nat)
    | Reject(request: nat)
    | Unsub(conn: ConnId, subId: Option<SubId>)
    | Close(conn: ConnId)
    | Tick(block: nat)
    | Answer(poll: Request, hi: nat)
    | Fail(poll: Request)
    | Evict(entries: set<(SubId, Item)>)

  /** Every log knows its block and its place in it, so distinct logs are distinct values. */
  predicate WellFormed(chain: seq<seq<Log>>) {
    && chain != []
    && forall b, i :: 0 <= b < |chain| && 0 <= i < |chain[b]| ==> chain[b][i].block == b && chain[b][i].index == i
  }

  function Init(chain: seq<seq<Log>>): State {
    State(EMPTY_SERVICE, chain, multiset{}, [], {}, map[], map[], map[])
  }

  // ---------- what the mirror node answers ----------

  function Matching(cfg: Config, tag: Tag, logs: seq<Log>): seq<Item> {
    if logs == [] then []
    else (if cfg.matches(tag, logs[0]) then [LogItem(logs[0])] else []) + Matching(cfg, tag, logs[1..])
  }

  /** `eth_getLogs`: all matching logs of the blocks lo..hi, oldest first. */
  function LogsIn(cfg: Config, chain: seq<seq<Log>>, tag: Tag, lo: nat, hi: nat): seq<Item>
    requires hi < |chain|
    decreases hi + 1 - lo
  {
    if lo > hi then [] else Matching(cfg, tag, chain[lo]) + LogsIn(cfg, chain, tag, lo + 1, hi)
  }

  /** Events `subscribe` accepts, and so the events whose polls are answered. */
  predicate Supported(cfg: Config, event: string) {
    event == LOGS || (event == NEW_HEADS && cfg.newHeadsEnabled)
  }

  function Data(cfg: Config, chain: seq<seq<Log>>, r: Request, hi: nat): seq<Item>
    requires hi < |chain|
  {
    if r.tag.event == LOGS then LogsIn(cfg, chain, r.tag, r.from, hi)
    else if Supported(cfg, r.tag.event) then [HeadItem(hi)]
    else [NoData]
  }

  // ---------- steps ----------

  /** A tick needs no running timer: its callback may still await the block number when the timer is stopped. */
  predicate Enabled(cfg: Config, s: State, a: Action) {
    match a
    case NewBlock(logs) => forall i :: 0 <= i < |logs| ==> logs[i].block == |s.chain| && logs[i].index == i
    case Open(c, _, _) => c !in s.conns
    case Check(c, request, _) => c in s.conns && request !in s.pending && s.conns[c].counter < cfg.subLimit
    case Register(request, id) =>
      && request in s.pending && s.pending[request].stage == Checked && s.pending[request].conn in s.conns
      && id !in s.used && Supported(cfg, s.pending[request].tag.event)
    case Count(request) =>
      request in s.pending && s.pending[request].stage == Registered && s.pending[request].conn in s.conns
    case Reject(request) => request in s.pending && s.pending[request].stage == Checked
    case Unsub(c, _) => c in s.conns
    case Close(c) => c in s.conns && s.conns[c].open
    case Tick(block) =>
      && block < |s.chain|
      && (s.svc.poller.latestBlock.Some? ==> s.svc.poller.latestBlock.value <= block)
    case Answer(r, hi) => r in s.inflight && r.head <= hi < |s.chain|
    case Fail(r) => r in s.inflight
    case Evict(_) => true
  }

  function OpenIp(ips: map<string, int>, ip: string): map<string, int> {
    ips[ip := if ip in ips && ips[ip] != 0 then ips[ip] + 1 else 1]
  }

  function CloseIp(ips: map<string, int>, ip: string): map<string, int> {
    if ip !in ips then ips else if ips[ip] - 1 == 0 then ips - {ip} else ips[ip := ips[ip] - 1]
  }

  function RegisterStep(cfg: Config, s: State, request: nat, id: SubId): State
    requires request in s.pending && s.pending[request].conn in s.conns
  {
    var r := s.pending[request];
    var dedup := cfg.sameSub && SubscribedTo(s.svc.table, r.conn, r.tag);
    s.(svc := Subscribe(s.svc, cfg.sameSub, Subscriber(r.conn, id), r.tag),
       used := s.used + {id},
       pending := s.pending[request := r.(stage := Registered)],
       conns := s.conns[r.conn := s.conns[r.conn].(
         dedups := s.conns[r.conn].dedups + (if dedup then 1 else 0))])
  }

  /** An answer moves the cursor and then calls back, in one uninterrupted stretch. */
  function AnswerStep(cfg: Config, s: State, r: Request, hi: nat): State
    requires hi < |s.chain|
  {
    var subs := SubsOf(s.svc.table, r.tag);
    var polls := if Supported(cfg, r.tag.event)
                 then Settle(s.svc.poller.polls, r.serial, s.svc.poller.latestBlock)
                 else s.svc.poller.polls;
    s.(svc := s.svc.(
         poller := s.svc.poller.(polls := polls),
         out := Deliver(subs, Data(cfg, s.chain, r, hi), s.svc.out)),
       inflight := s.inflight - multiset{r},
       windows := s.windows + (if r.tag.event == LOGS then [Window(r.serial, r.tag, r.from, hi, subs)] else []))
  }

  /** `handleEthUnsubscribe`: the counter goes down by what `unsubscribe` removed. */
  ghost function UnsubStep(s: State, c: ConnId, subId: Option<SubId>): State
    requires c in s.conns
  {
    var removed := TotalMatches(s.svc.table, c, subId);
    s.(svc := Unsubscribe(s.svc, c, subId),
       conns := s.conns[c := s.conns[c].(counter := s.conns[c].counter - removed)])
  }

  ghost function Apply(cfg: Config, s: State, a: Action): State
    requires Enabled(cfg, s, a)
  {
    match a
    case NewBlock(logs) => s.(chain := s.chain + [logs])
    case Open(c, ip, totalExceeded) =>
      var ips := OpenIp(s.clientIps, ip);
      s.(clientIps := ips,
         conns := s.conns[c := Conn(ip, 0, !totalExceeded && ips[ip] <= cfg.ipLimit, true, 0)])
    case Check(c, request, tag) => s.(pending := s.pending[request := SubRequest(c, tag, Checked)])
    case Register(request, id) => RegisterStep(cfg, s, request, id)
    case Count(request) =>
      var c := s.pending[request].conn;
      s.(pending := s.pending - {request}, conns := s.conns[c := s.conns[c].(counter := s.conns[c].counter + 1)])
    case Reject(request) => s.(pending := s.pending - {request})
    case Unsub(c, subId) => UnsubStep(s, c, subId)
    case Close(c) =>
      s.(svc := Unsubscribe(s.svc, c, None),
         clientIps := CloseIp(s.clientIps, s.conns[c].ip),
         conns := s.conns[c := s.conns[c].(open := false)])
    case Tick(block) =>
      s.(svc := s.svc.(poller := s.svc.poller.(latestBlock := Some(block))),
         inflight := s.inflight + multiset(Requests(s.svc.poller.polls, block, |s.chain| - 1)))
    case Answer(r, hi) => AnswerStep(cfg, s, r, hi)
    case Fail(r) => s.(inflight := s.inflight - multiset{r})
    case Evict(entries) => s.(svc := s.svc.(out := s.svc.out.(cache := s.svc.out.cache - entries)))
  }

  // ---------- runs ----------

  /** Every action of `acts` is enabled when its turn comes. */
  ghost predicate Legal(cfg: Config, s: State, acts: seq<Action>)
    decreases |acts|
  {
    acts == [] || (Enabled(cfg, s, acts[0]) && Legal(cfg, Apply(cfg, s, acts[0]), acts[1..]))
  }

  ghost function After(cfg: Config, s: State, acts: seq<Action>): State
    requires Legal(cfg, s, acts)
    decreases |acts|
  {
    if acts == [] then s else After(cfg, Apply(cfg, s, acts[0]), acts[1..])
  }

  /** A run can be extended at its end by any enabled action. */
  lemma {:induction false} Extend(cfg: Config, s: State, acts: seq<Action>, a: Action)
    requires Legal(cfg, s, acts) && Enabled(cfg, After(cfg, s, acts), a)
    ensures Legal(cfg, s, acts + [a])
    ensures After(cfg, s, acts + [a]) == Apply(cfg, After(cfg, s, acts), a)
    decreases |acts|
  {
    if acts == [] {
      assert [a][1..] == [];
      assert [] + [a] == [a];
    } else {
      Extend(cfg, Apply(cfg, s, acts[0]), acts[1..], a);
      assert (acts + [a])[1..] == acts[1..] + [a];
    }
  }
}
