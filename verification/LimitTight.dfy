/** The bound of `LimitUnderInterleaving` is the best one: every overshoot up to k - 1 really happens. */
module LimitTight {
  import opened Prelude
  import opened Tables
  import opened Machine
  import opened Counters

  const CONN := "c"
  const TAG := Tag(LOGS, [])

  function FreshId(n: nat): SubId {
    seq(n, _ => 'i')
  }

  /** The counter stands at `n`; requests lo..hi-1 of the connection have passed the limit check. */
  ghost predicate Shape(s: State, n: int, lo: nat, hi: nat) {
    && lo <= hi
    && CONN in s.conns && s.conns[CONN].counter == n
    && (forall r: nat :: r in s.pending <==> lo <= r < hi)
    && (forall r :: r in s.pending ==> s.pending[r] == SubRequest(CONN, TAG, Checked))
    && (forall id <- s.used :: |id| < lo)
  }

  /** A run from the start that keeps at most `k` requests pending and ends in such a state. */
  ghost predicate Reaches(cfg: Config, acts: seq<Action>, k: nat, n: int, lo: nat, hi: nat) {
    && Legal(cfg, Init([[]]), acts)
    && AtMostPending(cfg, Init([[]]), acts, CONN, k)
    && Shape(After(cfg, Init([[]]), acts), n, lo, hi)
  }

  lemma {:induction false} RangeSize(pending: map<nat, SubRequest>, lo: nat, hi: nat)
    requires lo <= hi && forall r :: r in Pending(pending, CONN) <==> lo <= r < hi
    ensures |Pending(pending, CONN)| == hi - lo
    decreases hi
  {
    if lo == hi {
      assert Pending(pending, CONN) == {};
    } else {
      var smaller := pending - {hi - 1};
      assert Pending(smaller, CONN) == Pending(pending, CONN) - {hi - 1};
      RangeSize(smaller, lo, hi - 1);
    }
  }

  lemma {:induction false} ExtendPending(cfg: Config, s: State, acts: seq<Action>, a: Action, k: nat)
    requires Legal(cfg, s, acts) && AtMostPending(cfg, s, acts, CONN, k)
    requires Enabled(cfg, After(cfg, s, acts), a)
    requires |Pending(Apply(cfg, After(cfg, s, acts), a).pending, CONN)| <= k
    ensures Legal(cfg, s, acts + [a]) && AtMostPending(cfg, s, acts + [a], CONN, k)
    ensures After(cfg, s, acts + [a]) == Apply(cfg, After(cfg, s, acts), a)
    decreases |acts|
  {
    Extend(cfg, s, acts, a);
    if acts != [] {
      ExtendPending(cfg, Apply(cfg, s, acts[0]), acts[1..], a, k);
      assert (acts + [a])[1..] == acts[1..] + [a];
    } else {
      assert [] + [a] == [a] && [a][1..] == [];
    }
  }

  lemma {:induction false} CheckOne(cfg: Config, acts: seq<Action>, k: nat, n: int, lo: nat, hi: nat) returns (acts': seq<Action>)
    requires Reaches(cfg, acts, k, n, lo, hi) && n < cfg.subLimit && hi - lo < k
    ensures Reaches(cfg, acts', k, n, lo, hi + 1)
  {
    var s := After(cfg, Init([[]]), acts);
    var a := Check(CONN, hi, TAG);
    RangeSize(Apply(cfg, s, a).pending, lo, hi + 1);
    ExtendPending(cfg, Init([[]]), acts, a, k);
    acts' := acts + [a];
  }

  /** The first of the checked requests goes through `subscribe`. */
  lemma {:induction false} RegisterOne(cfg: Config, s: State, n: int, lo: nat, hi: nat) returns (m: State)
    requires Shape(s, n, lo, hi) && lo < hi
    ensures Enabled(cfg, s, Register(lo, FreshId(lo))) && m == Apply(cfg, s, Register(lo, FreshId(lo)))
    ensures |Pending(m.pending, CONN)| == hi - lo && Enabled(cfg, m, Count(lo))
    ensures Shape(Apply(cfg, m, Count(lo)), n + 1, lo + 1, hi)
    ensures |Pending(Apply(cfg, m, Count(lo)).pending, CONN)| == hi - lo - 1
  {
    m := Apply(cfg, s, Register(lo, FreshId(lo)));
    RangeSize(m.pending, lo, hi);
    RangeSize(m.pending - {lo}, lo + 1, hi);
  }

  lemma {:induction false} FinishOne(cfg: Config, acts: seq<Action>, k: nat, n: int, lo: nat, hi: nat) returns (acts': seq<Action>)
    requires Reaches(cfg, acts, k, n, lo, hi) && lo < hi && hi - lo <= k
    ensures Reaches(cfg, acts', k, n + 1, lo + 1, hi)
  {
    var a := Register(lo, FreshId(lo));
    var m := RegisterOne(cfg, After(cfg, Init([[]]), acts), n, lo, hi);
    ExtendPending(cfg, Init([[]]), acts, a, k);
    ExtendPending(cfg, Init([[]]), acts + [a], Count(lo), k);
    acts' := acts + [a] + [Count(lo)];
  }

  /** One request after the other fills the counter up to `n`. */
  lemma {:induction false} FillOneByOne(cfg: Config, k: nat, n: nat) returns (acts: seq<Action>)
    requires k >= 1 && n <= cfg.subLimit
    ensures Reaches(cfg, acts, k, n, n, n)
  {
    if n == 0 {
      var a := Open(CONN, "ip", false);
      assert Pending(Init([[]]).pending, CONN) == {};
      assert Pending(Apply(cfg, Init([[]]), a).pending, CONN) == {};
      ExtendPending(cfg, Init([[]]), [], a, k);
      acts := [] + [a];
    } else {
      acts := FillOneByOne(cfg, k, n - 1);
      acts := CheckOne(cfg, acts, k, n - 1, n - 1, n - 1);
      acts := FinishOne(cfg, acts, k, n - 1, n - 1, n);
    }
  }

  lemma {:induction false} CheckMany(cfg: Config, acts: seq<Action>, k: nat, n: nat, j: nat) returns (acts': seq<Action>)
    requires Reaches(cfg, acts, k, n, n, n) && n < cfg.subLimit && j <= k
    ensures Reaches(cfg, acts', k, n, n, n + j)
  {
    if j == 0 {
      acts' := acts;
    } else {
      acts' := CheckMany(cfg, acts, k, n, j - 1);
      acts' := CheckOne(cfg, acts', k, n, n, n + j - 1);
    }
  }

  lemma {:induction false} FinishMany(cfg: Config, acts: seq<Action>, k: nat, n: nat, hi: nat) returns (acts': seq<Action>)
    requires n <= hi <= n + k && Reaches(cfg, acts, k, n, n, hi)
    ensures Reaches(cfg, acts', k, hi, hi, hi)
    decreases hi - n
  {
    if n == hi {
      acts' := acts;
    } else {
      acts' := FinishOne(cfg, acts, k, n, n, hi);
      acts' := FinishMany(cfg, acts', k, n + 1, hi);
    }
  }

  /** For every limit and every k there is a run with at most k pending whose counter hits the bound. */
  lemma {:induction false} LimitIsAttained(cfg: Config, k: nat) returns (acts: seq<Action>)
    requires cfg.subLimit >= 1 && k >= 1
    ensures Legal(cfg, Init([[]]), acts) && AtMostPending(cfg, Init([[]]), acts, CONN, k)
    ensures var s := After(cfg, Init([[]]), acts);
      CONN in s.conns && s.conns[CONN].counter == cfg.subLimit - 1 + k
  {
    acts := FillOneByOne(cfg, k, cfg.subLimit - 1);
    acts := CheckMany(cfg, acts, k, cfg.subLimit - 1, k);
    acts := FinishMany(cfg, acts, k, cfg.subLimit - 1, cfg.subLimit - 1 + k);
  }
}
