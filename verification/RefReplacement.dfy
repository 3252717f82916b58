/** `processRefFields`: every `$ref` position of the original method is copied over the modified one. */
module RefReplacement {
  import opened Prelude
  import opened JsonText
  import opened RefTrees
  import GroupPaths

  // ---------- putting a subtree at a position ----------

  function PutMember(ms: seq<Member>, key: string, x: Json): seq<Member> {
    if ms == [] then [Member(key, x)]
    else if ms[0].key == key then [Member(key, x)] + ms[1..]
    else [ms[0]] + PutMember(ms[1..], key, x)
  }

  function PutItem(items: seq<Json>, key: string, x: Json): seq<Json> {
    seq(|items|, i requires 0 <= i < |items| => if Dec(i) == key then x else items[i])
  }

  /** `value[key] = x`; an array gets it only at an index it has. */
  function PutChild(v: Json, key: string, x: Json): Json {
    match v
    case JArr(items) => JArr(PutItem(items, key, x))
    case JObj(members) => JObj(PutMember(members, key, x))
    case _ => v
  }

  /** `setObjectByPath` where something stands at the position already. */
  function Put(v: Json, p: seq<string>, x: Json): Json
    decreases |p|
  {
    if p == [] then x else PutChild(v, p[0], Put(Child(v, p[0]), p[1..], x))
  }

  /** `replaceObjectAtPath`: nothing happens unless both trees have an object or array there. */
  function ReplaceAt(orig: Json, mod: Json, p: seq<string>): Json {
    if IsObject(Descend(mod, p)) && IsObject(Descend(orig, p)) then Put(mod, p, Descend(orig, p)) else mod
  }

  function ReplaceAll(orig: Json, mod: Json, positions: seq<seq<string>>): Json {
    if positions == [] then mod
    else ReplaceAt(orig, ReplaceAll(orig, mod, positions[..|positions| - 1]), positions[|positions| - 1])
  }

  /** The position a dotted path is split into; the empty path is the root. */
  function PositionOf(path: string): seq<string> {
    if path == "" then [] else GroupPaths.Split(path)
  }

  function PositionsOf(found: seq<RefPath>): seq<seq<string>> {
    seq(|found|, i requires 0 <= i < |found| => PositionOf(found[i].path))
  }

  /** Only a target and an original that are both objects or arrays are replaced. */
  method ReplaceObjectAtPath(orig: Json, mod: Json, path: string) returns (result: Json)
    ensures result == ReplaceAt(orig, mod, PositionOf(path))
  {
    var target, source := GetObjectAtPath(mod, path), GetObjectAtPath(orig, path);
    if !(IsObject(target) && IsObject(source)) {
      return mod;
    }
    result := Put(mod, PositionOf(path), source);
  }

  lemma {:induction false} ReplaceNext(orig: Json, mod: Json, positions: seq<seq<string>>, i: nat)
    requires i < |positions|
    ensures ReplaceAll(orig, mod, positions[..i + 1]) == ReplaceAt(orig, ReplaceAll(orig, mod, positions[..i]), positions[i])
  {
    assert positions[..i + 1][..i] == positions[..i];
  }

  /** The loop over the reported paths. */
  method ProcessRefFields(orig: Json, mod: Json) returns (result: Json)
    ensures result == ReplaceAll(orig, mod, PositionsOf(Reported("", RefsIn(orig))))
  {
    var refPaths := Find(orig, "", []);
    assert refPaths == Reported("", RefsIn(orig));
    ghost var positions := PositionsOf(refPaths);
    result := mod;
    assert positions[..0] == [];
    for i := 0 to |refPaths|
      invariant result == ReplaceAll(orig, mod, positions[..i])
    {
      ReplaceNext(orig, mod, positions, i);
      result := ReplaceObjectAtPath(orig, result, refPaths[i].path);
    }
    assert positions[..|refPaths|] == positions;
  }

  // ---------- one level ----------

  lemma {:induction false} GetPut(ms: seq<Member>, key: string, x: Json, k: string)
    ensures Get(PutMember(ms, key, x), k) == if k == key then x else Get(ms, k)
  {
    if ms == [] {
      assert PutMember(ms, key, x)[1..] == [];
    } else if ms[0].key != key {
      GetPut(ms[1..], key, x, k);
      assert PutMember(ms, key, x)[1..] == PutMember(ms[1..], key, x);
    } else {
      assert PutMember(ms, key, x)[1..] == ms[1..];
    }
  }

  lemma {:induction false} ItemPut(items: seq<Json>, key: string, x: Json, k: string, i: nat)
    requires i <= |items| && (k == key ==> ItemAt(items, k, i) != Undefined)
    ensures ItemAt(PutItem(items, key, x), k, i) == if k == key then x else ItemAt(items, k, i)
    decreases |items| - i
  {
    if i < |items| && Dec(i) != k {
      ItemPut(items, key, x, k, i + 1);
    }
  }

  lemma {:induction false} ChildPut(v: Json, key: string, x: Json, k: string)
    requires Child(v, key) != Undefined
    ensures Child(PutChild(v, key, x), k) == if k == key then x else Child(v, k)
  {
    if v.JObj? {
      GetPut(v.members, key, x, k);
    } else if v.JArr? {
      ItemPut(v.items, key, x, k, 0);
    }
  }

  lemma {:induction false} PutOwnMember(ms: seq<Member>, key: string)
    requires Get(ms, key) != Undefined
    ensures PutMember(ms, key, Get(ms, key)) == ms
  {
    if ms[0].key != key {
      PutOwnMember(ms[1..], key);
    }
  }

  lemma {:induction false} PutOwnItem(items: seq<Json>, key: string)
    requires ItemAt(items, key, 0) != Undefined
    ensures PutItem(items, key, ItemAt(items, key, 0)) == items
  {
    forall i | 0 <= i < |items| && Dec(i) == key ensures items[i] == ItemAt(items, key, 0) {
      ItemFound(items, i, 0);
    }
  }

  lemma {:induction false} PutOwnChild(v: Json, key: string)
    requires Child(v, key) != Undefined
    ensures PutChild(v, key, Child(v, key)) == v
  {
    if v.JObj? {
      PutOwnMember(v.members, key);
    } else if v.JArr? {
      PutOwnItem(v.items, key);
    }
  }

  // ---------- positions ----------

  /** Neither position is above the other. */
  ghost predicate Apart(p: seq<string>, q: seq<string>)
    decreases |p|
  {
    p != [] && q != [] && (p[0] != q[0] || Apart(p[1..], q[1..]))
  }

  lemma {:induction false} ApartOrAbove(p: seq<string>, q: seq<string>)
    ensures Apart(p, q) || p <= q || q <= p
    decreases |p|
  {
    if p != [] && q != [] && p[0] == q[0] {
      ApartOrAbove(p[1..], q[1..]);
      assert p == [p[0]] + p[1..] && q == [q[0]] + q[1..];
    }
  }

  lemma {:induction false} DescendOn(v: Json, p: seq<string>, q: seq<string>)
    requires p <= q
    ensures Descend(v, q) == Descend(Descend(v, p), q[|p|..])
    decreases |p|
  {
    if p == [] {
      assert q[0..] == q;
    } else {
      DescendOn(Child(v, p[0]), p[1..], q[1..]);
      assert q[1..][|p| - 1..] == q[|p|..];
    }
  }

  /** Something can only stand below something. */
  lemma {:induction false} FirstStep(v: Json, p: seq<string>)
    requires p != [] && IsObject(Descend(v, p))
    ensures Child(v, p[0]) != Undefined && IsObject(v) && IsObject(Descend(Child(v, p[0]), p[1..]))
  {
    NothingBelowUndefined(p[1..]);
  }

  lemma {:induction false} PutApart(v: Json, p: seq<string>, x: Json, q: seq<string>)
    requires IsObject(Descend(v, p)) && Apart(p, q)
    ensures Descend(Put(v, p, x), q) == Descend(v, q)
    decreases |p|
  {
    FirstStep(v, p);
    ChildPut(v, p[0], Put(Child(v, p[0]), p[1..], x), q[0]);
    if p[0] == q[0] {
      PutApart(Child(v, p[0]), p[1..], x, q[1..]);
    }
  }

  lemma {:induction false} PutChildAt(v: Json, p: seq<string>, x: Json)
    requires p != [] && IsObject(Descend(v, p))
    ensures Child(Put(v, p, x), p[0]) == Put(Child(v, p[0]), p[1..], x)
  {
    FirstStep(v, p);
    ChildPut(v, p[0], Put(Child(v, p[0]), p[1..], x), p[0]);
  }

  /** Seen from above, the subtree there has had the deeper position replaced. */
  lemma {:induction false} PutAbove(v: Json, p: seq<string>, x: Json, q: seq<string>)
    requires IsObject(Descend(v, p)) && q <= p
    ensures Descend(Put(v, p, x), q) == Put(Descend(v, q), p[|q|..], x)
    decreases |p|
  {
    if q == [] {
      assert p[0..] == p;
    } else {
      FirstStep(v, p);
      PutChildAt(v, p, x);
      PutAbove(Child(v, p[0]), p[1..], x, q[1..]);
      assert p[1..][|q| - 1..] == p[|q|..];
      assert Descend(Put(v, p, x), q) == Descend(Put(Child(v, p[0]), p[1..], x), q[1..]);
    }
  }

  lemma {:induction false} PutBelow(v: Json, p: seq<string>, x: Json, q: seq<string>)
    requires IsObject(Descend(v, p)) && p <= q
    ensures Descend(Put(v, p, x), q) == Descend(x, q[|p|..])
  {
    DescendOn(Put(v, p, x), p, q);
    PutAbove(v, p, x, p);
    assert p[|p|..] == [];
  }

  /** Putting what is there already changes nothing. */
  lemma {:induction false} PutOwn(v: Json, p: seq<string>)
    requires IsObject(Descend(v, p))
    ensures Put(v, p, Descend(v, p)) == v
    decreases |p|
  {
    if p != [] {
      FirstStep(v, p);
      PutOwn(Child(v, p[0]), p[1..]);
      PutOwnChild(v, p[0]);
    }
  }

  lemma {:induction false} PutStaysObject(v: Json, p: seq<string>, x: Json)
    requires IsObject(v) && IsObject(x)
    ensures IsObject(Put(v, p, x))
  {}

  // ---------- one replacement ----------

  /** A position that holds the original's subtree keeps it through any other replacement. */
  lemma {:induction false} ReplacementKeeps(orig: Json, mod: Json, p: seq<string>, q: seq<string>)
    requires IsObject(Descend(orig, q)) && Descend(mod, q) == Descend(orig, q)
    ensures Descend(ReplaceAt(orig, mod, p), q) == Descend(orig, q)
  {
    if IsObject(Descend(mod, p)) && IsObject(Descend(orig, p)) {
      ApartOrAbove(p, q);
      if Apart(p, q) {
        PutApart(mod, p, Descend(orig, p), q);
      } else if p <= q {
        PutBelow(mod, p, Descend(orig, p), q);
        DescendOn(orig, p, q);
      } else {
        PutAbove(mod, p, Descend(orig, p), q);
        DescendOn(orig, q, p);
        PutOwn(Descend(orig, q), p[|q|..]);
      }
    }
  }

  /** A position where both trees have an object goes on to have one. */
  lemma {:induction false} ReplacementKeepsObject(orig: Json, mod: Json, p: seq<string>, q: seq<string>)
    requires IsObject(Descend(orig, q)) && IsObject(Descend(mod, q))
    ensures IsObject(Descend(ReplaceAt(orig, mod, p), q))
  {
    if IsObject(Descend(mod, p)) && IsObject(Descend(orig, p)) {
      ApartOrAbove(p, q);
      if Apart(p, q) {
        PutApart(mod, p, Descend(orig, p), q);
      } else if p <= q {
        PutBelow(mod, p, Descend(orig, p), q);
        DescendOn(orig, p, q);
      } else {
        PutAbove(mod, p, Descend(orig, p), q);
        PutStaysObject(Descend(mod, q), p[|q|..], Descend(orig, p));
      }
    }
  }

  lemma {:induction false} ReplacementAt(orig: Json, mod: Json, p: seq<string>)
    requires IsObject(Descend(orig, p)) && IsObject(Descend(mod, p))
    ensures Descend(ReplaceAt(orig, mod, p), p) == Descend(orig, p)
  {
    PutBelow(mod, p, Descend(orig, p), p);
    assert p[|p|..] == [];
  }

  // ---------- all of them ----------

  lemma {:induction false} AllKeepObject(orig: Json, mod: Json, positions: seq<seq<string>>, q: seq<string>)
    requires IsObject(Descend(orig, q)) && IsObject(Descend(mod, q))
    ensures IsObject(Descend(ReplaceAll(orig, mod, positions), q))
  {
    if positions != [] {
      var init := positions[..|positions| - 1];
      AllKeepObject(orig, mod, init, q);
      ReplacementKeepsObject(orig, ReplaceAll(orig, mod, init), positions[|positions| - 1], q);
    }
  }

  /** In whatever order positions come and however they nest, each ends up with the original's subtree. */
  lemma {:induction false} AllReplaced(orig: Json, mod: Json, positions: seq<seq<string>>, i: nat)
    requires i < |positions| && IsObject(Descend(orig, positions[i])) && IsObject(Descend(mod, positions[i]))
    ensures Descend(ReplaceAll(orig, mod, positions), positions[i]) == Descend(orig, positions[i])
  {
    var init, last := positions[..|positions| - 1], positions[|positions| - 1];
    if i == |positions| - 1 {
      AllKeepObject(orig, mod, init, last);
      ReplacementAt(orig, ReplaceAll(orig, mod, init), last);
    } else {
      AllReplaced(orig, mod, init, i);
      ReplacementKeeps(orig, ReplaceAll(orig, mod, init), last, positions[i]);
    }
  }

  /** Whatever is apart from all those positions stays as the modified tree has it. */
  lemma {:induction false} OthersUntouched(orig: Json, mod: Json, positions: seq<seq<string>>, q: seq<string>)
    requires forall i :: 0 <= i < |positions| ==> Apart(positions[i], q)
    ensures Descend(ReplaceAll(orig, mod, positions), q) == Descend(mod, q)
  {
    if positions != [] {
      var init, last := positions[..|positions| - 1], positions[|positions| - 1];
      OthersUntouched(orig, mod, init, q);
      var before := ReplaceAll(orig, mod, init);
      if IsObject(Descend(before, last)) && IsObject(Descend(orig, last)) {
        PutApart(before, last, Descend(orig, last), q);
      }
    }
  }

  /** Below what is not an object there is nothing to replace. */
  lemma {:induction false} NothingUnder(v: Json, q: seq<string>, p: seq<string>)
    requires q <= p && !IsObject(Descend(v, q))
    ensures !IsObject(Descend(v, p))
  {
    DescendOn(v, q, p);
    if p[|q|..] != [] {
      NothingBelowUndefined(p[|q|..][1..]);
    }
  }

  /** A scalar, or nothing, of the modified tree stays unless a position above it is replaced. */
  lemma {:induction false} ScalarsStay(orig: Json, mod: Json, positions: seq<seq<string>>, q: seq<string>)
    requires !IsObject(Descend(mod, q)) && forall i :: 0 <= i < |positions| ==> Apart(positions[i], q) || q <= positions[i]
    ensures Descend(ReplaceAll(orig, mod, positions), q) == Descend(mod, q)
  {
    if positions != [] {
      var init, last := positions[..|positions| - 1], positions[|positions| - 1];
      ScalarsStay(orig, mod, init, q);
      var before := ReplaceAll(orig, mod, init);
      if Apart(last, q) {
        if IsObject(Descend(before, last)) && IsObject(Descend(orig, last)) {
          PutApart(before, last, Descend(orig, last), q);
        }
      } else {
        NothingUnder(before, q, last);
      }
    }
  }

  /** Two nodes of one kind with the same keys in order, or the same length. */
  ghost predicate SameShape(v: Json, w: Json) {
    || (v.JObj? && w.JObj? && Keys(v.members) == Keys(w.members))
    || (v.JArr? && w.JArr? && |v.items| == |w.items|)
    || v == w
  }

  lemma {:induction false} PutKeepsKeys(ms: seq<Member>, key: string, x: Json)
    requires Get(ms, key) != Undefined
    ensures Keys(PutMember(ms, key, x)) == Keys(ms)
  {
    if ms[0].key != key {
      PutKeepsKeys(ms[1..], key, x);
      KeysHead(ms);
      KeysHead(PutMember(ms, key, x));
      assert PutMember(ms, key, x)[1..] == PutMember(ms[1..], key, x);
    }
  }

  lemma {:induction false} PutKeepsShape(v: Json, p: seq<string>, x: Json)
    requires p != [] && IsObject(Descend(v, p))
    ensures SameShape(v, Put(v, p, x))
  {
    FirstStep(v, p);
    if v.JObj? {
      PutKeepsKeys(v.members, p[0], Put(Child(v, p[0]), p[1..], x));
    }
  }

  /** Whatever is not at or below a replaced position keeps its keys in order, or its length. */
  lemma {:induction false} ShapesStay(orig: Json, mod: Json, positions: seq<seq<string>>, q: seq<string>)
    requires forall i :: 0 <= i < |positions| ==> Apart(positions[i], q) || (q <= positions[i] && q != positions[i])
    ensures SameShape(Descend(mod, q), Descend(ReplaceAll(orig, mod, positions), q))
  {
    if positions != [] {
      var init, last := positions[..|positions| - 1], positions[|positions| - 1];
      ShapesStay(orig, mod, init, q);
      var before := ReplaceAll(orig, mod, init);
      if IsObject(Descend(before, last)) && IsObject(Descend(orig, last)) {
        if Apart(last, q) {
          PutApart(before, last, Descend(orig, last), q);
        } else {
          PutAbove(before, last, Descend(orig, last), q);
          DescendOn(before, q, last);
          PutKeepsShape(Descend(before, q), last[|q|..], Descend(orig, last));
        }
      }
    }
  }

  lemma {:induction false} ReportedAt(found: seq<RefAt>, i: nat)
    requires i < |found|
    ensures |Reported("", found)| == |found| && Reported("", found)[i].path == JoinFrom("", found[i].position)
  {
    if i > 0 {
      ReportedAt(found[1..], i - 1);
    } else if |found| > 1 {
      ReportedAt(found[1..], 0);
    }
  }

  /**
   After `processRefFields` every `$ref` position of the original at which the modified method has an
   object or array holds the original's subtree, nested `$ref`s included.
   */
  lemma {:induction false} RefFieldsProcessed(orig: Json, mod: Json, r: RefAt)
    requires DistinctKeys(orig) && PlainKeys(orig) && r in RefsIn(orig) && IsObject(Descend(mod, r.position))
    ensures Descend(ReplaceAll(orig, mod, PositionsOf(Reported("", RefsIn(orig)))), r.position) == Descend(orig, r.position)
  {
    var found := RefsIn(orig);
    var i :| 0 <= i < |found| && found[i] == r;
    ReportedAt(found, i);
    RefsExact(orig, r);
    PositionsArePlain(orig, r);
    if r.position != [] {
      SplitJoined(r.position);
    }
    AllReplaced(orig, mod, PositionsOf(Reported("", found)), i);
  }
}
