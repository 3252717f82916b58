/** `$ref` search and rewriting in the OpenRPC updater, over JSON trees. */
module RefTrees {
  import opened Prelude
  import opened JsonText
  import GroupPaths

  const REF := "$ref"

  // ---------- trees ----------

  /** What JavaScript calls a non-null object. */
  predicate IsObject(v: Json) {
    v.JArr? || v.JObj?
  }

  function Get(ms: seq<Member>, key: string): Json {
    if ms == [] then Undefined else if ms[0].key == key then ms[0].value else Get(ms[1..], key)
  }

  predicate HasRef(v: Json) {
    v.JObj? && Get(v.members, REF) != Undefined
  }

  function Dec(n: nat): string {
    if n < 10 then [('0' as int + n) as char] else Dec(n / 10) + [('0' as int + n % 10) as char]
  }

  /** `array[key]` for a string key: the element whose index is written so. */
  function ItemAt(items: seq<Json>, key: string, i: nat): Json
    requires i <= |items|
    decreases |items| - i
  {
    if i == |items| then Undefined else if Dec(i) == key then items[i] else ItemAt(items, key, i + 1)
  }

  /** `value[key]`. */
  function Child(v: Json, key: string): Json {
    match v
    case JArr(items) => ItemAt(items, key, 0)
    case JObj(members) => Get(members, key)
    case _ => Undefined
  }

  function Descend(v: Json, p: seq<string>): Json
    decreases |p|
  {
    if p == [] then v else Descend(Child(v, p[0]), p[1..])
  }

  lemma {:induction false} DecDigits(n: nat)
    ensures Dec(n) != [] && forall i :: 0 <= i < |Dec(n)| ==> IsDigit(Dec(n)[i])
  {
    if n >= 10 {
      DecDigits(n / 10);
    }
  }

  lemma {:induction false} DecInjective(m: nat, n: nat)
    requires Dec(m) == Dec(n)
    ensures m == n
  {
    DecDigits(m / 10);
    DecDigits(n / 10);
    var s := Dec(m);
    if m >= 10 && n >= 10 {
      assert Dec(m / 10) == s[..|s| - 1] == Dec(n / 10);
      DecInjective(m / 10, n / 10);
      assert s[|s| - 1] as int - '0' as int == m % 10 == n % 10;
    } else {
      assert (m < 10) == (|s| == 1) == (n < 10);
    }
  }

  lemma {:induction false} ItemFound(items: seq<Json>, i: nat, from: nat)
    requires from <= i < |items|
    ensures ItemAt(items, Dec(i), from) == items[i]
    decreases |items| - from
  {
    if from < i {
      if Dec(from) == Dec(i) {
        DecInjective(from, i);
      }
      ItemFound(items, i, from + 1);
    }
  }

  lemma {:induction false} ItemSource(items: seq<Json>, key: string, from: nat)
    requires from <= |items| && ItemAt(items, key, from) != Undefined
    ensures exists i :: from <= i < |items| && key == Dec(i) && ItemAt(items, key, from) == items[i]
    decreases |items| - from
  {
    if Dec(from) != key {
      ItemSource(items, key, from + 1);
    }
  }

  // ---------- rewriting ----------

  /** `handleRefField`: an object with a `$ref` keeps nothing else. */
  function StripRefs(v: Json): Json
    decreases v, 1
  {
    match v
    case JArr(items) => JArr(StripItems(items))
    case JObj(members) =>
      if HasRef(v) then JObj([Member(REF, Get(members, REF))]) else JObj(StripMembers(members))
    case _ => v
  }

  function StripItems(items: seq<Json>): (r: seq<Json>)
    ensures |r| == |items|
    decreases items, 0
  {
    if items == [] then [] else [StripRefs(items[0])] + StripItems(items[1..])
  }

  function StripMembers(ms: seq<Member>): seq<Member>
    decreases ms, 0
  {
    if ms == [] then [] else [Member(ms[0].key, StripRefs(ms[0].value))] + StripMembers(ms[1..])
  }

  /** `RefFieldHandler.handle` of a tree against the original document's tree. */
  function Handle(v: Json, orig: Json, isComponent: bool): Json
    decreases v, 1
  {
    if !IsObject(v) then v
    else if !IsObject(orig) then (if isComponent then v else StripRefs(v))
    else match v
      case JArr(items) => JArr(HandleItems(items, 0, orig, isComponent))
      case JObj(members) =>
        if HasRef(orig) then orig
        else if HasRef(v) then (if isComponent then v else JObj([Member(REF, Get(members, REF))]))
        else JObj(HandleMembers(members, orig, isComponent))
  }

  /** `getArrayItemSafely`. */
  function OrigItem(orig: Json, i: nat): Json {
    if orig.JArr? && i < |orig.items| then orig.items[i] else Undefined
  }

  function HandleItems(items: seq<Json>, i: nat, orig: Json, isComponent: bool): (r: seq<Json>)
    ensures |r| == |items|
    decreases items, 0
  {
    if items == [] then []
    else [Handle(items[0], OrigItem(orig, i), isComponent)] + HandleItems(items[1..], i + 1, orig, isComponent)
  }

  function HandleMembers(ms: seq<Member>, orig: Json, isComponent: bool): seq<Member>
    decreases ms, 0
  {
    if ms == [] then []
    else
      [Member(ms[0].key, Handle(ms[0].value, Child(orig, ms[0].key), isComponent))]
      + HandleMembers(ms[1..], orig, isComponent)
  }

  // ---------- rewriting twice ----------

  lemma {:induction false} GetStripped(ms: seq<Member>, key: string)
    ensures Get(StripMembers(ms), key) == StripRefs(Get(ms, key))
  {
    if ms != [] {
      GetStripped(ms[1..], key);
      assert StripMembers(ms)[1..] == StripMembers(ms[1..]);
    }
  }

  lemma {:induction false} StripNeverUndefined(v: Json)
    ensures StripRefs(v) == Undefined <==> v == Undefined
  {}

  lemma {:induction false} StripTwice(v: Json)
    ensures StripRefs(StripRefs(v)) == StripRefs(v)
    decreases v, 1
  {
    if v.JArr? {
      StripItemsTwice(v.items);
    } else if v.JObj? && !HasRef(v) {
      GetStripped(v.members, REF);
      StripNeverUndefined(Get(v.members, REF));
      StripMembersTwice(v.members);
    }
  }

  lemma {:induction false} StripItemsTwice(items: seq<Json>)
    ensures StripItems(StripItems(items)) == StripItems(items)
    decreases items, 0
  {
    if items != [] {
      StripTwice(items[0]);
      StripItemsTwice(items[1..]);
      assert StripItems(items)[1..] == StripItems(items[1..]);
    }
  }

  lemma {:induction false} StripMembersTwice(ms: seq<Member>)
    ensures StripMembers(StripMembers(ms)) == StripMembers(ms)
    decreases ms, 0
  {
    if ms != [] {
      StripTwice(ms[0].value);
      StripMembersTwice(ms[1..]);
      assert StripMembers(ms)[1..] == StripMembers(ms[1..]);
    }
  }

  lemma {:induction false} GetHandled(ms: seq<Member>, orig: Json, isComponent: bool, key: string)
    ensures Get(HandleMembers(ms, orig, isComponent), key) == Handle(Get(ms, key), Child(orig, key), isComponent)
  {
    if ms != [] {
      GetHandled(ms[1..], orig, isComponent, key);
      assert HandleMembers(ms, orig, isComponent)[1..] == HandleMembers(ms[1..], orig, isComponent);
    }
  }

  lemma {:induction false} HandleNeverUndefined(v: Json, orig: Json, isComponent: bool)
    ensures Handle(v, orig, isComponent) == Undefined <==> v == Undefined
  {}

  /** Idempotence: a second pass against the same original changes nothing, in either mode. */
  lemma {:induction false} HandleTwice(v: Json, orig: Json, isComponent: bool)
    ensures Handle(Handle(v, orig, isComponent), orig, isComponent) == Handle(v, orig, isComponent)
    decreases v, 1
  {
    if IsObject(v) && !IsObject(orig) {
      StripTwice(v);
    } else if v.JArr? && IsObject(orig) {
      HandleItemsTwice(v.items, 0, orig, isComponent);
    } else if v.JObj? && IsObject(orig) && !HasRef(orig) && !HasRef(v) {
      GetHandled(v.members, orig, isComponent, REF);
      HandleNeverUndefined(Get(v.members, REF), Child(orig, REF), isComponent);
      HandleMembersTwice(v.members, orig, isComponent);
    }
  }

  lemma {:induction false} HandleItemsTwice(items: seq<Json>, i: nat, orig: Json, isComponent: bool)
    ensures HandleItems(HandleItems(items, i, orig, isComponent), i, orig, isComponent)
         == HandleItems(items, i, orig, isComponent)
    decreases items, 0
  {
    if items != [] {
      HandleTwice(items[0], OrigItem(orig, i), isComponent);
      HandleItemsTwice(items[1..], i + 1, orig, isComponent);
      assert HandleItems(items, i, orig, isComponent)[1..] == HandleItems(items[1..], i + 1, orig, isComponent);
    }
  }

  lemma {:induction false} HandleMembersTwice(ms: seq<Member>, orig: Json, isComponent: bool)
    ensures HandleMembers(HandleMembers(ms, orig, isComponent), orig, isComponent) == HandleMembers(ms, orig, isComponent)
    decreases ms, 0
  {
    if ms != [] {
      HandleTwice(ms[0].value, Child(orig, ms[0].key), isComponent);
      HandleMembersTwice(ms[1..], orig, isComponent);
      assert HandleMembers(ms, orig, isComponent)[1..] == HandleMembers(ms[1..], orig, isComponent);
    }
  }

  // ---------- where the original ends up ----------

  ghost predicate SameKind(v: Json, orig: Json) {
    (v.JArr? && orig.JArr?) || (v.JObj? && orig.JObj?)
  }

  /** Both trees have the position, of one kind all the way down, and no ancestor has a `$ref` in either. */
  ghost predicate SharedPosition(v: Json, orig: Json, p: seq<string>)
    decreases |p|
  {
    && SameKind(v, orig)
    && (p != [] ==> !HasRef(v) && !HasRef(orig) && SharedPosition(Child(v, p[0]), Child(orig, p[0]), p[1..]))
  }

  lemma {:induction false} HandledItem(items: seq<Json>, i: nat, orig: Json, isComponent: bool, k: nat)
    requires k < |items|
    ensures HandleItems(items, i, orig, isComponent)[k] == Handle(items[k], OrigItem(orig, i + k), isComponent)
  {
    if k > 0 {
      HandledItem(items[1..], i + 1, orig, isComponent, k - 1);
    }
  }

  /** Below a shared node, rewriting the tree is rewriting its children. */
  lemma {:induction false} HandledChild(v: Json, orig: Json, isComponent: bool, key: string)
    requires SameKind(v, orig) && !HasRef(v) && !HasRef(orig)
    requires IsObject(Child(v, key)) && IsObject(Child(orig, key))
    ensures Child(Handle(v, orig, isComponent), key) == Handle(Child(v, key), Child(orig, key), isComponent)
  {
    if v.JObj? {
      GetHandled(v.members, orig, isComponent, key);
    } else {
      var k := ChildIndex(v.items, key);
      var j := ChildIndex(orig.items, key);
      DecInjective(k, j);
      HandledItem(v.items, 0, orig, isComponent, k);
      ItemFound(HandleItems(v.items, 0, orig, isComponent), k, 0);
    }
  }

  lemma {:induction false} ChildIndex(items: seq<Json>, key: string) returns (k: nat)
    requires Child(JArr(items), key) != Undefined
    ensures k < |items| && key == Dec(k) && Child(JArr(items), key) == items[k]
  {
    ItemSource(items, key, 0);
    k :| 0 <= k < |items| && key == Dec(k) && ItemAt(items, key, 0) == items[k];
  }

  /** At a shared position the rewritten tree holds that subtree's own rewriting. */
  lemma {:induction false} HandledAt(v: Json, orig: Json, isComponent: bool, p: seq<string>)
    requires SharedPosition(v, orig, p)
    ensures Descend(Handle(v, orig, isComponent), p) == Handle(Descend(v, p), Descend(orig, p), isComponent)
    ensures SameKind(Descend(v, p), Descend(orig, p))
    decreases |p|
  {
    if p != [] {
      HandledChild(v, orig, isComponent, p[0]);
      HandledAt(Child(v, p[0]), Child(orig, p[0]), isComponent, p[1..]);
    }
  }

  /**
   Every shared position where the original has a `$ref` gets the original's subtree; where only the
   modified tree has one, a component stays as it is and anything else keeps nothing but the `$ref`.
   */
  lemma {:induction false} OriginalWins(v: Json, orig: Json, isComponent: bool, p: seq<string>)
    requires SharedPosition(v, orig, p)
    ensures HasRef(Descend(orig, p)) ==> Descend(Handle(v, orig, isComponent), p) == Descend(orig, p)
    ensures !HasRef(Descend(orig, p)) && HasRef(Descend(v, p)) ==>
      Descend(Handle(v, orig, isComponent), p)
        == if isComponent then Descend(v, p) else JObj([Member(REF, Get(Descend(v, p).members, REF))])
  {
    HandledAt(v, orig, isComponent, p);
  }

  /** No object strictly above the position has a `$ref`. */
  ghost predicate NoRefAbove(v: Json, p: seq<string>)
    decreases |p|
  {
    p != [] ==> !HasRef(v) && NoRefAbove(Child(v, p[0]), p[1..])
  }

  lemma {:induction false} StrippedItem(items: seq<Json>, i: nat)
    requires i < |items|
    ensures StripItems(items)[i] == StripRefs(items[i])
  {
    if i > 0 {
      StrippedItem(items[1..], i - 1);
    }
  }

  lemma {:induction false} StrippedItemAt(items: seq<Json>, key: string, i: nat)
    requires i <= |items|
    ensures ItemAt(StripItems(items), key, i) == StripRefs(ItemAt(items, key, i))
    decreases |items| - i
  {
    if i < |items| {
      StrippedItem(items, i);
      StrippedItemAt(items, key, i + 1);
    }
  }

  /** Stripping commutes with descending, down to and including the outermost objects with a `$ref`. */
  lemma {:induction false} StrippedAt(v: Json, p: seq<string>)
    requires NoRefAbove(v, p)
    ensures Descend(StripRefs(v), p) == StripRefs(Descend(v, p))
    decreases |p|
  {
    if p != [] {
      if v.JObj? {
        GetStripped(v.members, p[0]);
      } else if v.JArr? {
        StrippedItemAt(v.items, p[0], 0);
      }
      StrippedAt(Child(v, p[0]), p[1..]);
    }
  }

  /** Stripping, position by position: scalars, lengths and keys stay, and a `$ref` object keeps its `$ref` only. */
  lemma {:induction false} StrippedShape(v: Json, p: seq<string>)
    requires NoRefAbove(v, p)
    ensures var x, r := Descend(v, p), Descend(StripRefs(v), p);
      && (!IsObject(x) ==> r == x)
      && (x.JArr? ==> r.JArr? && |r.items| == |x.items|)
      && (x.JObj? && !HasRef(x) ==> r.JObj? && Keys(r.members) == Keys(x.members))
      && (HasRef(x) ==> r == JObj([Member("$ref", Get(x.members, "$ref"))]))
  {
    StrippedAt(v, p);
    if Descend(v, p).JObj? {
      StrippedKeys(Descend(v, p).members);
    }
  }

  ghost function Keys(ms: seq<Member>): seq<string> {
    seq(|ms|, i requires 0 <= i < |ms| => ms[i].key)
  }

  lemma {:induction false} KeysHead(ms: seq<Member>)
    requires ms != []
    ensures Keys(ms) == [ms[0].key] + Keys(ms[1..])
  {}

  lemma {:induction false} StrippedKeys(ms: seq<Member>)
    ensures Keys(StripMembers(ms)) == Keys(ms)
  {
    if ms != [] {
      StrippedKeys(ms[1..]);
      KeysHead(ms);
      KeysHead(StripMembers(ms));
      assert StripMembers(ms)[1..] == StripMembers(ms[1..]);
    }
  }

  lemma {:induction false} HandledKeys(ms: seq<Member>, orig: Json, isComponent: bool)
    ensures Keys(HandleMembers(ms, orig, isComponent)) == Keys(ms)
  {
    if ms != [] {
      HandledKeys(ms[1..], orig, isComponent);
      KeysHead(ms);
      KeysHead(HandleMembers(ms, orig, isComponent));
      assert HandleMembers(ms, orig, isComponent)[1..] == HandleMembers(ms[1..], orig, isComponent);
    }
  }

  // ---------- everything else stays ----------

  /** The child of the original that faces a child: an array has no counterpart in what is not an array. */
  ghost function FacingChild(v: Json, orig: Json, key: string): Json {
    if v.JArr? && !orig.JArr? then Undefined else Child(orig, key)
  }

  /** What of the original faces the position `p` of `v`. */
  ghost function Facing(v: Json, orig: Json, p: seq<string>): Json
    decreases |p|
  {
    if p == [] then orig else Facing(Child(v, p[0]), FacingChild(v, orig, p[0]), p[1..])
  }

  /** Nothing strictly above the position has a `$ref`, in either tree. */
  ghost predicate NoRefAlong(v: Json, orig: Json, p: seq<string>)
    decreases |p|
  {
    p != [] ==> !HasRef(v) && !HasRef(orig) && NoRefAlong(Child(v, p[0]), FacingChild(v, orig, p[0]), p[1..])
  }

  lemma {:induction false} NoSuchItem(items: seq<Json>, k: nat, from: nat)
    requires from <= |items| <= k
    ensures ItemAt(items, Dec(k), from) == Undefined
    decreases |items| - from
  {
    if from < |items| {
      if Dec(from) == Dec(k) {
        DecInjective(from, k);
      }
      NoSuchItem(items, k, from + 1);
    }
  }

  lemma {:induction false} OrigFaces(v: Json, orig: Json, k: nat)
    requires v.JArr?
    ensures OrigItem(orig, k) == FacingChild(v, orig, Dec(k))
  {
    if orig.JArr? {
      if k < |orig.items| {
        ItemFound(orig.items, k, 0);
      } else {
        NoSuchItem(orig.items, k, 0);
      }
    }
  }

  lemma {:induction false} HandledItemAt(v: Json, orig: Json, isComponent: bool, key: string, i: nat)
    requires v.JArr? && i <= |v.items|
    ensures ItemAt(HandleItems(v.items, 0, orig, isComponent), key, i)
         == Handle(ItemAt(v.items, key, i), FacingChild(v, orig, key), isComponent)
    decreases |v.items| - i
  {
    if i < |v.items| {
      HandledItem(v.items, 0, orig, isComponent, i);
      OrigFaces(v, orig, i);
      HandledItemAt(v, orig, isComponent, key, i + 1);
    }
  }

  lemma {:induction false} StrippedChild(v: Json, key: string)
    requires !HasRef(v)
    ensures Child(StripRefs(v), key) == StripRefs(Child(v, key))
  {
    if v.JObj? {
      GetStripped(v.members, key);
    } else if v.JArr? {
      StrippedItemAt(v.items, key, 0);
    }
  }

  lemma {:induction false} FacedChild(v: Json, orig: Json, isComponent: bool, key: string)
    requires !HasRef(v) && !HasRef(orig)
    ensures Child(Handle(v, orig, isComponent), key) == Handle(Child(v, key), FacingChild(v, orig, key), isComponent)
  {
    if IsObject(v) && IsObject(orig) {
      if v.JObj? {
        GetHandled(v.members, orig, isComponent, key);
      } else {
        HandledItemAt(v, orig, isComponent, key, 0);
      }
    } else if IsObject(v) {
      StrippedChild(v, key);
    }
  }

  lemma {:induction false} FacedAt(v: Json, orig: Json, isComponent: bool, p: seq<string>)
    requires NoRefAlong(v, orig, p)
    ensures Descend(Handle(v, orig, isComponent), p) == Handle(Descend(v, p), Facing(v, orig, p), isComponent)
    decreases |p|
  {
    if p != [] {
      FacedChild(v, orig, isComponent, p[0]);
      FacedAt(Child(v, p[0]), FacingChild(v, orig, p[0]), isComponent, p[1..]);
    }
  }

  /**
   Every position without a `$ref` above it: a scalar stays the modified one, an array keeps its length
   and an object its keys in order; where the original has a `$ref`, an object becomes the original's;
   where only the modified tree has one, it stays in a component and is reduced to the `$ref` elsewhere;
   and what faces no object of the original stays in a component altogether.
   */
  lemma {:induction false} HandledShape(v: Json, orig: Json, isComponent: bool, p: seq<string>)
    requires NoRefAlong(v, orig, p)
    ensures var x, y, r := Descend(v, p), Facing(v, orig, p), Descend(Handle(v, orig, isComponent), p);
      && (!IsObject(x) ==> r == x)
      && (x.JArr? ==> r.JArr? && |r.items| == |x.items|)
      && (x.JObj? && !HasRef(x) && !HasRef(y) ==> r.JObj? && Keys(r.members) == Keys(x.members))
      && (x.JObj? && HasRef(y) ==> r == y)
      && (HasRef(x) && !HasRef(y) ==> r == if isComponent then x else JObj([Member("$ref", Get(x.members, "$ref"))]))
      && (isComponent && !IsObject(y) ==> r == x)
  {
    FacedAt(v, orig, isComponent, p);
    var x, y := Descend(v, p), Facing(v, orig, p);
    if x.JObj? {
      HandledKeys(x.members, y, isComponent);
      StrippedKeys(x.members);
    }
  }

  /** An object has a `$ref` when its first member of that name holds something. */
  lemma {:induction false} HasRefIff(v: Json)
    ensures HasRef(v) <==> (
      v.JObj? && exists i :: 0 <= i < |v.members| && v.members[i].key == "$ref" && v.members[i].value != Undefined
                     && forall j :: 0 <= j < i ==> v.members[j].key != "$ref")
  {
    if v.JObj? {
      FirstOfName(v.members, "$ref");
    }
  }

  ghost predicate IsFirstOfName(ms: seq<Member>, key: string, i: int) {
    0 <= i < |ms| && ms[i].key == key && forall j :: 0 <= j < i ==> ms[j].key != key
  }

  lemma {:induction false} FirstOfName(ms: seq<Member>, key: string)
    ensures forall i :: IsFirstOfName(ms, key, i) ==> Get(ms, key) == ms[i].value
    ensures Get(ms, key) != Undefined ==> exists i :: IsFirstOfName(ms, key, i)
  {
    if ms != [] {
      FirstOfName(ms[1..], key);
      if ms[0].key == key {
        assert IsFirstOfName(ms, key, 0);
      } else {
        forall i | IsFirstOfName(ms, key, i) ensures Get(ms, key) == ms[i].value {
          assert IsFirstOfName(ms[1..], key, i - 1);
        }
        if i :| IsFirstOfName(ms[1..], key, i) {
          assert ms[i + 1] == ms[1..][i];
          assert forall j :: 1 <= j < i + 1 ==> ms[j] == ms[1..][j - 1];
          assert IsFirstOfName(ms, key, i + 1);
        }
      }
    }
  }

  /** An index is written in decimal, without leading zeros. */
  lemma {:induction false} DecIsDecimal(n: nat)
    ensures DecimalValue(Dec(n)) == n && (n > 0 ==> Dec(n)[0] != '0') && (n < 10 ==> |Dec(n)| == 1)
  {
    DecDigits(n);
    if n >= 10 {
      DecIsDecimal(n / 10);
      DecDigits(n / 10);
      var s := Dec(n);
      assert s[..|s| - 1] == Dec(n / 10);
    } else {
      assert Dec(n)[..0] == "";
    }
  }

  ghost function DecimalValue(s: string): int {
    if s == [] then 0 else DecimalValue(s[..|s| - 1]) * 10 + (s[|s| - 1] as int - '0' as int)
  }

  // ---------- searching ----------

  /** A position of an object with a `$ref`, and the reference it holds. */
  datatype RefAt = RefAt(position: seq<string>, ref: Json)

  /** The reported form: the position as a dotted path. */
  datatype RefPath = RefPath(path: string, ref: Json)

  function Below(key: string, found: seq<RefAt>): seq<RefAt> {
    if found == [] then [] else [RefAt([key] + found[0].position, found[0].ref)] + Below(key, found[1..])
  }

  /** All positions, parents before children. */
  function RefsIn(v: Json): seq<RefAt>
    decreases v, 1
  {
    match v
    case JArr(items) => RefsInItems(items, 0)
    case JObj(members) =>
      (if HasRef(v) then [RefAt([], Get(members, REF))] else []) + RefsInMembers(members)
    case _ => []
  }

  function RefsInItems(items: seq<Json>, i: nat): seq<RefAt>
    decreases items, 0
  {
    if items == [] then [] else Below(Dec(i), RefsIn(items[0])) + RefsInItems(items[1..], i + 1)
  }

  function RefsInMembers(ms: seq<Member>): seq<RefAt>
    decreases ms, 0
  {
    if ms == [] then [] else Below(ms[0].key, RefsIn(ms[0].value)) + RefsInMembers(ms[1..])
  }

  /** Keys are distinct, as in every JavaScript object. */
  predicate DistinctKeys(v: Json) {
    match v
    case JArr(items) => forall i :: 0 <= i < |items| ==> DistinctKeys(items[i])
    case JObj(members) =>
      && (forall i, j :: 0 <= i < j < |members| ==> members[i].key != members[j].key)
      && (forall i :: 0 <= i < |members| ==> DistinctKeys(members[i].value))
    case _ => true
  }

  ghost predicate IsRefAt(v: Json, p: seq<string>, ref: Json) {
    HasRef(Descend(v, p)) && Get(Descend(v, p).members, REF) == ref
  }

  lemma {:induction false} BelowMembers(key: string, found: seq<RefAt>)
    ensures forall r :: r in Below(key, found) <==>
      r.position != [] && r.position[0] == key && RefAt(r.position[1..], r.ref) in found
  {
    if found != [] {
      BelowMembers(key, found[1..]);
      assert found == [found[0]] + found[1..];
      assert ([key] + found[0].position)[1..] == found[0].position;
      forall r: RefAt | r.position != [] && r.position[0] == key && RefAt(r.position[1..], r.ref) == found[0]
        ensures r == RefAt([key] + found[0].position, found[0].ref)
      {
        assert r.position == [key] + r.position[1..];
      }
    }
  }

  lemma {:induction false} NothingBelowUndefined(p: seq<string>)
    ensures Descend(Undefined, p) == Undefined
  {
    if p != [] {
      NothingBelowUndefined(p[1..]);
    }
  }

  /** The finding is below item `k`, which has index `i + k`. */
  ghost predicate FoundAt(items: seq<Json>, i: nat, k: int, r: RefAt) {
    0 <= k < |items| && r.position != [] && r.position[0] == Dec(i + k) && IsRefAt(items[k], r.position[1..], r.ref)
  }

  ghost predicate FoundSomewhere(items: seq<Json>, i: nat, r: RefAt) {
    exists k :: FoundAt(items, i, k, r)
  }

  lemma {:induction false} FoundWhere(items: seq<Json>, i: nat, r: RefAt) returns (k: nat)
    requires FoundSomewhere(items, i, r)
    ensures FoundAt(items, i, k, r)
  {
    k :| FoundAt(items, i, k, r);
  }

  lemma {:induction false} FoundLater(items: seq<Json>, i: nat, r: RefAt)
    requires items != []
    ensures FoundSomewhere(items, i, r) <==> FoundAt(items, i, 0, r) || FoundSomewhere(items[1..], i + 1, r)
  {
    if FoundSomewhere(items, i, r) {
      var k := FoundWhere(items, i, r);
      if k > 0 {
        assert FoundAt(items[1..], i + 1, k - 1, r);
      }
    }
    if FoundSomewhere(items[1..], i + 1, r) {
      var k := FoundWhere(items[1..], i + 1, r);
      assert FoundAt(items, i, k + 1, r);
    }
  }

  lemma {:induction false} ItemsExact(items: seq<Json>, i: nat, r: RefAt)
    requires forall k :: 0 <= k < |items| ==> DistinctKeys(items[k])
    ensures r in RefsInItems(items, i) <==> FoundSomewhere(items, i, r)
    decreases items, 0
  {
    if items != [] {
      BelowMembers(Dec(i), RefsIn(items[0]));
      ItemsExact(items[1..], i + 1, r);
      if r.position != [] {
        RefsExact(items[0], RefAt(r.position[1..], r.ref));
      }
      FoundLater(items, i, r);
    }
  }

  lemma {:induction false} GetMissing(ms: seq<Member>, key: string)
    requires forall i :: 0 <= i < |ms| ==> ms[i].key != key
    ensures Get(ms, key) == Undefined
  {
    if ms != [] {
      GetMissing(ms[1..], key);
    }
  }

  lemma {:induction false} MembersExact(ms: seq<Member>, r: RefAt)
    requires forall i, j :: 0 <= i < j < |ms| ==> ms[i].key != ms[j].key
    requires forall k :: 0 <= k < |ms| ==> DistinctKeys(ms[k].value)
    ensures r in RefsInMembers(ms) <==> r.position != [] && IsRefAt(Get(ms, r.position[0]), r.position[1..], r.ref)
    decreases ms, 0
  {
    if ms == [] {
      if r.position != [] {
        NothingBelowUndefined(r.position[1..]);
      }
    } else {
      BelowMembers(ms[0].key, RefsIn(ms[0].value));
      MembersExact(ms[1..], r);
      if r.position != [] {
        RefsExact(ms[0].value, RefAt(r.position[1..], r.ref));
        if r.position[0] == ms[0].key {
          GetMissing(ms[1..], ms[0].key);
          NothingBelowUndefined(r.position[1..]);
        }
      }
    }
  }

  /** The search finds exactly the positions of objects with a `$ref`, with the reference they hold. */
  lemma {:induction false} RefsExact(v: Json, r: RefAt)
    requires DistinctKeys(v)
    ensures r in RefsIn(v) <==> IsRefAt(v, r.position, r.ref)
    decreases v, 1
  {
    if v.JArr? {
      ItemsExact(v.items, 0, r);
      if r.position != [] {
        ArrayChild(v.items, r);
      }
    } else if v.JObj? {
      MembersExact(v.members, r);
    } else if r.position != [] {
      NothingBelowUndefined(r.position[1..]);
    }
  }

  lemma {:induction false} ArrayChild(items: seq<Json>, r: RefAt)
    requires r.position != []
    ensures IsRefAt(ItemAt(items, r.position[0], 0), r.position[1..], r.ref) <==> FoundSomewhere(items, 0, r)
  {
    if k :| FoundAt(items, 0, k, r) {
      ItemFound(items, k, 0);
    }
    if ItemAt(items, r.position[0], 0) == Undefined {
      NothingBelowUndefined(r.position[1..]);
    } else {
      ItemSource(items, r.position[0], 0);
      var k :| 0 <= k < |items| && r.position[0] == Dec(k) && ItemAt(items, r.position[0], 0) == items[k];
      assert FoundAt(items, 0, k, r) <==> IsRefAt(items[k], r.position[1..], r.ref);
    }
  }

  // ---------- each position once ----------

  ghost predicate Once(found: seq<RefAt>) {
    forall i, j :: 0 <= i < j < |found| ==> found[i] != found[j]
  }

  lemma {:induction false} OnceAppend(a: seq<RefAt>, b: seq<RefAt>)
    requires Once(a) && Once(b) && forall r <- a :: r !in b
    ensures Once(a + b)
  {
    forall i, j | 0 <= i < j < |a + b| ensures (a + b)[i] != (a + b)[j] {
      if i < |a| <= j {
        assert a[i] in a && b[j - |a|] in b;
      }
    }
  }

  lemma {:induction false} OnceBelow(key: string, found: seq<RefAt>)
    requires Once(found)
    ensures Once(Below(key, found))
  {
    if found != [] {
      OnceBelow(key, found[1..]);
      BelowMembers(key, found[1..]);
      assert ([key] + found[0].position)[1..] == found[0].position;
      assert found[0] !in found[1..];
      OnceAppend([RefAt([key] + found[0].position, found[0].ref)], Below(key, found[1..]));
    }
  }

  lemma {:induction false} ItemsOnce(items: seq<Json>, i: nat)
    requires forall k :: 0 <= k < |items| ==> DistinctKeys(items[k])
    ensures Once(RefsInItems(items, i))
    decreases items, 0
  {
    if items != [] {
      RefsOnce(items[0]);
      ItemsOnce(items[1..], i + 1);
      OnceBelow(Dec(i), RefsIn(items[0]));
      BelowMembers(Dec(i), RefsIn(items[0]));
      forall r | r in RefsInItems(items[1..], i + 1) ensures r !in Below(Dec(i), RefsIn(items[0])) {
        ItemsExact(items[1..], i + 1, r);
        var k := FoundWhere(items[1..], i + 1, r);
        if Dec(i) == Dec(i + 1 + k) {
          DecInjective(i, i + 1 + k);
        }
      }
      OnceAppend(Below(Dec(i), RefsIn(items[0])), RefsInItems(items[1..], i + 1));
    }
  }

  lemma {:induction false} MembersOnce(ms: seq<Member>)
    requires forall i, j :: 0 <= i < j < |ms| ==> ms[i].key != ms[j].key
    requires forall k :: 0 <= k < |ms| ==> DistinctKeys(ms[k].value)
    ensures Once(RefsInMembers(ms))
    decreases ms, 0
  {
    if ms != [] {
      RefsOnce(ms[0].value);
      MembersOnce(ms[1..]);
      OnceBelow(ms[0].key, RefsIn(ms[0].value));
      BelowMembers(ms[0].key, RefsIn(ms[0].value));
      GetMissing(ms[1..], ms[0].key);
      forall r | r in Below(ms[0].key, RefsIn(ms[0].value)) ensures r !in RefsInMembers(ms[1..]) {
        MembersExact(ms[1..], r);
        NothingBelowUndefined(r.position[1..]);
      }
      OnceAppend(Below(ms[0].key, RefsIn(ms[0].value)), RefsInMembers(ms[1..]));
    }
  }

  /** No position is reported twice. */
  lemma {:induction false} RefsOnce(v: Json)
    requires DistinctKeys(v)
    ensures Once(RefsIn(v))
    decreases v, 1
  {
    if v.JArr? {
      ItemsOnce(v.items, 0);
    } else if v.JObj? {
      MembersOnce(v.members);
      var own := if HasRef(v) then [RefAt([], Get(v.members, REF))] else [];
      forall r | r in own ensures r !in RefsInMembers(v.members) {
        MembersExact(v.members, r);
      }
      OnceAppend(own, RefsInMembers(v.members));
    }
  }

  // ---------- in document order ----------

  /** The one child stands before the other. */
  ghost predicate ChildBefore(v: Json, k: string, l: string) {
    || (v.JObj? && exists i, j :: 0 <= i < j < |v.members| && v.members[i].key == k && v.members[j].key == l)
    || (v.JArr? && exists i: nat, j: nat :: i < j < |v.items| && Dec(i) == k && Dec(j) == l)
  }

  /** The one position is above the other, or the two part where the one goes to an earlier child. */
  ghost predicate InDocumentOrder(v: Json, p: seq<string>, q: seq<string>)
    decreases |p|
  {
    if p == [] || q == [] then p == [] && q != []
    else ChildBefore(v, p[0], q[0]) || (p[0] == q[0] && InDocumentOrder(Child(v, p[0]), p[1..], q[1..]))
  }

  ghost predicate AllInOrder(v: Json, found: seq<RefAt>) {
    forall i, j :: 0 <= i < j < |found| ==> InDocumentOrder(v, found[i].position, found[j].position)
  }

  /** Every position goes to the child under that key. */
  ghost predicate AllUnder(found: seq<RefAt>, key: string) {
    forall r <- found :: r.position != [] && r.position[0] == key
  }

  lemma {:induction false} BelowAt(key: string, found: seq<RefAt>, i: nat)
    requires i < |found|
    ensures |Below(key, found)| == |found| && Below(key, found)[i] == RefAt([key] + found[i].position, found[i].ref)
  {
    if i > 0 {
      BelowAt(key, found[1..], i - 1);
    } else if |found| > 1 {
      BelowAt(key, found[1..], 0);
    }
  }

  lemma {:induction false} BelowSize(key: string, found: seq<RefAt>)
    ensures |Below(key, found)| == |found|
  {
    if found != [] {
      BelowAt(key, found, 0);
    }
  }

  lemma {:induction false} BelowInOrder(v: Json, key: string, found: seq<RefAt>)
    requires AllInOrder(Child(v, key), found)
    ensures AllInOrder(v, Below(key, found)) && AllUnder(Below(key, found), key)
  {
    BelowMembers(key, found);
    BelowSize(key, found);
    var below := Below(key, found);
    forall i, j | 0 <= i < j < |below| ensures InDocumentOrder(v, below[i].position, below[j].position) {
      BelowAt(key, found, i);
      BelowAt(key, found, j);
      assert below[i].position[1..] == found[i].position && below[j].position[1..] == found[j].position;
    }
  }

  lemma {:induction false} OrderJoins(v: Json, key: string, a: seq<RefAt>, b: seq<RefAt>)
    requires AllInOrder(v, a) && AllUnder(a, key) && AllInOrder(v, b)
    requires forall r <- b :: r.position != [] && ChildBefore(v, key, r.position[0])
    ensures AllInOrder(v, a + b)
  {
    var all := a + b;
    forall i, j | 0 <= i < j < |all| ensures InDocumentOrder(v, all[i].position, all[j].position) {
      if i < |a| <= j {
        assert all[i] in a && all[j] in b;
      }
    }
  }

  lemma {:induction false} GetAt(ms: seq<Member>, k: nat)
    requires k < |ms| && forall i, j :: 0 <= i < j < |ms| ==> ms[i].key != ms[j].key
    ensures Get(ms, ms[k].key) == ms[k].value
  {
    FirstOfName(ms, ms[k].key);
    assert IsFirstOfName(ms, ms[k].key, k);
  }

  lemma {:induction false} MembersInOrder(v: Json, k: nat)
    requires v.JObj? && DistinctKeys(v) && k <= |v.members|
    ensures AllInOrder(v, RefsInMembers(v.members[k..]))
    ensures forall r <- RefsInMembers(v.members[k..]) ::
      r.position != [] && exists x :: k <= x < |v.members| && v.members[x].key == r.position[0]
    decreases v, 0, |v.members| - k
  {
    if k < |v.members| {
      var m, rest := v.members[k], v.members[k + 1..];
      assert v.members[k..][0] == m && v.members[k..][1..] == rest;
      RefsInOrder(m.value);
      GetAt(v.members, k);
      BelowInOrder(v, m.key, RefsIn(m.value));
      MembersInOrder(v, k + 1);
      OrderJoins(v, m.key, Below(m.key, RefsIn(m.value)), RefsInMembers(rest));
    }
  }

  /** The key is an index of the array, `k` or higher. */
  ghost predicate IsIndexFrom(v: Json, k: nat, key: string)
    requires v.JArr?
  {
    exists x: nat :: k <= x < |v.items| && Dec(x) == key
  }

  ghost predicate AllFrom(v: Json, k: nat, found: seq<RefAt>)
    requires v.JArr?
  {
    forall r <- found :: r.position != [] && IsIndexFrom(v, k, r.position[0])
  }

  lemma {:induction false} LaterItems(v: Json, k: nat, own: seq<RefAt>, rest: seq<RefAt>)
    requires v.JArr? && k < |v.items| && AllUnder(own, Dec(k)) && AllFrom(v, k + 1, rest)
    ensures AllFrom(v, k, own + rest)
    ensures forall r <- rest :: ChildBefore(v, Dec(k), r.position[0])
  {
    forall r | r in rest ensures ChildBefore(v, Dec(k), r.position[0]) && IsIndexFrom(v, k, r.position[0]) {
      var x: nat :| k + 1 <= x < |v.items| && Dec(x) == r.position[0];
    }
    assert IsIndexFrom(v, k, Dec(k));
  }

  lemma {:induction false} ItemsInOrder(v: Json, k: nat)
    requires v.JArr? && DistinctKeys(v) && k <= |v.items|
    ensures AllInOrder(v, RefsInItems(v.items[k..], k))
    ensures AllFrom(v, k, RefsInItems(v.items[k..], k))
    decreases v, 0, |v.items| - k
  {
    if k < |v.items| {
      var own, rest := Below(Dec(k), RefsIn(v.items[k])), RefsInItems(v.items[k + 1..], k + 1);
      assert v.items[k..][0] == v.items[k] && v.items[k..][1..] == v.items[k + 1..];
      assert RefsInItems(v.items[k..], k) == own + rest;
      RefsInOrder(v.items[k]);
      ItemFound(v.items, k, 0);
      BelowInOrder(v, Dec(k), RefsIn(v.items[k]));
      ItemsInOrder(v, k + 1);
      LaterItems(v, k, own, rest);
      OrderJoins(v, Dec(k), own, rest);
    }
  }

  /** The findings come in document order, parents before what is below them. */
  lemma {:induction false} RefsInOrder(v: Json)
    requires DistinctKeys(v)
    ensures AllInOrder(v, RefsIn(v))
    decreases v, 1
  {
    if v.JArr? {
      ItemsInOrder(v, 0);
      assert v.items[0..] == v.items;
    } else if v.JObj? {
      MembersInOrder(v, 0);
      assert v.members[0..] == v.members;
      OwnFirst(v);
    }
  }

  lemma {:induction false} OwnFirst(v: Json)
    requires v.JObj? && AllInOrder(v, RefsInMembers(v.members)) && forall r <- RefsInMembers(v.members) :: r.position != []
    ensures AllInOrder(v, RefsIn(v))
  {
    var rest, all := RefsInMembers(v.members), RefsIn(v);
    var n := |all| - |rest|;
    forall i, j | 0 <= i < j < |all| ensures InDocumentOrder(v, all[i].position, all[j].position) {
      assert all[j] == rest[j - n] && rest[j - n] in rest;
      if i >= n {
        assert all[i] == rest[i - n];
      }
    }
  }

  // ---------- dotted paths ----------

  /** `buildPath` for every segment in turn. */
  function JoinFrom(path: string, p: seq<string>): string
    decreases |p|
  {
    if p == [] then path else JoinFrom(GroupPaths.Longer(path, p[0]), p[1..])
  }

  function Reported(path: string, found: seq<RefAt>): seq<RefPath> {
    if found == [] then []
    else [RefPath(JoinFrom(path, found[0].position), found[0].ref)] + Reported(path, found[1..])
  }

  lemma {:induction false} ReportedHead(path: string, r: RefAt, rest: seq<RefAt>)
    ensures Reported(path, [r] + rest) == [RefPath(JoinFrom(path, r.position), r.ref)] + Reported(path, rest)
  {
    assert ([r] + rest)[1..] == rest;
  }

  lemma {:induction false} ReportedAppend(path: string, a: seq<RefAt>, b: seq<RefAt>)
    ensures Reported(path, a + b) == Reported(path, a) + Reported(path, b)
  {
    if a == [] {
      assert a + b == b;
    } else {
      ReportedAppend(path, a[1..], b);
      ReportedHead(path, a[0], a[1..] + b);
      assert a + b == [a[0]] + (a[1..] + b);
      Pushed([RefPath(JoinFrom(path, a[0].position), a[0].ref)], Reported(path, a[1..]), Reported(path, b));
    }
  }

  lemma {:induction false} ReportedBelow(path: string, key: string, found: seq<RefAt>)
    ensures Reported(path, Below(key, found)) == Reported(GroupPaths.Longer(path, key), found)
  {
    if found != [] {
      ReportedBelow(path, key, found[1..]);
      assert ([key] + found[0].position)[1..] == found[0].position;
      assert Below(key, found)[1..] == Below(key, found[1..]);
    }
  }

  /** `RefPathFinder.find`: the findings are pushed onto the list handed in. */
  method Find(v: Json, currentPath: string, paths: seq<RefPath>) returns (found: seq<RefPath>)
    ensures found == paths + Reported(currentPath, RefsIn(v))
    decreases v, 1
  {
    found := paths;
    if v.JArr? {
      found := ProcessArray(v.items, currentPath, found);
    } else if v.JObj? {
      ObjectFirst(v, currentPath);
      if HasRef(v) {
        found := found + [RefPath(currentPath, Get(v.members, REF))];
      }
      found := ProcessObjectProperties(v.members, currentPath, found);
    }
  }

  /** What is still to be pushed when the loop stands at `i`. */
  ghost function ItemsToCome(items: seq<Json>, i: nat, path: string): seq<RefPath>
    requires i <= |items|
  {
    Reported(path, RefsInItems(items[i..], i))
  }

  ghost function MembersToCome(ms: seq<Member>, i: nat, path: string): seq<RefPath>
    requires i <= |ms|
  {
    Reported(path, RefsInMembers(ms[i..]))
  }

  /** Pushing the next findings moves them from what is to come to what is found. */
  lemma {:induction false} Pushed(found: seq<RefPath>, next: seq<RefPath>, later: seq<RefPath>)
    ensures found + (next + later) == found + next + later
  {}

  lemma {:induction false} NoneToCome(items: seq<Json>, ms: seq<Member>, path: string)
    ensures ItemsToCome(items, |items|, path) == [] && MembersToCome(ms, |ms|, path) == []
    ensures ItemsToCome(items, 0, path) == Reported(path, RefsInItems(items, 0))
    ensures MembersToCome(ms, 0, path) == Reported(path, RefsInMembers(ms))
  {
    assert items[0..] == items && ms[0..] == ms;
  }

  method ProcessArray(items: seq<Json>, currentPath: string, paths: seq<RefPath>) returns (found: seq<RefPath>)
    ensures found == paths + Reported(currentPath, RefsInItems(items, 0))
    decreases items, 0
  {
    found := paths;
    NoneToCome(items, [], currentPath);
    for i := 0 to |items|
      invariant found + ItemsToCome(items, i, currentPath) == paths + Reported(currentPath, RefsInItems(items, 0))
    {
      ItemStep(items, i, currentPath);
      var path := GroupPaths.Longer(currentPath, Dec(i));
      Pushed(found, Reported(path, RefsIn(items[i])), ItemsToCome(items, i + 1, currentPath));
      found := Find(items[i], path, found);
    }
  }

  method ProcessObjectProperties(members: seq<Member>, currentPath: string, paths: seq<RefPath>)
      returns (found: seq<RefPath>)
    ensures found == paths + Reported(currentPath, RefsInMembers(members))
    decreases members, 0
  {
    found := paths;
    NoneToCome([], members, currentPath);
    for i := 0 to |members|
      invariant found + MembersToCome(members, i, currentPath) == paths + Reported(currentPath, RefsInMembers(members))
    {
      MemberStep(members, i, currentPath);
      var path := GroupPaths.Longer(currentPath, members[i].key);
      if IsObject(members[i].value) {
        Pushed(found, Reported(path, RefsIn(members[i].value)), MembersToCome(members, i + 1, currentPath));
        found := Find(members[i].value, path, found);
      }
    }
  }

  lemma {:induction false} ItemStep(items: seq<Json>, i: nat, path: string)
    requires i < |items|
    ensures ItemsToCome(items, i, path)
         == Reported(GroupPaths.Longer(path, Dec(i)), RefsIn(items[i])) + ItemsToCome(items, i + 1, path)
  {
    assert items[i..][0] == items[i] && items[i..][1..] == items[i + 1..];
    ReportedBelow(path, Dec(i), RefsIn(items[i]));
    ReportedAppend(path, Below(Dec(i), RefsIn(items[i])), RefsInItems(items[i + 1..], i + 1));
  }

  lemma {:induction false} MemberStep(ms: seq<Member>, i: nat, path: string)
    requires i < |ms|
    ensures MembersToCome(ms, i, path)
         == Reported(GroupPaths.Longer(path, ms[i].key), RefsIn(ms[i].value)) + MembersToCome(ms, i + 1, path)
    ensures !IsObject(ms[i].value) ==> MembersToCome(ms, i, path) == MembersToCome(ms, i + 1, path)
  {
    assert ms[i..][0] == ms[i] && ms[i..][1..] == ms[i + 1..];
    ReportedBelow(path, ms[i].key, RefsIn(ms[i].value));
    ReportedAppend(path, Below(ms[i].key, RefsIn(ms[i].value)), RefsInMembers(ms[i + 1..]));
  }

  lemma {:induction false} ObjectFirst(v: Json, path: string)
    requires v.JObj?
    ensures Reported(path, RefsIn(v))
         == (if HasRef(v) then [RefPath(path, Get(v.members, REF))] else []) + Reported(path, RefsInMembers(v.members))
  {
    var own := if HasRef(v) then [RefAt([], Get(v.members, REF))] else [];
    ReportedAppend(path, own, RefsInMembers(v.members));
    if HasRef(v) {
      assert own[1..] == [];
    }
  }

  /** `getObjectAtPath`: the empty path is the root, any other is split at its dots. */
  function GetObjectAtPath(v: Json, path: string): Json {
    if path == "" then v else Descend(v, GroupPaths.Split(path))
  }

  ghost predicate Segment(s: string) {
    s != "" && forall i :: 0 <= i < |s| ==> s[i] != '.'
  }

  lemma {:induction false} SplitFirst(s: string, rest: string)
    requires Segment(s)
    ensures GroupPaths.FirstDot(s + "." + rest) == |s| && GroupPaths.FirstDot(s) == |s|
  {
    var t := s + "." + rest;
    var d := GroupPaths.FirstDot(t);
    assert t[|s|] == '.';
    assert d <= |s| by { GroupPaths.DotAt(t, |s|); }
  }

  /** What follows a joined path: its segments, dot by dot. */
  ghost function Dotted(p: seq<string>): string {
    if p == [] then "" else "." + p[0] + Dotted(p[1..])
  }

  lemma {:induction false} JoinDotted(path: string, p: seq<string>)
    requires path != "" && forall i :: 0 <= i < |p| ==> Segment(p[i])
    ensures JoinFrom(path, p) == path + Dotted(p)
    decreases |p|
  {
    if p == [] {
      assert path + "" == path;
    } else {
      JoinDotted(GroupPaths.Longer(path, p[0]), p[1..]);
      assert path + "." + p[0] + Dotted(p[1..]) == path + ("." + p[0] + Dotted(p[1..]));
    }
  }

  lemma {:induction false} SplitOne(s: string, rest: string)
    requires Segment(s)
    ensures GroupPaths.Split(s + "." + rest) == [s] + GroupPaths.Split(rest)
  {
    SplitFirst(s, rest);
    assert (s + "." + rest)[|s| + 1..] == rest && (s + "." + rest)[..|s|] == s;
  }

  lemma {:induction false} DottedHead(s: string, p: seq<string>)
    requires p != []
    ensures s + Dotted(p) == s + "." + (p[0] + Dotted(p[1..]))
  {}

  lemma {:induction false} SplitDotted(s: string, p: seq<string>)
    requires Segment(s) && forall i :: 0 <= i < |p| ==> Segment(p[i])
    ensures GroupPaths.Split(s + Dotted(p)) == [s] + p
    decreases |p|
  {
    if p == [] {
      SplitFirst(s, "");
      assert s + "" == s;
    } else {
      DottedHead(s, p);
      SplitOne(s, p[0] + Dotted(p[1..]));
      SplitDotted(p[0], p[1..]);
      assert p == [p[0]] + p[1..];
    }
  }

  /** Splitting a reported path gives the position back. */
  lemma {:induction false} SplitJoined(p: seq<string>)
    requires p != [] && forall i :: 0 <= i < |p| ==> Segment(p[i])
    ensures GroupPaths.Split(JoinFrom("", p)) == p && JoinFrom("", p) != ""
  {
    JoinDotted(p[0], p[1..]);
    SplitDotted(p[0], p[1..]);
    assert p == [p[0]] + p[1..];
  }

  /** Keys that survive the dotted form: non-empty and without dots. */
  predicate PlainKeys(v: Json) {
    match v
    case JArr(items) => forall i :: 0 <= i < |items| ==> PlainKeys(items[i])
    case JObj(members) => forall i :: 0 <= i < |members| ==>
      members[i].key != "" && '.' !in members[i].key && PlainKeys(members[i].value)
    case _ => true
  }

  lemma {:induction false} PositionsArePlain(v: Json, r: RefAt)
    requires PlainKeys(v) && r in RefsIn(v)
    ensures forall i :: 0 <= i < |r.position| ==> Segment(r.position[i])
    decreases v, 1
  {
    if v.JArr? {
      ItemPositionsPlain(v.items, 0, r);
    } else if v.JObj? && r in RefsInMembers(v.members) {
      MemberPositionsPlain(v.members, r);
    }
  }

  lemma {:induction false} BelowPlain(key: string, p: seq<string>)
    requires Segment(key) && p != [] && p[0] == key && forall i :: 0 <= i < |p[1..]| ==> Segment(p[1..][i])
    ensures forall i :: 0 <= i < |p| ==> Segment(p[i])
  {
    assert forall i :: 1 <= i < |p| ==> p[i] == p[1..][i - 1];
  }

  lemma {:induction false} ItemPositionsPlain(items: seq<Json>, i: nat, r: RefAt)
    requires (forall k :: 0 <= k < |items| ==> PlainKeys(items[k])) && r in RefsInItems(items, i)
    ensures forall k :: 0 <= k < |r.position| ==> Segment(r.position[k])
    decreases items, 0
  {
    if r in Below(Dec(i), RefsIn(items[0])) {
      BelowMembers(Dec(i), RefsIn(items[0]));
      PositionsArePlain(items[0], RefAt(r.position[1..], r.ref));
      DecDigits(i);
      assert Segment(Dec(i)) by {
        assert forall k :: 0 <= k < |Dec(i)| ==> IsDigit(Dec(i)[k]);
      }
      BelowPlain(Dec(i), r.position);
    } else {
      ItemPositionsPlain(items[1..], i + 1, r);
    }
  }

  lemma {:induction false} MemberPositionsPlain(ms: seq<Member>, r: RefAt)
    requires forall k :: 0 <= k < |ms| ==> ms[k].key != "" && '.' !in ms[k].key && PlainKeys(ms[k].value)
    requires r in RefsInMembers(ms)
    ensures forall k :: 0 <= k < |r.position| ==> Segment(r.position[k])
    decreases ms, 0
  {
    if r in Below(ms[0].key, RefsIn(ms[0].value)) {
      BelowMembers(ms[0].key, RefsIn(ms[0].value));
      PositionsArePlain(ms[0].value, RefAt(r.position[1..], r.ref));
      BelowPlain(ms[0].key, r.position);
    } else {
      MemberPositionsPlain(ms[1..], r);
    }
  }

  /** Looking a reported path up returns the object that was found there. */
  lemma {:induction false} LookupFinds(v: Json, r: RefAt)
    requires DistinctKeys(v) && PlainKeys(v) && r in RefsIn(v)
    ensures var o := GetObjectAtPath(v, JoinFrom("", r.position));
      o == Descend(v, r.position) && HasRef(o) && Get(o.members, REF) == r.ref
  {
    RefsExact(v, r);
    PositionsArePlain(v, r);
    if r.position != [] {
      SplitJoined(r.position);
    }
  }
}
