/** `buildLogsBloom`: the 2048-bit bloom filter M3:2048 of the Ethereum Yellow Paper, section 4. */
module LogsBloom {
  const BYTE_SIZE := 256

  /** A hash of 32 bytes; keccak256 in the source. */
  ghost predicate IsHash(h: string -> seq<nat>) {
    forall x :: |h(x)| == 32 && forall i :: 0 <= i < 32 ==> h(x)[i] < 256
  }

  /** The i-th location: the low 11 bits of the i-th pair of hash bytes. */
  function Location(h: string -> seq<nat>, item: string, i: nat): (loc: nat)
    requires IsHash(h) && i < 3
    ensures loc < 2048
  {
    (h(item)[2 * i] * 256 + h(item)[2 * i + 1]) % 2048
  }

  function Bit(k: nat): bv8
    requires k < 8
  {
    [1, 2, 4, 8, 16, 32, 64, 128][k]
  }

  predicate HasBit(b: bv8, k: nat)
    requires k < 8
  {
    b & Bit(k) != 0
  }

  /** Bit `loc`, counted from the least significant bit of the last byte. */
  predicate IsSet(bytes: seq<bv8>, loc: nat)
    requires |bytes| == BYTE_SIZE && loc < 2048
  {
    HasBit(bytes[ByteOf(loc)], loc % 8)
  }

  /** The first `n` of an item's three locations. */
  ghost function ItemLocations(h: string -> seq<nat>, item: string, n: nat): set<nat>
    requires IsHash(h) && n <= 3
  {
    if n == 0 then {} else ItemLocations(h, item, n - 1) + {Location(h, item, n - 1)}
  }

  ghost function Locations(h: string -> seq<nat>, items: seq<string>): set<nat>
    requires IsHash(h)
  {
    if items == [] then {}
    else
      var last := items[|items| - 1];
      Locations(h, items[..|items| - 1]) + ItemLocations(h, last, 3)
  }

  ghost predicate Holds(bytes: seq<bv8>, locs: set<nat>) {
    |bytes| == BYTE_SIZE && forall loc :: 0 <= loc < 2048 ==> (IsSet(bytes, loc) <==> loc in locs)
  }

  lemma {:induction false} SetMask(b: bv8, m: bv8, n: bv8)
    requires m != 0 && (m == n || m & n == 0)
    ensures (b | m) & n != 0 <==> b & n != 0 || m == n
  {}

  lemma {:induction false} Masks(j: nat, k: nat)
    requires j < 8 && k < 8
    ensures Bit(j) != 0 && (j == k <==> Bit(j) == Bit(k)) && (j != k ==> Bit(j) & Bit(k) == 0)
  {}

  lemma {:induction false} SetOne(b: bv8, j: nat, k: nat)
    requires j < 8 && k < 8
    ensures HasBit(b | Bit(j), k) <==> HasBit(b, k) || j == k
  {
    Masks(j, k);
    SetMask(b, Bit(j), Bit(k));
  }

  lemma {:induction false} ByteChange(bytes: seq<bv8>, at: nat, j: nat, at': nat, k: nat)
    requires at < |bytes| && at' < |bytes| && j < 8 && k < 8
    ensures HasBit(bytes[at := bytes[at] | Bit(j)][at'], k) <==> HasBit(bytes[at'], k) || (at == at' && j == k)
  {
    SetOne(bytes[at], j, k);
  }

  /** The byte a location lies in. */
  function ByteOf(loc: nat): (at: nat)
    requires loc < 2048
    ensures at < BYTE_SIZE
  {
    BYTE_SIZE - loc / 8 - 1
  }

  lemma {:induction false} SamePlace(l: nat, loc: nat)
    requires l < 2048 && loc < 2048
    ensures l == loc <==> ByteOf(l) == ByteOf(loc) && l % 8 == loc % 8
  {}

  lemma {:induction false} SetIn(bytes: seq<bv8>, after: seq<bv8>, loc: nat, l: nat)
    requires |bytes| == |after| == BYTE_SIZE && loc < 2048 && l < 2048
    requires after == bytes[ByteOf(loc) := bytes[ByteOf(loc)] | Bit(loc % 8)]
    ensures IsSet(after, l) <==> IsSet(bytes, l) || l == loc
  {
    SamePlace(l, loc);
    ByteChange(bytes, ByteOf(loc), loc % 8, ByteOf(l), l % 8);
  }

  /** Or-ing one bit in sets that location and no other. */
  lemma {:induction false} SetLocation(bytes: seq<bv8>, after: seq<bv8>, locs: set<nat>, loc: nat)
    requires Holds(bytes, locs) && loc < 2048 && after == bytes[ByteOf(loc) := bytes[ByteOf(loc)] | Bit(loc % 8)]
    ensures Holds(after, locs + {loc})
  {
    forall l | 0 <= l < 2048 ensures IsSet(after, l) <==> l in locs + {loc} {
      SetIn(bytes, after, loc, l);
    }
  }

  /** The inner loop: three bits for one item, or-ed in in place. */
  method AddItem(bitvector: array<bv8>, h: string -> seq<nat>, item: string, ghost locs: set<nat>)
    requires IsHash(h) && bitvector.Length == BYTE_SIZE && Holds(bitvector[..], locs)
    modifies bitvector
    ensures Holds(bitvector[..], locs + ItemLocations(h, item, 3))
  {
    assert locs + ItemLocations(h, item, 0) == locs;
    for i := 0 to 3
      invariant Holds(bitvector[..], locs + ItemLocations(h, item, i))
    {
      var loc := Location(h, item, i);
      OrIn(bitvector, loc, locs + ItemLocations(h, item, i));
      OneMoreLocation(h, item, i, locs);
    }
  }

  lemma {:induction false} OneMoreLocation(h: string -> seq<nat>, item: string, i: nat, locs: set<nat>)
    requires IsHash(h) && i < 3
    ensures locs + ItemLocations(h, item, i + 1) == locs + ItemLocations(h, item, i) + {Location(h, item, i)}
  {}

  method OrIn(bitvector: array<bv8>, loc: nat, ghost locs: set<nat>)
    requires bitvector.Length == BYTE_SIZE && loc < 2048 && Holds(bitvector[..], locs)
    modifies bitvector
    ensures Holds(bitvector[..], locs + {loc})
  {
    bitvector[ByteOf(loc)] := bitvector[ByteOf(loc)] | Bit(loc % 8);
    SetLocation(old(bitvector[..]), bitvector[..], locs, loc);
  }

  method BuildLogsBloom(h: string -> seq<nat>, address: string, topics: seq<string>) returns (bitvector: array<bv8>)
    requires IsHash(h)
    ensures fresh(bitvector) && bitvector.Length == BYTE_SIZE
    ensures Holds(bitvector[..], if address == "" || topics == [] then {} else Locations(h, [address] + topics))
    ensures forall loc :: 0 <= loc < 2048 ==>
      (BitIsOn(bitvector[..], loc) <==> address != "" && topics != [] && exists x <- [address] + topics :: Points(h, x, loc))
  {
    bitvector := new bv8[BYTE_SIZE](_ => 0);
    ZeroHoldsNothing(bitvector[..]);
    BitsMean(bitvector[..], {});
    if address == "" || topics == [] {
      return;
    }
    var items := [address] + topics;
    for k := 0 to |items|
      invariant Holds(bitvector[..], Locations(h, items[..k]))
    {
      assert items[..k + 1][..k] == items[..k];
      AddItem(bitvector, h, items[k], Locations(h, items[..k]));
    }
    assert items[..|items|] == items;
    BitsMean(bitvector[..], Locations(h, items));
    forall loc: nat ensures loc in Locations(h, items) <==> exists x <- items :: Points(h, x, loc) {
      LocationsMean(h, items, loc);
    }
  }

  // ---------- in plain bits ----------

  /** Bit number `loc`, where bit 0 is the lowest one of the last byte. */
  ghost predicate BitIsOn(bytes: seq<bv8>, loc: int)
    requires |bytes| == 256 && 0 <= loc < 2048
  {
    bytes[255 - loc / 8] & ((1 as bv8) << (loc % 8)) != 0
  }

  /** One of the first three pairs of hash bytes of the item, taken modulo 2048, is `loc`. */
  ghost predicate Points(h: string -> seq<nat>, item: string, loc: int)
    requires IsHash(h)
  {
    exists i :: 0 <= i < 3 && loc == (h(item)[2 * i] * 256 + h(item)[2 * i + 1]) % 2048
  }

  lemma {:induction false} BitIsShift(k: nat)
    requires k < 8
    ensures Bit(k) == (1 as bv8) << k
  {
    if k == 0 {
    } else if k == 1 {
    } else if k == 2 {
    } else if k == 3 {
    } else if k == 4 {
    } else if k == 5 {
    } else if k == 6 {
    } else {
      assert k == 7;
    }
  }

  lemma {:induction false} SetIsOn(bytes: seq<bv8>, loc: nat)
    requires |bytes| == 256 && loc < 2048
    ensures IsSet(bytes, loc) <==> BitIsOn(bytes, loc)
  {
    BitIsShift(loc % 8);
  }

  lemma {:induction false} BitsMean(bytes: seq<bv8>, locs: set<nat>)
    requires Holds(bytes, locs)
    ensures forall loc :: 0 <= loc < 2048 ==> (BitIsOn(bytes, loc) <==> loc in locs)
  {
    forall loc: nat | loc < 2048 ensures BitIsOn(bytes, loc) <==> loc in locs {
      SetIsOn(bytes, loc);
    }
  }

  lemma {:induction false} NamesPoints(h: string -> seq<nat>, item: string, loc: nat)
    requires IsHash(h)
    ensures Names(h, item, loc) <==> Points(h, item, loc)
  {
    assert Location(h, item, 0) == (h(item)[2 * 0] * 256 + h(item)[2 * 0 + 1]) % 2048;
    assert Location(h, item, 1) == (h(item)[2 * 1] * 256 + h(item)[2 * 1 + 1]) % 2048;
    assert Location(h, item, 2) == (h(item)[2 * 2] * 256 + h(item)[2 * 2 + 1]) % 2048;
  }

  lemma {:induction false} LocationsMean(h: string -> seq<nat>, items: seq<string>, loc: nat)
    requires IsHash(h)
    ensures loc in Locations(h, items) <==> exists x <- items :: Points(h, x, loc)
  {
    LocationsExact(h, items, loc);
    forall x | x in items ensures Names(h, x, loc) <==> Points(h, x, loc) {
      NamesPoints(h, x, loc);
    }
  }

  lemma {:induction false} ZeroHoldsNothing(bytes: seq<bv8>)
    requires |bytes| == BYTE_SIZE && forall i :: 0 <= i < BYTE_SIZE ==> bytes[i] == 0
    ensures Holds(bytes, {})
  {}

  /** A location is set iff one of the three locations of some item names it. */
  lemma {:induction false} LocationsExact(h: string -> seq<nat>, items: seq<string>, loc: nat)
    requires IsHash(h)
    ensures loc in Locations(h, items) <==> exists item <- items :: Names(h, item, loc)
  {
    if items != [] {
      var init, last := items[..|items| - 1], items[|items| - 1];
      assert items == init + [last];
      LocationsExact(h, init, loc);
      assert ItemLocations(h, last, 1) == {Location(h, last, 0)} by { assert ItemLocations(h, last, 0) == {}; }
      assert ItemLocations(h, last, 2) == {Location(h, last, 0), Location(h, last, 1)};
      assert loc in ItemLocations(h, last, 3) <==> Names(h, last, loc);
      assert last in items && forall x <- init :: x in items;
    }
  }

  ghost predicate Names(h: string -> seq<nat>, item: string, loc: nat)
    requires IsHash(h)
  {
    loc == Location(h, item, 0) || loc == Location(h, item, 1) || loc == Location(h, item, 2)
  }

  /** The bits determine the bytes. */
  lemma {:induction false} BitsDetermine(a: seq<bv8>, b: seq<bv8>, locs: set<nat>)
    requires Holds(a, locs) && Holds(b, locs)
    ensures a == b
  {
    forall i | 0 <= i < BYTE_SIZE ensures a[i] == b[i] {
      var base := (BYTE_SIZE - 1 - i) * 8;
      forall k | 0 <= k < 8 ensures HasBit(a[i], k) <==> HasBit(b[i], k) {
        assert (base + k) / 8 == BYTE_SIZE - 1 - i && (base + k) % 8 == k;
        assert IsSet(a, base + k) <==> IsSet(b, base + k);
      }
      SameByte(a[i], b[i]);
    }
  }

  predicate SameUnder(x: bv8, y: bv8, m: bv8) {
    x & m == y & m
  }

  lemma {:induction false} SameBit(x: bv8, y: bv8, k: nat)
    requires k < 8 && (HasBit(x, k) <==> HasBit(y, k))
    ensures SameUnder(x, y, Bit(k))
  {}

  lemma {:induction false} SameMasks(x: bv8, y: bv8)
    requires SameUnder(x, y, 1) && SameUnder(x, y, 2) && SameUnder(x, y, 4) && SameUnder(x, y, 8)
    requires SameUnder(x, y, 16) && SameUnder(x, y, 32) && SameUnder(x, y, 64) && SameUnder(x, y, 128)
    ensures x == y
  {}

  lemma {:induction false} SameByte(x: bv8, y: bv8)
    requires forall k :: 0 <= k < 8 ==> (HasBit(x, k) <==> HasBit(y, k))
    ensures x == y
  {
    forall k | 0 <= k < 8 ensures SameUnder(x, y, Bit(k)) {
      SameBit(x, y, k);
    }
    assert SameUnder(x, y, Bit(0)) && SameUnder(x, y, Bit(1)) && SameUnder(x, y, Bit(2)) && SameUnder(x, y, Bit(3));
    assert SameUnder(x, y, Bit(4)) && SameUnder(x, y, Bit(5)) && SameUnder(x, y, Bit(6)) && SameUnder(x, y, Bit(7));
    SameMasks(x, y);
  }

  /** The order and repetition of topics do not matter. */
  lemma {:induction false} OrderDoesNotMatter(h: string -> seq<nat>, items: seq<string>, items': seq<string>, a: seq<bv8>, b: seq<bv8>)
    requires IsHash(h) && (forall x :: x in items <==> x in items')
    requires Holds(a, Locations(h, items)) && Holds(b, Locations(h, items'))
    ensures a == b
  {
    forall loc | 0 <= loc < 2048 ensures loc in Locations(h, items) <==> loc in Locations(h, items') {
      LocationsExact(h, items, loc);
      LocationsExact(h, items', loc);
    }
    assert Holds(b, Locations(h, items));
    BitsDetermine(a, b, Locations(h, items));
  }

  /** The bloom of two topic lists together is the bitwise or of their blooms. */
  lemma {:induction false} ConcatenationIsOr(h: string -> seq<nat>, address: string, s: seq<string>, t: seq<string>,
                                             a: seq<bv8>, b: seq<bv8>, c: seq<bv8>)
    requires IsHash(h)
    requires Holds(a, Locations(h, [address] + s)) && Holds(b, Locations(h, [address] + t))
    requires Holds(c, Locations(h, [address] + (s + t)))
    ensures c == seq(BYTE_SIZE, i requires 0 <= i < BYTE_SIZE => a[i] | b[i])
  {
    var or := seq(BYTE_SIZE, i requires 0 <= i < BYTE_SIZE => a[i] | b[i]);
    var all := Locations(h, [address] + (s + t));
    forall loc | 0 <= loc < 2048 ensures IsSet(or, loc) <==> loc in all {
      UnionOfItems(h, address, s, t, loc);
      OrIsSet(a, b, or, loc);
    }
    BitsDetermine(c, or, all);
  }

  lemma {:induction false} UnionOfItems(h: string -> seq<nat>, address: string, s: seq<string>, t: seq<string>, loc: nat)
    requires IsHash(h)
    ensures loc in Locations(h, [address] + (s + t)) <==>
      loc in Locations(h, [address] + s) || loc in Locations(h, [address] + t)
  {
    LocationsExact(h, [address] + s, loc);
    LocationsExact(h, [address] + t, loc);
    LocationsExact(h, [address] + (s + t), loc);
    assert forall x :: x in [address] + (s + t) <==> x in [address] + s || x in [address] + t;
  }

  lemma {:induction false} OrIsSet(a: seq<bv8>, b: seq<bv8>, or: seq<bv8>, loc: nat)
    requires |a| == |b| == |or| == BYTE_SIZE && loc < 2048
    requires forall i :: 0 <= i < BYTE_SIZE ==> or[i] == a[i] | b[i]
    ensures IsSet(or, loc) <==> IsSet(a, loc) || IsSet(b, loc)
  {
    OrHasBit(a[ByteOf(loc)], b[ByteOf(loc)], loc % 8);
  }

  lemma {:induction false} OrHasBit(x: bv8, y: bv8, k: nat)
    requires k < 8
    ensures HasBit(x | y, k) <==> HasBit(x, k) || HasBit(y, k)
  {
    OrBit(x, y, Bit(k));
  }

  lemma {:induction false} OrBit(x: bv8, y: bv8, m: bv8)
    ensures (x | y) & m != 0 <==> x & m != 0 || y & m != 0
  {}
}
