/**
 The earlier, sparse draft of the engine: a board is a list of live
 coordinates plus a clock, and the neighbourhood of a cell wraps around a
 torus whose side is the constant 10, whatever the board's own size.
 */
module SparseDraft {

  /** The side of the torus neighbour lookups wrap on. It is fixed and does
      not follow the board's `n`. */
  const WrapSize: int := 10

  datatype Coordinates = Coordinates(x: int, y: int)

  datatype Board = Board(alive: seq<Coordinates>, clock: int, n: int)

  /** The neighbour index: for each x, the y of every neighbour entry with
      that x, in visiting order and with repeats. */
  type NeighborMap = map<int, seq<int>>

  /* ----------------------------------------------------------------------
     Coordinates
     ---------------------------------------------------------------------- */

  function NewCoordinates(x: int, y: int): (c: Coordinates)
    ensures c.x == x && c.y == y
  {
    Coordinates(x, y)
  }

  /** Euclidean remainder by the wrap size: always in [0, 10), and congruent to `v`. */
  function Wrap(v: int): (w: int)
    ensures 0 <= w < WrapSize
    ensures (v - w) % WrapSize == 0
  {
    v % WrapSize
  }

  /** `v` splits into a multiple of the wrap size plus its wrapped value. */
  lemma WrapSplit(v: int)
    ensures v == (v / WrapSize) * WrapSize + Wrap(v)
  {
  }

  /** The value Wrap gives is the only one in [0, 10) that differs from `v` by
      a multiple of the wrap size. */
  lemma WrapOf(v: int, q: int, r: int)
    requires v == q * WrapSize + r && 0 <= r < WrapSize
    ensures Wrap(v) == r
  {
    WrapSplit(v);
  }

  /** The 3×3 block around `c`, centre included, wrapped onto the torus: the
      column offset varies fastest, the row offset slowest. */
  function NeighborList(c: Coordinates): (r: seq<Coordinates>)
    ensures |r| == 9
  {
    seq(9, k requires 0 <= k < 9 => Coordinates(Wrap(c.x + k % 3 - 1), Wrap(c.y + k / 3 - 1)))
  }

  /** Builds the 3×3 block around `c` row offset by row offset, column offset
      by column offset, wrapping each component. */
  method Neighbors(c: Coordinates) returns (res: seq<Coordinates>)
    ensures |res| == 9
    ensures forall k :: 0 <= k < 9 ==>
      res[k] == Coordinates(Wrap(c.x + k % 3 - 1), Wrap(c.y + k / 3 - 1))
    ensures res == NeighborList(c)
  {
    res := [];
    var i := -1;
    while i < 2
      invariant -1 <= i <= 2
      invariant |res| == 3 * (i + 1)
      invariant forall k :: 0 <= k < |res| ==>
        res[k] == Coordinates(Wrap(c.x + k % 3 - 1), Wrap(c.y + k / 3 - 1))
    {
      var j := -1;
      while j < 2
        invariant -1 <= j <= 2
        invariant |res| == 3 * (i + 1) + (j + 1)
        invariant forall k :: 0 <= k < |res| ==>
          res[k] == Coordinates(Wrap(c.x + k % 3 - 1), Wrap(c.y + k / 3 - 1))
      {
        res := res + [NewCoordinates(Wrap(c.x + j), Wrap(c.y + i))];
        j := j + 1;
      }
      i := i + 1;
    }
  }

  /** Every entry of the block lies on the 10×10 torus. */
  lemma NeighborListInRange(c: Coordinates)
    ensures forall d :: d in NeighborList(c) ==> 0 <= d.x < WrapSize && 0 <= d.y < WrapSize
  {
  }

  /** `w` is what wrapping v - 1, v or v + 1 gives. */
  predicate WrapsNear(v: int, w: int)
  {
    w == Wrap(v - 1) || w == Wrap(v) || w == Wrap(v + 1)
  }

  /** Wrapping v + s, for a step s of -1, 0 or 1, lands at distance s from
      `v`, taken modulo 10. */
  lemma WrapStepDistance(v: int, s: int)
    requires -1 <= s <= 1
    ensures Wrap(Wrap(v + s) - v) == Wrap(s)
  {
    WrapSplit(v + s);
    var q := (v + s) / WrapSize;
    var w := Wrap(v + s);
    assert w - v == s - q * WrapSize;
    if s == -1 {
      WrapOf(w - v, -q - 1, WrapSize - 1);
    } else {
      WrapOf(w - v, -q, s);
    }
  }

  /** A value on the torus at distance s from `v`, modulo 10, is what
      wrapping v + s gives. */
  lemma WrapDistanceStep(v: int, w: int, s: int)
    requires 0 <= w < WrapSize && -1 <= s <= 1 && Wrap(w - v) == Wrap(s)
    ensures w == Wrap(v + s)
  {
    WrapSplit(w - v);
    var p := (w - v) / WrapSize;
    if s == -1 {
      assert v + s == (-p - 1) * WrapSize + w;
      WrapOf(v + s, -p - 1, w);
    } else {
      assert v + s == -p * WrapSize + w;
      WrapOf(v + s, -p, w);
    }
  }

  /** The wrapped neighbours of a component are exactly the values on the torus
      whose distance to it, taken modulo 10, is 9, 0 or 1. */
  lemma WrapsNearIff(v: int, w: int)
    ensures WrapsNear(v, w) <==> (0 <= w < WrapSize && Wrap(w - v) in {0, 1, WrapSize - 1})
  {
    if WrapsNear(v, w) {
      var s := if w == Wrap(v - 1) then -1 else if w == Wrap(v) then 0 else 1;
      WrapStepDistance(v, s);
    }
    if 0 <= w < WrapSize && Wrap(w - v) in {0, 1, WrapSize - 1} {
      var s := if Wrap(w - v) == WrapSize - 1 then -1 else Wrap(w - v);
      WrapDistanceStep(v, w, s);
    }
  }

  /** Entry k of the block sits at column offset k % 3 - 1 and row offset k / 3 - 1. */
  lemma NeighborListEntry(c: Coordinates, k: int)
    requires 0 <= k < 9
    ensures WrapsNear(c.x, NeighborList(c)[k].x) && WrapsNear(c.y, NeighborList(c)[k].y)
  {
    assert -1 <= k % 3 - 1 <= 1 && -1 <= k / 3 - 1 <= 1;
  }

  /** Every entry of the block is made of wrapped neighbours of `c`'s components. */
  lemma BlockEntriesNear(c: Coordinates, d: Coordinates)
    requires d in NeighborList(c)
    ensures WrapsNear(c.x, d.x) && WrapsNear(c.y, d.y)
  {
    var k :| 0 <= k < 9 && NeighborList(c)[k] == d;
    NeighborListEntry(c, k);
  }

  /** Every pair of wrapped neighbours of `c`'s components is an entry of the
      block: the one at column offset s and row offset t. */
  lemma NearEntriesInBlock(c: Coordinates, d: Coordinates)
    requires WrapsNear(c.x, d.x) && WrapsNear(c.y, d.y)
    ensures d in NeighborList(c)
  {
    var s := if d.x == Wrap(c.x - 1) then -1 else if d.x == Wrap(c.x) then 0 else 1;
    var t := if d.y == Wrap(c.y - 1) then -1 else if d.y == Wrap(c.y) then 0 else 1;
    assert d == Coordinates(Wrap(c.x + s), Wrap(c.y + t));
    var k := 3 * (t + 1) + (s + 1);
    assert k % 3 - 1 == s && k / 3 - 1 == t;
    assert NeighborList(c)[k] == d;
  }

  /** A coordinate is in the block around `c` exactly when each component is
      one of the wrapped neighbours of `c`'s. */
  lemma NeighborListNear(c: Coordinates, d: Coordinates)
    ensures d in NeighborList(c) <==> WrapsNear(c.x, d.x) && WrapsNear(c.y, d.y)
  {
    if d in NeighborList(c) {
      BlockEntriesNear(c, d);
    }
    if WrapsNear(c.x, d.x) && WrapsNear(c.y, d.y) {
      NearEntriesInBlock(c, d);
    }
  }

  /** A coordinate is in the block around `c` exactly when it is on the torus
      and each component is within one step of `c`'s, modulo 10. */
  lemma NeighborListMembership(c: Coordinates, d: Coordinates)
    ensures d in NeighborList(c) <==>
      (0 <= d.x < WrapSize && Wrap(d.x - c.x) in {0, 1, WrapSize - 1} &&
       0 <= d.y < WrapSize && Wrap(d.y - c.y) in {0, 1, WrapSize - 1})
  {
    NeighborListNear(c, d);
    WrapsNearIff(c.x, d.x);
    WrapsNearIff(c.y, d.y);
  }

  /* ----------------------------------------------------------------------
     Board
     ---------------------------------------------------------------------- */

  /** A new board of side `n`: nothing alive, clock at 0. */
  function NewBoard(n: int): (b: Board)
    ensures b.n == n && b.clock == 0 && |b.alive| == 0
  {
    Board([], 0, n)
  }

  /** One clock step. Only the clock moves; the live cells stay as they are. */
  function Tick(b: Board): (b': Board)
    ensures b'.clock == b.clock + 1
    ensures b'.alive == b.alive && b'.n == b.n
  {
    b.(clock := b.clock + 1)
  }

  /** Replaces the live cells and nothing else. */
  function SetLivingCells(b: Board, alive: seq<Coordinates>): (b': Board)
    ensures b'.alive == alive
    ensures b'.clock == b.clock && b'.n == b.n
  {
    b.(alive := alive)
  }

  /* ----------------------------------------------------------------------
     The neighbour index
     ---------------------------------------------------------------------- */

  /** Every neighbour entry of every live cell, cell after cell, each cell's
      block in NeighborList order. */
  function Flat(alive: seq<Coordinates>): (ds: seq<Coordinates>)
    ensures |ds| == 9 * |alive|
  {
    if |alive| == 0 then [] else Flat(alive[..|alive| - 1]) + NeighborList(alive[|alive| - 1])
  }

  /** The y of every entry of `ds` whose x is `x`, in order. */
  function YsAt(ds: seq<Coordinates>, x: int): seq<int>
  {
    if |ds| == 0 then []
    else YsAt(ds[..|ds| - 1], x) + (if ds[|ds| - 1].x == x then [ds[|ds| - 1].y] else [])
  }

  /** The x components that occur in `ds`. */
  function XKeys(ds: seq<Coordinates>): set<int>
  {
    set d | d in ds :: d.x
  }

  /** The index built from a list of entries, declaratively: one key per x that
      occurs, mapped to the y's seen with it. */
  function NeighborIndex(ds: seq<Coordinates>): NeighborMap
  {
    map x | x in XKeys(ds) :: YsAt(ds, x)
  }

  /** The list under key `x`, or the empty list when `x` is absent. */
  function Lookup(m: NeighborMap, x: int): seq<int>
  {
    if x in m then m[x] else []
  }

  /** Adding one entry appends its y under its x, creating the key if needed,
      and leaves every other key alone. */
  lemma NeighborIndexSnoc(ds: seq<Coordinates>, d: Coordinates)
    ensures NeighborIndex(ds + [d]) ==
      NeighborIndex(ds)[d.x := Lookup(NeighborIndex(ds), d.x) + [d.y]]
  {
    var ds' := ds + [d];
    assert ds'[..|ds'| - 1] == ds;
    assert XKeys(ds') == XKeys(ds) + {d.x};
    var lhs := NeighborIndex(ds');
    var rhs := NeighborIndex(ds)[d.x := Lookup(NeighborIndex(ds), d.x) + [d.y]];
    assert lhs.Keys == rhs.Keys;
    forall x | x in lhs.Keys
      ensures lhs[x] == rhs[x]
    {
      if x == d.x && x !in XKeys(ds) {
        YsAtAbsent(ds, x);
      }
    }
  }

  /** An x that no entry carries has no y's. */
  lemma {:induction false} YsAtAbsent(ds: seq<Coordinates>, x: int)
    requires x !in XKeys(ds)
    ensures YsAt(ds, x) == []
  {
    if |ds| > 0 {
      var init := ds[..|ds| - 1];
      assert XKeys(init) <= XKeys(ds);
      YsAtAbsent(init, x);
    }
  }

  /** An x that has y's is carried by some entry. */
  lemma YsAtPresent(ds: seq<Coordinates>, x: int)
    requires YsAt(ds, x) != []
    ensures x in XKeys(ds)
  {
    if x !in XKeys(ds) {
      YsAtAbsent(ds, x);
    }
  }

  /** Multiplicity is kept: y occurs under key x as often as (x, y) occurs
      among the entries. */
  lemma {:induction false} YsAtCount(ds: seq<Coordinates>, x: int, y: int)
    ensures multiset(YsAt(ds, x))[y] == multiset(ds)[Coordinates(x, y)]
  {
    if |ds| > 0 {
      var init, last := ds[..|ds| - 1], ds[|ds| - 1];
      assert ds == init + [last];
      YsAtCount(init, x, y);
    }
  }

  /** Gathering the y's of two runs of entries is gathering each run's in turn. */
  lemma {:induction false} YsAtAppend(a: seq<Coordinates>, b: seq<Coordinates>, x: int)
    ensures YsAt(a + b, x) == YsAt(a, x) + YsAt(b, x)
    decreases |b|
  {
    if |b| > 0 {
      var init := b[..|b| - 1];
      assert (a + b)[..|a + b| - 1] == a + init;
      YsAtAppend(a, init, x);
    } else {
      assert a + b == a;
    }
  }

  lemma FlatSnoc(alive: seq<Coordinates>, i: int)
    requires 0 <= i < |alive|
    ensures Flat(alive[..i + 1]) == Flat(alive[..i]) + NeighborList(alive[i])
  {
    assert alive[..i + 1][..i] == alive[..i];
  }

  /** Every pair the index holds, with its multiplicity, comes from the entries. */
  lemma IndexMultiplicity(ds: seq<Coordinates>)
    ensures forall x, y :: multiset(Lookup(NeighborIndex(ds), x))[y] == multiset(ds)[Coordinates(x, y)]
  {
    forall x, y
      ensures multiset(Lookup(NeighborIndex(ds), x))[y] == multiset(ds)[Coordinates(x, y)]
    {
      if x !in XKeys(ds) {
        YsAtAbsent(ds, x);
      }
      YsAtCount(ds, x, y);
    }
  }

  /** A non-empty set has an element. */
  lemma NonEmpty(keys: set<int>)
    requires keys != {}
    ensures exists x :: x in keys
  {
    if forall y :: y !in keys {
      assert false;
    }
  }

  /** The total length of the lists stored under `keys`. */
  ghost function TotalLength(m: NeighborMap, keys: set<int>): nat
    requires keys <= m.Keys
    decreases keys
  {
    if keys == {} then 0
    else
      NonEmpty(keys);
      var x :| x in keys;
      |m[x]| + TotalLength(m, keys - {x})
  }

  /** Any key can be taken out first: the total does not depend on the order
      in which the keys are visited. */
  lemma {:induction false} TotalLengthRemove(m: NeighborMap, keys: set<int>, x: int)
    requires keys <= m.Keys && x in keys
    ensures TotalLength(m, keys) == |m[x]| + TotalLength(m, keys - {x})
    decreases keys
  {
    var y :| y in keys && TotalLength(m, keys) == |m[y]| + TotalLength(m, keys - {y});
    if y != x {
      TotalLengthRemove(m, keys - {y}, x);
      TotalLengthRemove(m, keys - {x}, y);
      assert keys - {y} - {x} == keys - {x} - {y};
    }
  }

  /** Two indexes whose lists have the same lengths under `keys` have the same total. */
  lemma {:induction false} TotalLengthAgree(m1: NeighborMap, m2: NeighborMap, keys: set<int>)
    requires keys <= m1.Keys && keys <= m2.Keys
    requires forall x :: x in keys ==> |m1[x]| == |m2[x]|
    ensures TotalLength(m1, keys) == TotalLength(m2, keys)
    decreases keys
  {
    if keys != {} {
      NonEmpty(keys);
      var x :| x in keys;
      TotalLengthRemove(m1, keys, x);
      TotalLengthRemove(m2, keys, x);
      TotalLengthAgree(m1, m2, keys - {x});
    }
  }

  /** The index holds exactly one y per entry: its lists' lengths add up to
      the number of entries. */
  lemma {:induction false} IndexTotalLength(ds: seq<Coordinates>)
    ensures TotalLength(NeighborIndex(ds), NeighborIndex(ds).Keys) == |ds|
  {
    if |ds| > 0 {
      var init, d := ds[..|ds| - 1], ds[|ds| - 1];
      assert ds == init + [d];
      IndexTotalLength(init);
      var m := NeighborIndex(init);
      NeighborIndexSnoc(init, d);
      var m' := NeighborIndex(ds);
      assert m' == m[d.x := Lookup(m, d.x) + [d.y]];
      TotalLengthRemove(m', m'.Keys, d.x);
      assert m'.Keys - {d.x} == m.Keys - {d.x};
      TotalLengthAgree(m', m, m.Keys - {d.x});
      if d.x in m {
        TotalLengthRemove(m, m.Keys, d.x);
      } else {
        assert m.Keys - {d.x} == m.Keys;
      }
    }
  }

  /** Adding the entries of `ns[..j + 1]` is adding those of `ns[..j]` and then `ns[j]`. */
  lemma IndexStep(done: seq<Coordinates>, ns: seq<Coordinates>, j: int)
    requires 0 <= j < |ns|
    ensures NeighborIndex(done + ns[..j + 1]) ==
      NeighborIndex(done + ns[..j])[ns[j].x := Lookup(NeighborIndex(done + ns[..j]), ns[j].x) + [ns[j].y]]
  {
    assert done + ns[..j + 1] == (done + ns[..j]) + [ns[j]];
    NeighborIndexSnoc(done + ns[..j], ns[j]);
  }

  /** The inner loop of the index builder: appends every entry of `ns`, in
      order, to an index that already holds `done`. */
  method AddEntries(m: NeighborMap, ghost done: seq<Coordinates>, ns: seq<Coordinates>)
    returns (neighbors: NeighborMap)
    requires m == NeighborIndex(done)
    ensures neighbors == NeighborIndex(done + ns)
  {
    neighbors := m;
    var j := 0;
    assert done + ns[..j] == done;
    while j < |ns|
      invariant 0 <= j <= |ns|
      invariant neighbors == NeighborIndex(done + ns[..j])
    {
      var neighbor := ns[j];
      ghost var before := neighbors;
      if neighbor.x !in neighbors {
        neighbors := neighbors[neighbor.x := []];
      }
      var yCoords := neighbors[neighbor.x];
      assert yCoords == Lookup(before, neighbor.x);
      neighbors := neighbors[neighbor.x := yCoords + [neighbor.y]];
      IndexStep(done, ns, j);
      j := j + 1;
    }
    assert ns[..j] == ns;
  }

  /** The outer loop of the index builder: adds the block of every live cell,
      cell after cell. */
  method AddBlocks(alive: seq<Coordinates>) returns (neighbors: NeighborMap)
    ensures neighbors == NeighborIndex(Flat(alive))
  {
    neighbors := map[];
    var i := 0;
    while i < |alive|
      invariant 0 <= i <= |alive|
      invariant neighbors == NeighborIndex(Flat(alive[..i]))
    {
      var ns := Neighbors(alive[i]);
      FlatSnoc(alive, i);
      neighbors := AddEntries(neighbors, Flat(alive[..i]), ns);
      i := i + 1;
    }
    assert alive[..i] == alive;
  }

  /** Builds the neighbour index of the board: for every live cell, for every
      entry of its block, append the entry's y under its x. */
  method GetNeighbors(b: Board) returns (neighbors: NeighborMap)
    ensures neighbors == NeighborIndex(Flat(b.alive))
    ensures neighbors.Keys == XKeys(Flat(b.alive))
    ensures TotalLength(neighbors, neighbors.Keys) == 9 * |b.alive|
  {
    neighbors := AddBlocks(b.alive);
    IndexTotalLength(Flat(b.alive));
  }
}
