/** The cube as a value: six faces keyed by label, with the shift protocol
    that carries a row or column around a 4-cycle of faces and the per-face
    quarter turn. */
module Cubes {
  import opened Topology
  import opened Faces

  /** The six faces, keyed by label (Cube.faces). */
  datatype Cube = Cube(faces: map<Label, Face>)

  /** Every label has a face of nine tiles, and only the back face is
      inverted. */
  predicate ValidCube(c: Cube)
  {
    forall x: Label :: x in c.faces && ValidFace(c.faces[x]) && c.faces[x].inverted == IsInverted(x)
  }

  function Get(c: Cube, x: Label): (f: Face)
    requires ValidCube(c)
    ensures ValidFace(f) && f.inverted == IsInverted(x)
  {
    c.faces[x]
  }

  function Set(c: Cube, x: Label, f: Face): (r: Cube)
    requires ValidCube(c) && ValidFace(f) && f.inverted == IsInverted(x)
    ensures ValidCube(r)
  {
    Cube(c.faces[x := f])
  }

  /** The order the cube lists its faces in: f, l, r, u, d, b. */
  const Order: seq<Label> := [Front, Left, Right, Up, Down, Back]

  /** The tiles of the listed faces, one face after the other. */
  function TilesOf(c: Cube, labels: seq<Label>): (t: seq<int>)
    requires ValidCube(c)
    ensures |t| == 9 * |labels|
    decreases |labels|
  {
    if |labels| == 0 then [] else Get(c, labels[0]).tiles + TilesOf(c, labels[1..])
  }

  /** All 54 tiles, faces in the order f, l, r, u, d, b. */
  function AllTiles(c: Cube): seq<int>
    requires ValidCube(c)
  {
    TilesOf(c, Order)
  }

  /** How often v occurs among the 54 tiles, face by face. */
  function FaceCounts(c: Cube, v: int): (n: nat)
    requires ValidCube(c)
  {
    multiset(Get(c, Front).tiles)[v] + multiset(Get(c, Left).tiles)[v] + multiset(Get(c, Right).tiles)[v]
      + multiset(Get(c, Up).tiles)[v] + multiset(Get(c, Down).tiles)[v] + multiset(Get(c, Back).tiles)[v]
  }

  lemma TilesOfFirst(c: Cube, labels: seq<Label>, v: int)
    requires ValidCube(c) && |labels| > 0
    ensures multiset(TilesOf(c, labels))[v]
         == multiset(Get(c, labels[0]).tiles)[v] + multiset(TilesOf(c, labels[1..]))[v]
  {
  }

  lemma AllTilesCount(c: Cube, v: int)
    requires ValidCube(c)
    ensures multiset(AllTiles(c))[v] == FaceCounts(c, v)
  {
    TilesOfFirst(c, Order, v);
    TilesOfFirst(c, Order[1..], v);
    TilesOfFirst(c, Order[2..], v);
    TilesOfFirst(c, Order[3..], v);
    TilesOfFirst(c, Order[4..], v);
    TilesOfFirst(c, Order[5..], v);
    assert Order[5..][1..] == [];
  }

  /** Replacing one face trades that face's tiles for the new face's. */
  lemma SetCount(c: Cube, x: Label, f: Face, v: int)
    requires ValidCube(c) && ValidFace(f) && f.inverted == IsInverted(x)
    ensures multiset(AllTiles(Set(c, x, f)))[v] + multiset(Get(c, x).tiles)[v]
         == multiset(AllTiles(c))[v] + multiset(f.tiles)[v]
  {
    AllTilesCount(c, v);
    AllTilesCount(Set(c, x, f), v);
  }

  lemma MultisetExtensionality(a: multiset<int>, b: multiset<int>)
    requires forall v :: a[v] == b[v]
    ensures a == b
  {
    assert forall v :: a[v] == b[v];
  }

  /** A sticker position: a face and a raw slot 0..8 on it. */
  datatype Pos = Pos(face: Label, slot: nat)

  predicate ValidPos(p: Pos)
  {
    p.slot < 9
  }

  function Tile(c: Cube, p: Pos): int
    requires ValidCube(c) && ValidPos(p)
  {
    Get(c, p.face).tiles[p.slot]
  }

  /** Two valid cubes showing the same tile at every position are equal. */
  lemma CubeExtensionality(a: Cube, b: Cube)
    requires ValidCube(a) && ValidCube(b)
    requires forall p: Pos | ValidPos(p) :: Tile(a, p) == Tile(b, p)
    ensures a == b
  {
    forall x: Label
      ensures a.faces[x] == b.faces[x]
    {
      forall k | 0 <= k < 9
        ensures Get(a, x).tiles[k] == Get(b, x).tiles[k]
      {
        assert Tile(a, Pos(x, k)) == Tile(b, Pos(x, k));
      }
      assert Get(a, x).tiles == Get(b, x).tiles;
    }
    assert a.faces == b.faces;
  }

  /** Exchange strip s of face y for v, handing back the strip that was
      there; the cube-level form of replaceRow / replaceColumn. */
  function ReplaceOn(c: Cube, y: Label, s: Strip, v: seq<int>): (r: (Cube, seq<int>))
    requires ValidCube(c) && ValidStrip(s) && |v| == 3
    ensures ValidCube(r.0)
  {
    var e := Replace(Get(c, y), s, v);
    (Set(c, y, e.0), e.1)
  }

  lemma ReplaceOnTrades(c: Cube, y: Label, s: Strip, v: seq<int>, x: int)
    requires ValidCube(c) && ValidStrip(s) && |v| == 3
    ensures multiset(AllTiles(ReplaceOn(c, y, s, v).0))[x] + multiset(ReplaceOn(c, y, s, v).1)[x]
         == multiset(AllTiles(c))[x] + multiset(v)[x]
  {
    ReplaceTrades(Get(c, y), s, v, x);
    SetCount(c, y, Replace(Get(c, y), s, v).0, x);
  }

  /** One exchange changes only the face it is made on and hands back that
      face's old strip. */
  lemma ReplaceOnGet(c: Cube, y: Label, s: Strip, v: seq<int>, x: Label)
    requires ValidCube(c) && ValidStrip(s) && |v| == 3
    ensures Get(ReplaceOn(c, y, s, v).0, x) == if x == y then Replace(Get(c, y), s, v).0 else Get(c, x)
    ensures ReplaceOn(c, y, s, v).1 == Read(Get(c, y), s)
  {
  }

  /** The exchange chain: carry is installed in the first listed face, the
      strip that face hands back is installed in the next one, and so on;
      the strip the last face hands back is returned with the cube. */
  function Chain(c: Cube, faces: seq<Label>, s: Strip, carry: seq<int>): (r: (Cube, seq<int>))
    requires ValidCube(c) && ValidStrip(s) && |carry| == 3
    ensures ValidCube(r.0) && |r.1| == 3
    decreases |faces|
  {
    if |faces| == 0 then (c, carry)
    else
      var e := ReplaceOn(c, faces[0], s, carry);
      Chain(e.0, faces[1..], s, e.1)
  }

  /** Along the whole chain no tile is created or lost: the cube plus the
      strip handed out at the end hold what the cube plus the strip put in
      held. */
  lemma {:induction false} ChainTrades(c: Cube, faces: seq<Label>, s: Strip, carry: seq<int>, v: int)
    requires ValidCube(c) && ValidStrip(s) && |carry| == 3
    ensures multiset(AllTiles(Chain(c, faces, s, carry).0))[v] + multiset(Chain(c, faces, s, carry).1)[v]
         == multiset(AllTiles(c))[v] + multiset(carry)[v]
    decreases |faces|
  {
    if |faces| > 0 {
      var e := ReplaceOn(c, faces[0], s, carry);
      ReplaceOnTrades(c, faces[0], s, carry, v);
      ChainTrades(e.0, faces[1..], s, e.1, v);
    }
  }

  /** shiftRow / shiftColumn over four faces a, b, e, g: a's strip is
      installed in b, the strip b hands back in e, the one e hands back in
      g, and the one g hands back in a. */
  function ShiftAlong(c: Cube, a: Label, b: Label, e: Label, g: Label, s: Strip): (r: Cube)
    requires ValidCube(c) && ValidStrip(s)
    ensures ValidCube(r)
  {
    var e1 := ReplaceOn(c, b, s, Read(Get(c, a), s));
    var e2 := ReplaceOn(e1.0, e, s, e1.1);
    var e3 := ReplaceOn(e2.0, g, s, e2.1);
    ReplaceOn(e3.0, a, s, e3.1).0
  }

  lemma ChainStep(c: Cube, faces: seq<Label>, s: Strip, carry: seq<int>)
    requires ValidCube(c) && ValidStrip(s) && |carry| == 3 && |faces| > 0
    ensures var e := ReplaceOn(c, faces[0], s, carry);
            Chain(c, faces, s, carry) == Chain(e.0, faces[1..], s, e.1)
  {
  }

  /** The four exchanges of the chain, one after the other. */
  lemma ChainUnrolled(c: Cube, a: Label, b: Label, e: Label, g: Label, s: Strip)
    requires ValidCube(c) && ValidStrip(s)
    ensures var e1 := ReplaceOn(c, b, s, Read(Get(c, a), s));
            var e2 := ReplaceOn(e1.0, e, s, e1.1);
            var e3 := ReplaceOn(e2.0, g, s, e2.1);
            Chain(c, [b, e, g, a], s, Read(Get(c, a), s)) == ReplaceOn(e3.0, a, s, e3.1)
  {
    var e1 := ReplaceOn(c, b, s, Read(Get(c, a), s));
    var e2 := ReplaceOn(e1.0, e, s, e1.1);
    var e3 := ReplaceOn(e2.0, g, s, e2.1);
    var e4 := ReplaceOn(e3.0, a, s, e3.1);
    ChainStep(c, [b, e, g, a], s, Read(Get(c, a), s));
    assert [b, e, g, a][1..] == [e, g, a];
    ChainStep(e1.0, [e, g, a], s, e1.1);
    assert [e, g, a][1..] == [g, a];
    ChainStep(e2.0, [g, a], s, e2.1);
    assert [g, a][1..] == [a];
    ChainStep(e3.0, [a], s, e3.1);
    assert [a][1..] == [];
  }

  /** Over four distinct faces the chain rotates the strip one step; the
      next four lemmas give each face's part and the fifth the frame. */
  predicate Distinct4(a: Label, b: Label, e: Label, g: Label)
  {
    a != b && a != e && a != g && b != e && b != g && e != g
  }

  lemma AlongSecond(c: Cube, a: Label, b: Label, e: Label, g: Label, s: Strip)
    requires ValidCube(c) && ValidStrip(s) && Distinct4(a, b, e, g)
    ensures Get(ShiftAlong(c, a, b, e, g, s), b) == Replace(Get(c, b), s, Read(Get(c, a), s)).0
  {
    var e1 := ReplaceOn(c, b, s, Read(Get(c, a), s));
    var e2 := ReplaceOn(e1.0, e, s, e1.1);
    var e3 := ReplaceOn(e2.0, g, s, e2.1);
    ReplaceOnGet(c, b, s, Read(Get(c, a), s), b);
    ReplaceOnGet(e1.0, e, s, e1.1, b);
    ReplaceOnGet(e2.0, g, s, e2.1, b);
    ReplaceOnGet(e3.0, a, s, e3.1, b);
  }

  lemma AlongThird(c: Cube, a: Label, b: Label, e: Label, g: Label, s: Strip)
    requires ValidCube(c) && ValidStrip(s) && Distinct4(a, b, e, g)
    ensures Get(ShiftAlong(c, a, b, e, g, s), e) == Replace(Get(c, e), s, Read(Get(c, b), s)).0
  {
    var e1 := ReplaceOn(c, b, s, Read(Get(c, a), s));
    var e2 := ReplaceOn(e1.0, e, s, e1.1);
    var e3 := ReplaceOn(e2.0, g, s, e2.1);
    ReplaceOnGet(c, b, s, Read(Get(c, a), s), e);
    ReplaceOnGet(e1.0, e, s, e1.1, e);
    ReplaceOnGet(e2.0, g, s, e2.1, e);
    ReplaceOnGet(e3.0, a, s, e3.1, e);
  }

  lemma AlongFourth(c: Cube, a: Label, b: Label, e: Label, g: Label, s: Strip)
    requires ValidCube(c) && ValidStrip(s) && Distinct4(a, b, e, g)
    ensures Get(ShiftAlong(c, a, b, e, g, s), g) == Replace(Get(c, g), s, Read(Get(c, e), s)).0
  {
    var e1 := ReplaceOn(c, b, s, Read(Get(c, a), s));
    var e2 := ReplaceOn(e1.0, e, s, e1.1);
    var e3 := ReplaceOn(e2.0, g, s, e2.1);
    ReplaceOnGet(c, b, s, Read(Get(c, a), s), g);
    ReplaceOnGet(e1.0, e, s, e1.1, g);
    ReplaceOnGet(e2.0, g, s, e2.1, g);
    ReplaceOnGet(e3.0, a, s, e3.1, g);
  }

  lemma AlongFirst(c: Cube, a: Label, b: Label, e: Label, g: Label, s: Strip)
    requires ValidCube(c) && ValidStrip(s) && Distinct4(a, b, e, g)
    ensures Get(ShiftAlong(c, a, b, e, g, s), a) == Replace(Get(c, a), s, Read(Get(c, g), s)).0
  {
    var e1 := ReplaceOn(c, b, s, Read(Get(c, a), s));
    var e2 := ReplaceOn(e1.0, e, s, e1.1);
    var e3 := ReplaceOn(e2.0, g, s, e2.1);
    ReplaceOnGet(c, b, s, Read(Get(c, a), s), g);
    ReplaceOnGet(e1.0, e, s, e1.1, g);
    ReplaceOnGet(c, b, s, Read(Get(c, a), s), a);
    ReplaceOnGet(e1.0, e, s, e1.1, a);
    ReplaceOnGet(e2.0, g, s, e2.1, a);
    ReplaceOnGet(e3.0, a, s, e3.1, a);
  }

  lemma AlongFrame(c: Cube, a: Label, b: Label, e: Label, g: Label, s: Strip, y: Label)
    requires ValidCube(c) && ValidStrip(s)
    requires y != a && y != b && y != e && y != g
    ensures Get(ShiftAlong(c, a, b, e, g, s), y) == Get(c, y)
  {
    var e1 := ReplaceOn(c, b, s, Read(Get(c, a), s));
    var e2 := ReplaceOn(e1.0, e, s, e1.1);
    var e3 := ReplaceOn(e2.0, g, s, e2.1);
    ReplaceOnGet(c, b, s, Read(Get(c, a), s), y);
    ReplaceOnGet(e1.0, e, s, e1.1, y);
    ReplaceOnGet(e2.0, g, s, e2.1, y);
    ReplaceOnGet(e3.0, a, s, e3.1, y);
  }

  lemma ShiftAlongCount(c: Cube, a: Label, b: Label, e: Label, g: Label, s: Strip, v: int)
    requires ValidCube(c) && ValidStrip(s) && Distinct4(a, b, e, g)
    ensures multiset(AllTiles(ShiftAlong(c, a, b, e, g, s)))[v] == multiset(AllTiles(c))[v]
  {
    var row := Read(Get(c, a), s);
    ChainUnrolled(c, a, b, e, g, s);
    ChainTrades(c, [b, e, g, a], s, row, v);
    assert Chain(c, [b, e, g, a], s, row).1 == row by {
      ChainHandsBack(c, a, b, e, g, s);
    }
  }

  /** The strip the chain hands back at the end is a's own strip, because
      a is untouched until the last exchange. */
  lemma ChainHandsBack(c: Cube, a: Label, b: Label, e: Label, g: Label, s: Strip)
    requires ValidCube(c) && ValidStrip(s) && Distinct4(a, b, e, g)
    ensures Chain(c, [b, e, g, a], s, Read(Get(c, a), s)).1 == Read(Get(c, a), s)
  {
    ChainUnrolled(c, a, b, e, g, s);
    AlongLeavesFirst(c, a, b, e, g, s);
  }

  /** The first face is untouched until the chain's last exchange. */
  lemma AlongLeavesFirst(c: Cube, a: Label, b: Label, e: Label, g: Label, s: Strip)
    requires ValidCube(c) && ValidStrip(s) && Distinct4(a, b, e, g)
    ensures var e1 := ReplaceOn(c, b, s, Read(Get(c, a), s));
            var e2 := ReplaceOn(e1.0, e, s, e1.1);
            Get(ReplaceOn(e2.0, g, s, e2.1).0, a) == Get(c, a)
  {
    var e1 := ReplaceOn(c, b, s, Read(Get(c, a), s));
    var e2 := ReplaceOn(e1.0, e, s, e1.1);
    ReplaceOnGet(c, b, s, Read(Get(c, a), s), a);
    ReplaceOnGet(e1.0, e, s, e1.1, a);
    ReplaceOnGet(e2.0, g, s, e2.1, a);
  }

  /** shiftRow / shiftColumn started at face x: the chain runs over the
      faces met by following direction d three times from x. */
  function Shift(c: Cube, x: Label, s: Strip, d: Dir): (r: Cube)
    requires ValidCube(c) && ValidStrip(s) && HasChain(x, d)
    ensures ValidCube(r)
  {
    var n1 := Next(x, d);
    var n2 := Next(n1, d);
    ShiftAlong(c, x, n1, n2, Next(n2, d), s)
  }

  /** Every face of the cycle exchanges its strip for the strip its
      predecessor had. */
  lemma ShiftOnCycle(c: Cube, x: Label, s: Strip, d: Dir, y: Label)
    requires ValidCube(c) && ValidStrip(s) && HasChain(x, d) && y in Cycle(x, d)
    ensures Get(Shift(c, x, s, d), y) == Replace(Get(c, y), s, Read(Get(c, Prev(x, d, y)), s)).0
  {
    var n1 := Next(x, d);
    var n2 := Next(n1, d);
    var n3 := Next(n2, d);
    ChainFacts(x, d);
    if y == x {
      AlongFirst(c, x, n1, n2, n3, s);
    } else if y == n1 {
      AlongSecond(c, x, n1, n2, n3, s);
    } else if y == n2 {
      AlongThird(c, x, n1, n2, n3, s);
    } else {
      AlongFourth(c, x, n1, n2, n3, s);
    }
  }

  /** Faces off the cycle do not change. */
  lemma ShiftOffCycle(c: Cube, x: Label, s: Strip, d: Dir, y: Label)
    requires ValidCube(c) && ValidStrip(s) && HasChain(x, d) && y !in Cycle(x, d)
    ensures Get(Shift(c, x, s, d), y) == Get(c, y)
  {
    var n1 := Next(x, d);
    var n2 := Next(n1, d);
    ChainFacts(x, d);
    AlongFrame(c, x, n1, n2, Next(n2, d), s, y);
  }

  /** A shift only moves tiles around: the 54 tiles are the same multiset. */
  lemma ShiftKeepsTiles(c: Cube, x: Label, s: Strip, d: Dir)
    requires ValidCube(c) && ValidStrip(s) && HasChain(x, d)
    ensures multiset(AllTiles(Shift(c, x, s, d))) == multiset(AllTiles(c))
  {
    var r := Shift(c, x, s, d);
    forall v
      ensures multiset(AllTiles(r))[v] == multiset(AllTiles(c))[v]
    {
      ShiftCount(c, x, s, d, v);
    }
    MultisetExtensionality(multiset(AllTiles(r)), multiset(AllTiles(c)));
  }

  lemma ShiftCount(c: Cube, x: Label, s: Strip, d: Dir, v: int)
    requires ValidCube(c) && ValidStrip(s) && HasChain(x, d)
    ensures multiset(AllTiles(Shift(c, x, s, d)))[v] == multiset(AllTiles(c))[v]
  {
    var n1 := Next(x, d);
    var n2 := Next(n1, d);
    ChainFacts(x, d);
    ShiftAlongCount(c, x, n1, n2, Next(n2, d), s, v);
  }

  /** shiftRow(i, d) started at face x. */
  function ShiftRow(c: Cube, x: Label, i: nat, d: Dir): (r: Cube)
    requires ValidCube(c) && i < 3 && HasChain(x, d)
    ensures ValidCube(r)
  {
    Shift(c, x, RowStrip(i), d)
  }

  /** shiftColumn(i, d) started at face x. */
  function ShiftColumn(c: Cube, x: Label, i: nat, d: Dir): (r: Cube)
    requires ValidCube(c) && i < 3 && HasChain(x, d)
    ensures ValidCube(r)
  {
    Shift(c, x, ColumnStrip(i), d)
  }

  /** A row shift: each face of the cycle receives its predecessor's row i
      and keeps its other two rows. */
  lemma ShiftRowMoves(c: Cube, x: Label, i: nat, d: Dir, y: Label, i': nat)
    requires ValidCube(c) && i < 3 && HasChain(x, d) && y in Cycle(x, d) && i' < 3
    ensures GetRow(Get(ShiftRow(c, x, i, d), y), i) == GetRow(Get(c, Prev(x, d, y)), i)
    ensures i' != i ==> GetRow(Get(ShiftRow(c, x, i, d), y), i') == GetRow(Get(c, y), i')
  {
    ShiftOnCycle(c, x, RowStrip(i), d, y);
    if i' != i {
      OtherStripsAgree(Get(ShiftRow(c, x, i, d), y), Get(c, y), RowStrip(i), RowStrip(i'));
    }
  }

  /** A column shift: each face of the cycle receives its predecessor's
      column i, as seen from outside, and keeps its other two columns. */
  lemma ShiftColumnMoves(c: Cube, x: Label, i: nat, d: Dir, y: Label, i': nat)
    requires ValidCube(c) && i < 3 && HasChain(x, d) && y in Cycle(x, d) && i' < 3
    ensures GetColumn(Get(ShiftColumn(c, x, i, d), y), i) == GetColumn(Get(c, Prev(x, d, y)), i)
    ensures i' != i ==> GetColumn(Get(ShiftColumn(c, x, i, d), y), i') == GetColumn(Get(c, y), i')
  {
    ShiftColumnArrives(c, x, i, d, y);
    if i' != i {
      ShiftColumnStays(c, x, i, d, y, i');
    }
  }

  lemma ShiftColumnArrives(c: Cube, x: Label, i: nat, d: Dir, y: Label)
    requires ValidCube(c) && i < 3 && HasChain(x, d) && y in Cycle(x, d)
    ensures GetColumn(Get(ShiftColumn(c, x, i, d), y), i) == GetColumn(Get(c, Prev(x, d, y)), i)
  {
    var f' := Get(ShiftColumn(c, x, i, d), y);
    ShiftOnCycle(c, x, ColumnStrip(i), d, y);
    assert GetColumn(f', i) == Read(f', ColumnStrip(i));
    assert GetColumn(Get(c, Prev(x, d, y)), i) == Read(Get(c, Prev(x, d, y)), ColumnStrip(i));
  }

  lemma ShiftColumnStays(c: Cube, x: Label, i: nat, d: Dir, y: Label, i': nat)
    requires ValidCube(c) && i < 3 && HasChain(x, d) && y in Cycle(x, d) && i' < 3 && i' != i
    ensures GetColumn(Get(ShiftColumn(c, x, i, d), y), i') == GetColumn(Get(c, y), i')
  {
    var f := Get(c, y);
    var f' := Get(ShiftColumn(c, x, i, d), y);
    ShiftOnCycle(c, x, ColumnStrip(i), d, y);
    OtherStripsAgree(f', f, ColumnStrip(i), ColumnStrip(i'));
    assert GetColumn(f', i') == Read(f', ColumnStrip(i'));
    assert GetColumn(f, i') == Read(f, ColumnStrip(i'));
  }

  /** Where the tile now at p was before the shift: on a face of the cycle
      and on the strip, it came from the same place of the predecessor's
      strip; anywhere else it did not move. */
  function ShiftSource(x: Label, s: Strip, d: Dir, p: Pos): (q: Pos)
    requires HasChain(x, d) && ValidStrip(s) && ValidPos(p)
    ensures ValidPos(q)
  {
    var y := p.face;
    if y in Cycle(x, d) && OnStrip(IsInverted(y), s, p.slot) then
      var from := Prev(x, d, y);
      Pos(from, Slot(IsInverted(from), s, StripIndex(IsInverted(y), s, p.slot)))
    else p
  }

  /** The shift moves exactly the tiles ShiftSource says it moves. */
  lemma ShiftPointwise(c: Cube, x: Label, s: Strip, d: Dir, p: Pos)
    requires ValidCube(c) && ValidStrip(s) && HasChain(x, d) && ValidPos(p)
    ensures Tile(Shift(c, x, s, d), p) == Tile(c, ShiftSource(x, s, d, p))
  {
    if p.face in Cycle(x, d) && OnStrip(IsInverted(p.face), s, p.slot) {
      ShiftMovesTile(c, x, s, d, p);
    } else if p.face in Cycle(x, d) {
      ShiftOnCycle(c, x, s, d, p.face);
    } else {
      ShiftOffCycle(c, x, s, d, p.face);
    }
  }

  lemma ShiftMovesTile(c: Cube, x: Label, s: Strip, d: Dir, p: Pos)
    requires ValidCube(c) && ValidStrip(s) && HasChain(x, d) && ValidPos(p)
    requires p.face in Cycle(x, d) && OnStrip(IsInverted(p.face), s, p.slot)
    ensures Tile(Shift(c, x, s, d), p)
         == Tile(c, Pos(Prev(x, d, p.face), Slot(IsInverted(Prev(x, d, p.face)), s, StripIndex(IsInverted(p.face), s, p.slot))))
  {
    var y := p.face;
    var v := Read(Get(c, Prev(x, d, y)), s);
    ShiftOnCycle(c, x, s, d, y);
    ReplaceAt(Get(c, y), s, v, p.slot);
  }

  /** Quarter-turn the stickers of face y only. */
  function TurnFace(c: Cube, y: Label, clockwise: bool): (r: Cube)
    requires ValidCube(c)
    ensures ValidCube(r)
  {
    Set(c, y, Turn(Get(c, y), clockwise))
  }

  lemma TurnFaceKeepsTiles(c: Cube, y: Label, clockwise: bool)
    requires ValidCube(c)
    ensures multiset(AllTiles(TurnFace(c, y, clockwise))) == multiset(AllTiles(c))
  {
    var r := TurnFace(c, y, clockwise);
    forall v
      ensures multiset(AllTiles(r))[v] == multiset(AllTiles(c))[v]
    {
      TurnFaceCount(c, y, clockwise, v);
    }
    MultisetExtensionality(multiset(AllTiles(r)), multiset(AllTiles(c)));
  }

  lemma TurnFaceCount(c: Cube, y: Label, clockwise: bool, v: int)
    requires ValidCube(c)
    ensures multiset(AllTiles(TurnFace(c, y, clockwise)))[v] == multiset(AllTiles(c))[v]
  {
    TurnKeepsTiles(Get(c, y), clockwise);
    SetCount(c, y, Turn(Get(c, y), clockwise), v);
  }

  /** Where the tile now at p was before face y was quarter-turned. */
  function TurnFaceSource(y: Label, clockwise: bool, p: Pos): (q: Pos)
    requires ValidPos(p)
    ensures ValidPos(q)
  {
    if p.face == y then Pos(y, TurnSource(clockwise, p.slot)) else p
  }

  lemma TurnFacePointwise(c: Cube, y: Label, clockwise: bool, p: Pos)
    requires ValidCube(c) && ValidPos(p)
    ensures Tile(TurnFace(c, y, clockwise), p) == Tile(c, TurnFaceSource(y, clockwise, p))
  {
  }

  /** A shift of rows: a tile on row i of a cycle face comes from the same
      slot of the predecessor; every other tile stays. */
  lemma RowShiftSource(x: Label, i: nat, d: Dir, q: Pos)
    requires HasChain(x, d) && i < 3 && ValidPos(q)
    ensures ShiftSource(x, RowStrip(i), d, q)
         == if q.face in Cycle(x, d) && q.slot / 3 == i then Pos(Prev(x, d, q.face), q.slot) else q
  {
    if q.face in Cycle(x, d) {
      RowCarry(IsInverted(q.face), IsInverted(Prev(x, d, q.face)), i, q.slot);
    }
  }

  /** A shift of columns: a tile on column i of a cycle face comes from the
      predecessor, on the same slot or, between the back face and another
      face, on the mirrored slot; every other tile stays. */
  lemma ColumnShiftSource(x: Label, i: nat, d: Dir, q: Pos)
    requires HasChain(x, d) && i < 3 && ValidPos(q)
    ensures ShiftSource(x, ColumnStrip(i), d, q)
         == if q.face in Cycle(x, d) && ColumnOf(IsInverted(q.face), q.slot) == i then
              Pos(Prev(x, d, q.face), Carried(Prev(x, d, q.face), q))
            else q
  {
    if q.face in Cycle(x, d) {
      ColumnCarry(IsInverted(q.face), IsInverted(Prev(x, d, q.face)), i, q.slot);
    }
  }

  /** The slot on face from that the column tile now at q was carried from. */
  function Carried(from: Label, q: Pos): (k: nat)
    requires ValidPos(q)
    ensures k < 9
  {
    if IsInverted(from) == IsInverted(q.face) then q.slot else 8 - q.slot
  }

  /** A carried tile stays in the same column as seen from outside. */
  lemma CarriedColumn(from: Label, q: Pos)
    requires ValidPos(q)
    ensures ColumnOf(IsInverted(from), Carried(from, q)) == ColumnOf(IsInverted(q.face), q.slot)
  {
    NineCases(q.slot);
  }

  /** Shifting back the other way returns every tile to where it was. */
  lemma ShiftSourceUndo(x: Label, s: Strip, d: Dir, q: Pos)
    requires HasChain(x, d) && ValidStrip(s) && ValidPos(q)
    ensures HasChain(x, Opposite(d))
    ensures ShiftSource(x, s, d, ShiftSource(x, s, Opposite(d), q)) == q
  {
    var y := q.face;
    PrevOpposite(x, d, y);
    if y in Cycle(x, d) && OnStrip(IsInverted(y), s, q.slot) {
      var z := Prev(x, Opposite(d), y);
      SlotIndex(IsInverted(z), s, StripIndex(IsInverted(y), s, q.slot));
    }
  }

  /** A shift is undone by the same shift in the opposite direction. */
  lemma ShiftUndo(c: Cube, x: Label, s: Strip, d: Dir)
    requires ValidCube(c) && ValidStrip(s) && HasChain(x, d)
    ensures HasChain(x, Opposite(d))
    ensures Shift(Shift(c, x, s, d), x, s, Opposite(d)) == c
  {
    PrevOpposite(x, d, x);
    var r := Shift(Shift(c, x, s, d), x, s, Opposite(d));
    forall q: Pos | ValidPos(q)
      ensures Tile(r, q) == Tile(c, q)
    {
      ShiftPointwise(Shift(c, x, s, d), x, s, Opposite(d), q);
      ShiftPointwise(c, x, s, d, ShiftSource(x, s, Opposite(d), q));
      ShiftSourceUndo(x, s, d, q);
    }
    CubeExtensionality(r, c);
  }

  lemma TurnFaceSourceUndo(y: Label, clockwise: bool, q: Pos)
    requires ValidPos(q)
    ensures TurnFaceSource(y, clockwise, TurnFaceSource(y, !clockwise, q)) == q
  {
    if q.face == y {
      TurnSourceUndo(clockwise, q.slot);
    }
  }

  /** Turning a face off the cycle and shifting along the cycle touch
      different tiles, so their order does not matter. */
  lemma ShiftTurnCommute(x: Label, s: Strip, d: Dir, y: Label, clockwise: bool, q: Pos)
    requires HasChain(x, d) && ValidStrip(s) && ValidPos(q) && y !in Cycle(x, d)
    ensures TurnFaceSource(y, clockwise, ShiftSource(x, s, d, q))
         == ShiftSource(x, s, d, TurnFaceSource(y, clockwise, q))
  {
  }
}
