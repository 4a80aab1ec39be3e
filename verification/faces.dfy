/** One face of the cube: nine tiles stored row-major, plus the `inverted`
    flag. The flag routes column reads and writes through `invert`, because a
    column that reaches the back face over the top arrives upside down and
    mirrored; rows are read and written as stored. */
module Faces {

  datatype Face = Face(tiles: seq<int>, inverted: bool)

  predicate ValidFace(f: Face)
  {
    |f.tiles| == 9
  }

  /** A row or a column of a face, by index 0..2. */
  datatype Strip = RowStrip(index: nat) | ColumnStrip(index: nat)

  predicate ValidStrip(s: Strip)
  {
    s.index < 3
  }

  /** The raw slot that holds the j-th tile of strip s (left to right for a
      row, top to bottom for a column, as seen from outside). Rows are read
      raw; columns of an inverted face are read through the 180-degree
      reflection, so they land on slots 8-i, 5-i, 2-i. */
  function Slot(inverted: bool, s: Strip, j: nat): (k: nat)
    requires ValidStrip(s) && j < 3
    ensures k < 9
  {
    match s
    case RowStrip(i) => 3 * i + j
    case ColumnStrip(i) => if inverted then 8 - (i + 3 * j) else i + 3 * j
  }

  predicate OnStrip(inverted: bool, s: Strip, k: nat)
    requires ValidStrip(s)
  {
    k == Slot(inverted, s, 0) || k == Slot(inverted, s, 1) || k == Slot(inverted, s, 2)
  }

  /** Which tile of the strip a raw slot on it holds. */
  function StripIndex(inverted: bool, s: Strip, k: nat): (j: nat)
    requires ValidStrip(s) && OnStrip(inverted, s, k)
    ensures j < 3 && Slot(inverted, s, j) == k
  {
    if k == Slot(inverted, s, 0) then 0
    else if k == Slot(inverted, s, 1) then 1
    else 2
  }

  /** Faces stored the same way with the same nine tiles are equal. */
  lemma FaceExtensionality(a: Face, b: Face)
    requires ValidFace(a) && ValidFace(b) && a.inverted == b.inverted
    requires forall k | 0 <= k < 9 :: a.tiles[k] == b.tiles[k]
    ensures a == b
  {
    assert a.tiles == b.tiles;
  }

  /** Slot is one-to-one on a strip, so StripIndex recovers j. */
  lemma SlotIndex(inverted: bool, s: Strip, j: nat)
    requires ValidStrip(s) && j < 3
    ensures OnStrip(inverted, s, Slot(inverted, s, j))
    ensures StripIndex(inverted, s, Slot(inverted, s, j)) == j
  {
  }

  /** The column, as seen from outside, that raw slot k belongs to. */
  function ColumnOf(inverted: bool, k: nat): (i: nat)
    requires k < 9
    ensures i < 3
  {
    if inverted then 2 - k % 3 else k % 3
  }

  /** Rows are stored raw on every face: slot k lies on row k / 3, and a
      row carried to any other face lands on the same slot. */
  lemma RowCarry(inverted: bool, other: bool, i: nat, k: nat)
    requires i < 3 && k < 9
    ensures OnStrip(inverted, RowStrip(i), k) <==> k / 3 == i
    ensures k / 3 == i ==> Slot(other, RowStrip(i), StripIndex(inverted, RowStrip(i), k)) == k
  {
  }

  /** A column carried between two faces lands on the same slot when both
      are stored the same way, and on the mirrored slot 8 - k otherwise. */
  lemma ColumnCarry(inverted: bool, other: bool, i: nat, k: nat)
    requires i < 3 && k < 9
    ensures OnStrip(inverted, ColumnStrip(i), k) <==> ColumnOf(inverted, k) == i
    ensures ColumnOf(inverted, k) == i ==>
              (Slot(other, ColumnStrip(i), StripIndex(inverted, ColumnStrip(i), k))
               == if other == inverted then k else 8 - k)
  {
    NineCases(k);
  }

  /** Exchange two tiles (Face.swapTiles). */
  function SwapTiles(f: Face, i1: nat, i2: nat): (r: Face)
    requires ValidFace(f) && i1 < 9 && i2 < 9
    ensures ValidFace(r) && r.inverted == f.inverted
    ensures r.tiles[i1] == f.tiles[i2] && r.tiles[i2] == f.tiles[i1]
    ensures forall k | 0 <= k < 9 && k != i1 && k != i2 :: r.tiles[k] == f.tiles[k]
  {
    var temp := f.tiles[i1];
    Face(f.tiles[i1 := f.tiles[i2]][i2 := temp], f.inverted)
  }

  /** How often x occurs as the single value y (0 or 1). */
  function Occ(y: int, x: int): nat
  {
    if y == x then 1 else 0
  }

  /** Overwriting one element trades one occurrence of its old value for
      one occurrence of the new value. */
  lemma UpdateCount(s: seq<int>, i: nat, v: int, x: int)
    requires i < |s|
    ensures multiset(s[i := v])[x] + Occ(s[i], x) == multiset(s)[x] + Occ(v, x)
  {
    assert s == s[..i] + [s[i]] + s[i + 1..];
    assert s[i := v] == s[..i] + [v] + s[i + 1..];
  }

  lemma ThreeCount(p: int, q: int, r: int, x: int)
    ensures multiset([p, q, r])[x] == Occ(p, x) + Occ(q, x) + Occ(r, x)
  {
    assert [p, q, r] == [p, q] + [r];
    assert [p, q] == [p] + [q];
  }

  /** Swapping only rearranges the tiles. */
  lemma SwapKeepsTiles(f: Face, i1: nat, i2: nat)
    requires ValidFace(f) && i1 < 9 && i2 < 9
    ensures multiset(SwapTiles(f, i1, i2).tiles) == multiset(f.tiles)
  {
    var t1 := f.tiles[i1 := f.tiles[i2]];
    forall x
      ensures multiset(SwapTiles(f, i1, i2).tiles)[x] == multiset(f.tiles)[x]
    {
      UpdateCount(f.tiles, i1, f.tiles[i2], x);
      UpdateCount(t1, i2, f.tiles[i1], x);
    }
  }

  /** The 180-degree point reflection (Face.invert): tile k goes to 8-k. */
  function Invert(f: Face): (r: Face)
    requires ValidFace(f)
    ensures ValidFace(r) && r.inverted == f.inverted
    ensures forall k | 0 <= k < 9 :: r.tiles[k] == f.tiles[8 - k]
  {
    SwapTiles(SwapTiles(SwapTiles(SwapTiles(f, 0, 8), 1, 7), 2, 6), 3, 5)
  }

  lemma InvertKeepsTiles(f: Face)
    requires ValidFace(f)
    ensures multiset(Invert(f).tiles) == multiset(f.tiles)
  {
    var f1 := SwapTiles(f, 0, 8);
    var f2 := SwapTiles(f1, 1, 7);
    var f3 := SwapTiles(f2, 2, 6);
    SwapKeepsTiles(f, 0, 8);
    SwapKeepsTiles(f1, 1, 7);
    SwapKeepsTiles(f2, 2, 6);
    SwapKeepsTiles(f3, 3, 5);
  }

  /** Inverting twice restores the face, and the centre never moves. */
  lemma InvertInvolution(f: Face)
    requires ValidFace(f)
    ensures Invert(Invert(f)) == f
    ensures Invert(f).tiles[4] == f.tiles[4]
  {
    assert Invert(Invert(f)).tiles == f.tiles;
  }

  /** Row i, left to right (Face.getRow). */
  function GetRow(f: Face, i: nat): (row: seq<int>)
    requires ValidFace(f) && i < 3
    ensures |row| == 3
    ensures forall j | 0 <= j < 3 :: row[j] == f.tiles[Slot(f.inverted, RowStrip(i), j)]
  {
    [f.tiles[3 * i], f.tiles[3 * i + 1], f.tiles[3 * i + 2]]
  }

  /** Column i, top to bottom as seen from outside (Face.getColumn): an
      inverted face is inverted, read, and inverted back. */
  function GetColumn(f: Face, i: nat): (column: seq<int>)
    requires ValidFace(f) && i < 3
    ensures |column| == 3
    ensures forall j | 0 <= j < 3 :: column[j] == f.tiles[Slot(f.inverted, ColumnStrip(i), j)]
    ensures f.inverted ==> column == [f.tiles[8 - i], f.tiles[5 - i], f.tiles[2 - i]]
  {
    var g := if f.inverted then Invert(f) else f;
    [g.tiles[i], g.tiles[i + 3], g.tiles[i + 6]]
  }

  /** Write three values into three distinct raw slots. */
  function WriteThree(t: seq<int>, a: nat, b: nat, c: nat, v: seq<int>): (r: seq<int>)
    requires |t| == 9 && a < 9 && b < 9 && c < 9 && a != b && b != c && a != c && |v| == 3
    ensures |r| == 9 && r[a] == v[0] && r[b] == v[1] && r[c] == v[2]
    ensures forall k | 0 <= k < 9 && k != a && k != b && k != c :: r[k] == t[k]
  {
    t[a := v[0]][b := v[1]][c := v[2]]
  }

  /** The write trades the three old tiles for the three new ones. */
  lemma WriteThreeCount(t: seq<int>, a: nat, b: nat, c: nat, v: seq<int>, x: int)
    requires |t| == 9 && a < 9 && b < 9 && c < 9 && a != b && b != c && a != c && |v| == 3
    ensures multiset(WriteThree(t, a, b, c, v))[x] + Occ(t[a], x) + Occ(t[b], x) + Occ(t[c], x)
         == multiset(t)[x] + Occ(v[0], x) + Occ(v[1], x) + Occ(v[2], x)
  {
    var t1 := t[a := v[0]];
    var t2 := t1[b := v[1]];
    assert t1[b] == t[b] && t2[c] == t[c];
    UpdateCount(t, a, v[0], x);
    UpdateCount(t1, b, v[1], x);
    UpdateCount(t2, c, v[2], x);
  }

  /** The three values of a strip, counted one by one. */
  lemma StripCount(v: seq<int>, x: int)
    requires |v| == 3
    ensures multiset(v)[x] == Occ(v[0], x) + Occ(v[1], x) + Occ(v[2], x)
  {
    assert v == [v[0], v[1], v[2]];
    ThreeCount(v[0], v[1], v[2], x);
  }

  /** Install a new row i and hand back the row that was there
      (Face.replaceRow). */
  function ReplaceRow(f: Face, i: nat, row: seq<int>): (r: (Face, seq<int>))
    requires ValidFace(f) && i < 3 && |row| == 3
    ensures ValidFace(r.0) && r.0.inverted == f.inverted
    ensures r.1 == GetRow(f, i)
    ensures GetRow(r.0, i) == row
    ensures forall i' | 0 <= i' < 3 && i' != i :: GetRow(r.0, i') == GetRow(f, i')
    ensures forall k | 0 <= k < 9 && !OnStrip(f.inverted, RowStrip(i), k) :: r.0.tiles[k] == f.tiles[k]
  {
    var before := GetRow(f, i);
    var t := WriteThree(f.tiles, 3 * i, 3 * i + 1, 3 * i + 2, row);
    (Face(t, f.inverted), before)
  }

  /** Install a new column i and hand back the column that was there
      (Face.replaceColumn). An inverted face is inverted around the raw
      write, so the new column is stored in slots 8-i, 5-i, 2-i. */
  function ReplaceColumn(f: Face, i: nat, column: seq<int>): (r: (Face, seq<int>))
    requires ValidFace(f) && i < 3 && |column| == 3
    ensures ValidFace(r.0) && r.0.inverted == f.inverted
    ensures r.1 == GetColumn(f, i)
    ensures GetColumn(r.0, i) == column
    ensures forall k | 0 <= k < 9 && !OnStrip(f.inverted, ColumnStrip(i), k) :: r.0.tiles[k] == f.tiles[k]
  {
    var before := GetColumn(f, i);
    var g := if f.inverted then Invert(f) else f;
    var written := Face(WriteThree(g.tiles, i, i + 3, i + 6, column), f.inverted);
    var h := if f.inverted then Invert(written) else written;
    (h, before)
  }

  /** Replacing column i leaves the other two columns alone, and on an
      inverted face the new column lands in raw slots 8-i, 5-i, 2-i. */
  lemma ReplaceColumnSlots(f: Face, i: nat, column: seq<int>, i': nat)
    requires ValidFace(f) && i < 3 && |column| == 3 && i' < 3
    ensures i' != i ==> GetColumn(ReplaceColumn(f, i, column).0, i') == GetColumn(f, i')
    ensures f.inverted ==> var t := ReplaceColumn(f, i, column).0.tiles;
              t[8 - i] == column[0] && t[5 - i] == column[1] && t[2 - i] == column[2]
  {
    var h := ReplaceColumn(f, i, column).0;
    if i' != i {
      OtherStripsAgree(h, f, ColumnStrip(i), ColumnStrip(i'));
      assert GetColumn(h, i') == Read(h, ColumnStrip(i'));
      assert GetColumn(f, i') == Read(f, ColumnStrip(i'));
    }
  }

  /** Read strip s as seen from outside: a row or a column. */
  function Read(f: Face, s: Strip): (v: seq<int>)
    requires ValidFace(f) && ValidStrip(s)
    ensures |v| == 3
    ensures forall j | 0 <= j < 3 :: v[j] == f.tiles[Slot(f.inverted, s, j)]
  {
    match s
    case RowStrip(i) => GetRow(f, i)
    case ColumnStrip(i) => GetColumn(f, i)
  }

  /** Exchange strip s for v: the one write primitive that shifting uses. */
  function Replace(f: Face, s: Strip, v: seq<int>): (r: (Face, seq<int>))
    requires ValidFace(f) && ValidStrip(s) && |v| == 3
    ensures ValidFace(r.0) && r.0.inverted == f.inverted
    ensures r.1 == Read(f, s) && Read(r.0, s) == v
    ensures forall k | 0 <= k < 9 && !OnStrip(f.inverted, s, k) :: r.0.tiles[k] == f.tiles[k]
  {
    match s
    case RowStrip(i) => ReplaceRow(f, i, v)
    case ColumnStrip(i) => ReplaceColumn(f, i, v)
  }

  /** An exchange neither creates nor destroys tiles: what the face gains
      plus what it hands back equals what it had plus what it received. */
  lemma ReplaceTrades(f: Face, s: Strip, v: seq<int>, x: int)
    requires ValidFace(f) && ValidStrip(s) && |v| == 3
    ensures multiset(Replace(f, s, v).0.tiles)[x] + multiset(Replace(f, s, v).1)[x]
         == multiset(f.tiles)[x] + multiset(v)[x]
  {
    match s
    case RowStrip(i) => RowTrades(f, i, v, x);
    case ColumnStrip(i) => ColumnTrades(f, i, v, x);
  }

  lemma RowTrades(f: Face, i: nat, v: seq<int>, x: int)
    requires ValidFace(f) && i < 3 && |v| == 3
    ensures multiset(ReplaceRow(f, i, v).0.tiles)[x] + multiset(ReplaceRow(f, i, v).1)[x]
         == multiset(f.tiles)[x] + multiset(v)[x]
  {
    WriteThreeCount(f.tiles, 3 * i, 3 * i + 1, 3 * i + 2, v, x);
    StripCount(v, x);
    StripCount(GetRow(f, i), x);
  }

  lemma ColumnTrades(f: Face, i: nat, v: seq<int>, x: int)
    requires ValidFace(f) && i < 3 && |v| == 3
    ensures multiset(ReplaceColumn(f, i, v).0.tiles)[x] + multiset(ReplaceColumn(f, i, v).1)[x]
         == multiset(f.tiles)[x] + multiset(v)[x]
  {
    var g := if f.inverted then Invert(f) else f;
    var written := Face(WriteThree(g.tiles, i, i + 3, i + 6, v), f.inverted);
    var h := if f.inverted then Invert(written) else written;
    assert ReplaceColumn(f, i, v) == (h, [g.tiles[i], g.tiles[i + 3], g.tiles[i + 6]]);
    WriteThreeCount(g.tiles, i, i + 3, i + 6, v, x);
    StripCount(v, x);
    StripCount([g.tiles[i], g.tiles[i + 3], g.tiles[i + 6]], x);
    assert multiset(h.tiles) == multiset(written.tiles) by {
      if f.inverted {
        InvertKeepsTiles(written);
      }
    }
    assert multiset(g.tiles) == multiset(f.tiles) by {
      if f.inverted {
        InvertKeepsTiles(f);
      }
    }
  }

  /** Two faces that agree off strip s agree on every parallel strip. */
  lemma OtherStripsAgree(a: Face, b: Face, s: Strip, s': Strip)
    requires ValidFace(a) && ValidFace(b) && a.inverted == b.inverted && ValidStrip(s) && ValidStrip(s')
    requires s.RowStrip? == s'.RowStrip? && s.index != s'.index
    requires forall k | 0 <= k < 9 && !OnStrip(a.inverted, s, k) :: a.tiles[k] == b.tiles[k]
    ensures Read(a, s') == Read(b, s')
  {
    forall j | 0 <= j < 3
      ensures Read(a, s')[j] == Read(b, s')[j]
    {
      ParallelSlotOff(a.inverted, s, s', j);
    }
  }

  /** A slot of one strip never lies on a different parallel strip. */
  lemma ParallelSlotOff(inverted: bool, s: Strip, s': Strip, j: nat)
    requires ValidStrip(s) && ValidStrip(s') && j < 3
    requires s.RowStrip? == s'.RowStrip? && s.index != s'.index
    ensures !OnStrip(inverted, s, Slot(inverted, s', j))
  {
  }

  /** Every slot of the face after an exchange: the slots of the strip hold
      the new values, every other slot keeps its tile. */
  lemma ReplaceAt(f: Face, s: Strip, v: seq<int>, k: nat)
    requires ValidFace(f) && ValidStrip(s) && |v| == 3 && k < 9
    ensures Replace(f, s, v).0.tiles[k]
         == if OnStrip(f.inverted, s, k) then v[StripIndex(f.inverted, s, k)] else f.tiles[k]
  {
    if OnStrip(f.inverted, s, k) {
      var j := StripIndex(f.inverted, s, k);
      assert Read(Replace(f, s, v).0, s)[j] == v[j];
    }
  }

  /** Where the tile now in slot k was before a quarter turn. Clockwise,
      the tile at (row, col) comes from (2 - col, row); counterclockwise,
      from (col, 2 - row). */
  function TurnSource(clockwise: bool, k: nat): (src: nat)
    requires k < 9
    ensures src < 9
  {
    if clockwise then 3 * (2 - k % 3) + k / 3 else 3 * (k % 3) + 2 - k / 3
  }

  /** Rotate the face's own tiles by 90 degrees with six swaps, in the
      reverse order for counterclockwise (Face.turn). */
  function Turn(f: Face, clockwise: bool): (r: Face)
    requires ValidFace(f)
    ensures ValidFace(r) && r.inverted == f.inverted
    ensures forall k | 0 <= k < 9 :: r.tiles[k] == f.tiles[TurnSource(clockwise, k)]
    ensures r.tiles[4] == f.tiles[4]
  {
    if clockwise then
      var g := SwapTiles(SwapTiles(SwapTiles(f, 1, 5), 1, 7), 1, 3);
      SwapTiles(SwapTiles(SwapTiles(g, 0, 2), 0, 8), 0, 6)
    else
      var g := SwapTiles(SwapTiles(SwapTiles(f, 1, 3), 1, 7), 1, 5);
      SwapTiles(SwapTiles(SwapTiles(g, 0, 6), 0, 8), 0, 2)
  }

  /** A quarter turn only rearranges the face's own tiles. */
  lemma TurnKeepsTiles(f: Face, clockwise: bool)
    requires ValidFace(f)
    ensures multiset(Turn(f, clockwise).tiles) == multiset(f.tiles)
  {
    var a, b, c, d, e, g, h;
    if clockwise {
      a, b, c, d, e, g, h := 1, 5, 7, 3, 2, 8, 6;
    } else {
      a, b, c, d, e, g, h := 1, 3, 7, 5, 6, 8, 2;
    }
    var f1 := SwapTiles(f, a, b);
    var f2 := SwapTiles(f1, a, c);
    var f3 := SwapTiles(f2, a, d);
    var f4 := SwapTiles(f3, 0, e);
    var f5 := SwapTiles(f4, 0, g);
    SwapKeepsTiles(f, a, b);
    SwapKeepsTiles(f1, a, c);
    SwapKeepsTiles(f2, a, d);
    SwapKeepsTiles(f3, 0, e);
    SwapKeepsTiles(f4, 0, g);
    SwapKeepsTiles(f5, 0, h);
  }

  /** A quarter turn one way is undone by a quarter turn the other way. */
  lemma TurnUndo(f: Face, clockwise: bool)
    requires ValidFace(f)
    ensures Turn(Turn(f, clockwise), !clockwise) == f
  {
    var g := Turn(Turn(f, clockwise), !clockwise);
    forall k | 0 <= k < 9
      ensures g.tiles[k] == f.tiles[k]
    {
      TurnUndoAt(f, clockwise, k);
    }
    FaceExtensionality(g, f);
  }

  lemma TurnUndoAt(f: Face, clockwise: bool, k: nat)
    requires ValidFace(f) && k < 9
    ensures Turn(Turn(f, clockwise), !clockwise).tiles[k] == f.tiles[k]
  {
    TurnSourceUndo(clockwise, k);
  }

  lemma TurnSourceUndo(clockwise: bool, k: nat)
    requires k < 9
    ensures TurnSource(clockwise, TurnSource(!clockwise, k)) == k
  {
    NineCases(k);
  }

  /** Four clockwise quarter turns restore the face. */
  lemma TurnFourTimes(f: Face)
    requires ValidFace(f)
    ensures Turn(Turn(Turn(Turn(f, true), true), true), true) == f
  {
    var g := Turn(Turn(Turn(Turn(f, true), true), true), true);
    forall k | 0 <= k < 9
      ensures g.tiles[k] == f.tiles[k]
    {
      NineCases(k);
    }
    FaceExtensionality(g, f);
  }

  /** Two quarter turns the same way are the half turn: slot k gets 8 - k. */
  lemma TurnTwice(clockwise: bool, k: nat)
    requires k < 9
    ensures TurnSource(clockwise, TurnSource(clockwise, k)) == 8 - k
  {
    NineCases(k);
  }

  /** The mirrored slot 8 - k lies in the mirrored column. */
  lemma ColumnMirror(k: nat)
    requires k < 9
    ensures ColumnOf(false, 8 - k) == ColumnOf(true, k) && ColumnOf(true, 8 - k) == ColumnOf(false, k)
  {
    NineCases(k);
  }

  lemma NineCases(k: nat)
    requires k < 9
    ensures k == 0 || k == 1 || k == 2 || k == 3 || k == 4 || k == 5 || k == 6 || k == 7 || k == 8
  {
  }
}
