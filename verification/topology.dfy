/** The fixed wiring of the six faces: which face lies in which direction of
    which other face, and the 4-cycles a strip travels through when it is
    shifted around the cube. */
module Topology {

  datatype Option<T> = None | Some(value: T)

  /** The six faces, in the order the cube lists them (f, l, r, u, d, b). */
  datatype Label = Front | Left | Right | Up | Down | Back

  const Labels: set<Label> := {Front, Left, Right, Up, Down, Back}

  lemma EveryLabel(x: Label)
    ensures x in Labels
  {
  }

  /** The four directions a row or column can be shifted in. */
  datatype Dir = ToLeft | ToRight | ToUp | ToDown

  /** The static adjacency table. A face only has a neighbour in the
      directions the table lists: left and right have no up/down neighbour,
      up and down have no left/right neighbour. */
  function Adjacent(x: Label, d: Dir): (n: Option<Label>)
    ensures n.Some? <==> (x == Front || x == Back || ((x == Left || x == Right) <==> (d == ToLeft || d == ToRight)))
    ensures n.Some? ==> n.value != x
  {
    match x
    case Front => (match d
      case ToLeft => Some(Left)
      case ToRight => Some(Right)
      case ToUp => Some(Up)
      case ToDown => Some(Down))
    case Left => (match d
      case ToLeft => Some(Back)
      case ToRight => Some(Front)
      case _ => None)
    case Right => (match d
      case ToLeft => Some(Front)
      case ToRight => Some(Back)
      case _ => None)
    case Up => (match d
      case ToUp => Some(Back)
      case ToDown => Some(Front)
      case _ => None)
    case Down => (match d
      case ToUp => Some(Front)
      case ToDown => Some(Back)
      case _ => None)
    case Back => (match d
      case ToLeft => Some(Right)
      case ToRight => Some(Left)
      case ToUp => Some(Down)
      case ToDown => Some(Up))
  }

  /** The solved colour of a face: its 1-based position in f, l, r, u, d, b. */
  function ColourOf(x: Label): (v: int)
    ensures 1 <= v <= 6
  {
    match x
    case Front => 1
    case Left => 2
    case Right => 3
    case Up => 4
    case Down => 5
    case Back => 6
  }

  /** Only the back face stores its tiles mirrored. */
  predicate IsInverted(x: Label)
  {
    x == Back
  }

  function Opposite(d: Dir): Dir
  {
    match d
    case ToLeft => ToRight
    case ToRight => ToLeft
    case ToUp => ToDown
    case ToDown => ToUp
  }

  /** Three hops in direction d exist from x, which is what a shift needs. */
  predicate HasChain(x: Label, d: Dir)
  {
    && Adjacent(x, d).Some?
    && Adjacent(Adjacent(x, d).value, d).Some?
    && Adjacent(Adjacent(Adjacent(x, d).value, d).value, d).Some?
  }

  function Next(x: Label, d: Dir): Label
    requires Adjacent(x, d).Some?
  {
    Adjacent(x, d).value
  }

  /** The faces a shift from x in direction d visits, in visiting order.
      The table makes every such chain a genuine 4-cycle: four distinct
      faces, and the fourth face's neighbour is x again. */
  function Cycle(x: Label, d: Dir): (cyc: seq<Label>)
    requires HasChain(x, d)
    ensures |cyc| == 4 && cyc[0] == x
    ensures forall k | 0 <= k < 3 :: Adjacent(cyc[k], d) == Some(cyc[k + 1])
    ensures Adjacent(cyc[3], d) == Some(x)
    ensures forall a, b | 0 <= a < b < 4 :: cyc[a] != cyc[b]
  {
    var n1 := Next(x, d);
    var n2 := Next(n1, d);
    [x, n1, n2, Next(n2, d)]
  }

  /** The face a strip comes from when it arrives at y: the member of the
      cycle whose neighbour in direction d is y. */
  function Prev(x: Label, d: Dir, y: Label): (p: Label)
    requires HasChain(x, d) && y in Cycle(x, d)
    ensures p in Cycle(x, d) && p != y
    ensures Adjacent(p, d) == Some(y)
  {
    var cyc := Cycle(x, d);
    if y == cyc[0] then cyc[3]
    else if y == cyc[1] then cyc[0]
    else if y == cyc[2] then cyc[1]
    else cyc[2]
  }

  /** The cycle spelled out: the three hops from x, all distinct, each
      face's predecessor being the one before it. */
  lemma ChainFacts(x: Label, d: Dir)
    requires HasChain(x, d)
    ensures var n1 := Next(x, d); var n2 := Next(n1, d); var n3 := Next(n2, d);
            && Cycle(x, d) == [x, n1, n2, n3]
            && x != n1 && x != n2 && x != n3 && n1 != n2 && n1 != n3 && n2 != n3
            && Prev(x, d, n1) == x && Prev(x, d, n2) == n1
            && Prev(x, d, n3) == n2 && Prev(x, d, x) == n3
  {
  }

  /** The table is symmetric: y is x's neighbour in direction d exactly
      when x is y's neighbour in the opposite direction. */
  lemma AdjacencySymmetric(x: Label, y: Label, d: Dir)
    ensures Adjacent(x, d) == Some(y) <==> Adjacent(y, Opposite(d)) == Some(x)
  {
  }

  /** Shifting the opposite way visits the same four faces in reverse. */
  lemma CycleReversed(x: Label, d: Dir)
    requires HasChain(x, d)
    ensures HasChain(x, Opposite(d))
    ensures var cyc := Cycle(x, d);
            Cycle(x, Opposite(d)) == [cyc[0], cyc[3], cyc[2], cyc[1]]
  {
  }

  /** A cycle and its reverse hold the same faces, and stepping back in one
      direction undoes stepping back in the other. */
  lemma PrevOpposite(x: Label, d: Dir, y: Label)
    requires HasChain(x, d)
    ensures HasChain(x, Opposite(d))
    ensures y in Cycle(x, d) <==> y in Cycle(x, Opposite(d))
    ensures y in Cycle(x, d) ==>
              && Prev(x, Opposite(d), y) in Cycle(x, d)
              && Prev(x, d, Prev(x, Opposite(d), y)) == y
  {
    CycleReversed(x, d);
    ChainFacts(x, d);
    ChainFacts(x, Opposite(d));
  }
}
