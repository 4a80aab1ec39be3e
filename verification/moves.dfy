/** The cube's public moves: the twelve primitive layer moves, the four
    whole-cube reorientations built from them, the four front and back face
    turns built from those, reset and scramble. */
module Moves {
  import opened Topology
  import opened Faces
  import opened Cubes

  /** The twelve primitives (Cube.u, Cube.ur, ... Cube.rr). */
  datatype Primitive = U | Ur | Cl | Cr | D | Dr | L | Lr | Cu | Cd | R | Rr

  /** A face turned by a primitive, and which way. */
  datatype FaceTurn = FaceTurn(face: Label, clockwise: bool)

  /** What a primitive does: shift one row or column, always started at the
      front face, in one direction, then possibly quarter-turn one face. */
  datatype Step = Step(strip: Strip, dir: Dir, turn: Option<FaceTurn>)

  /** The primitives as the cube defines them. The turned face is never on
      the shift's cycle, so the two halves touch different tiles. */
  function StepOf(p: Primitive): (st: Step)
    ensures ValidStrip(st.strip) && HasChain(Front, st.dir)
    ensures st.turn.Some? ==> st.turn.value.face !in Cycle(Front, st.dir)
  {
    match p
    case U => Step(RowStrip(0), ToLeft, Some(FaceTurn(Up, true)))
    case Ur => Step(RowStrip(0), ToRight, Some(FaceTurn(Up, false)))
    case Cl => Step(RowStrip(1), ToLeft, None)
    case Cr => Step(RowStrip(1), ToRight, None)
    case D => Step(RowStrip(2), ToRight, Some(FaceTurn(Down, true)))
    case Dr => Step(RowStrip(2), ToLeft, Some(FaceTurn(Down, false)))
    case L => Step(ColumnStrip(0), ToDown, Some(FaceTurn(Left, true)))
    case Lr => Step(ColumnStrip(0), ToUp, Some(FaceTurn(Left, false)))
    case Cu => Step(ColumnStrip(1), ToUp, None)
    case Cd => Step(ColumnStrip(1), ToDown, None)
    case R => Step(ColumnStrip(2), ToUp, Some(FaceTurn(Right, true)))
    case Rr => Step(ColumnStrip(2), ToDown, Some(FaceTurn(Right, false)))
  }

  function Apply(c: Cube, p: Primitive): (r: Cube)
    requires ValidCube(c)
    ensures ValidCube(r)
  {
    var st := StepOf(p);
    var shifted := Shift(c, Front, st.strip, st.dir);
    if st.turn.Some? then TurnFace(shifted, st.turn.value.face, st.turn.value.clockwise) else shifted
  }

  /** Where the tile now at q was before primitive p. */
  function Source(p: Primitive, q: Pos): (o: Pos)
    requires ValidPos(q)
    ensures ValidPos(o)
  {
    var st := StepOf(p);
    var beforeTurn := if st.turn.Some? then TurnFaceSource(st.turn.value.face, st.turn.value.clockwise, q) else q;
    ShiftSource(Front, st.strip, st.dir, beforeTurn)
  }

  lemma ApplyPointwise(c: Cube, p: Primitive, q: Pos)
    requires ValidCube(c) && ValidPos(q)
    ensures Tile(Apply(c, p), q) == Tile(c, Source(p, q))
  {
    var st := StepOf(p);
    var shifted := Shift(c, Front, st.strip, st.dir);
    if st.turn.Some? {
      TurnFacePointwise(shifted, st.turn.value.face, st.turn.value.clockwise, q);
      ShiftPointwise(c, Front, st.strip, st.dir, TurnFaceSource(st.turn.value.face, st.turn.value.clockwise, q));
    } else {
      ShiftPointwise(c, Front, st.strip, st.dir, q);
    }
  }

  lemma ApplyKeepsTiles(c: Cube, p: Primitive)
    requires ValidCube(c)
    ensures multiset(AllTiles(Apply(c, p))) == multiset(AllTiles(c))
  {
    var st := StepOf(p);
    var shifted := Shift(c, Front, st.strip, st.dir);
    ShiftKeepsTiles(c, Front, st.strip, st.dir);
    if st.turn.Some? {
      TurnFaceKeepsTiles(shifted, st.turn.value.face, st.turn.value.clockwise);
    }
  }

  /** The primitive that undoes p: the same strip shifted the other way and
      the same face turned the other way. */
  function Inverse(p: Primitive): (q: Primitive)
    ensures StepOf(q).strip == StepOf(p).strip
    ensures StepOf(q).dir == Opposite(StepOf(p).dir)
    ensures StepOf(q).turn.Some? == StepOf(p).turn.Some?
    ensures StepOf(p).turn.Some? ==>
              && StepOf(q).turn.value.face == StepOf(p).turn.value.face
              && StepOf(q).turn.value.clockwise == !StepOf(p).turn.value.clockwise
  {
    match p
    case U => Ur
    case Ur => U
    case Cl => Cr
    case Cr => Cl
    case D => Dr
    case Dr => D
    case L => Lr
    case Lr => L
    case Cu => Cd
    case Cd => Cu
    case R => Rr
    case Rr => R
  }

  lemma SourceUndo(p: Primitive, q: Pos)
    requires ValidPos(q)
    ensures Source(p, Source(Inverse(p), q)) == q
  {
    var st := StepOf(p);
    var back := StepOf(Inverse(p));
    if st.turn.Some? {
      var y := st.turn.value.face;
      var cw := st.turn.value.clockwise;
      var q1 := TurnFaceSource(y, !cw, q);
      ShiftTurnCommute(Front, st.strip, back.dir, y, cw, q1);
      PrevOpposite(Front, st.dir, y);
      ShiftSourceUndo(Front, st.strip, st.dir, TurnFaceSource(y, cw, q1));
      TurnFaceSourceUndo(y, cw, q);
    } else {
      ShiftSourceUndo(Front, st.strip, st.dir, q);
    }
  }

  /** Each primitive is undone by its reverse (u by ur, cl by cr, and so on). */
  lemma UndoPrimitive(c: Cube, p: Primitive)
    requires ValidCube(c)
    ensures Apply(Apply(c, p), Inverse(p)) == c
  {
    UndoPrimitiveTiles(c, p);
    CubeExtensionality(Apply(Apply(c, p), Inverse(p)), c);
  }

  lemma UndoPrimitiveTiles(c: Cube, p: Primitive)
    requires ValidCube(c)
    ensures forall q: Pos | ValidPos(q) :: Tile(Apply(Apply(c, p), Inverse(p)), q) == Tile(c, q)
  {
    forall q: Pos | ValidPos(q)
      ensures Tile(Apply(Apply(c, p), Inverse(p)), q) == Tile(c, q)
    {
      UndoPrimitiveAt(c, p, q);
    }
  }

  lemma UndoPrimitiveAt(c: Cube, p: Primitive, q: Pos)
    requires ValidCube(c) && ValidPos(q)
    ensures Tile(Apply(Apply(c, p), Inverse(p)), q) == Tile(c, q)
  {
    ApplyPointwise(Apply(c, p), Inverse(p), q);
    ApplyPointwise(c, p, Source(Inverse(p), q));
    SourceUndo(p, q);
  }

  /** turnLeft / turnRight / turnUp / turnDown: the whole cube is turned a
      quarter by moving all three rows (or all three columns) the same way.
      Primitive k of the three moves strip k. */
  function ReorientPrimitives(d: Dir): (ps: seq<Primitive>)
    ensures |ps| == 3
    ensures forall k | 0 <= k < 3 ::
              && StepOf(ps[k]).dir == d && StepOf(ps[k]).strip.index == k
              && StepOf(ps[k]).strip.RowStrip? == (d == ToLeft || d == ToRight)
  {
    match d
    case ToLeft => [U, Cl, Dr]
    case ToRight => [Ur, Cr, D]
    case ToUp => [Lr, Cu, R]
    case ToDown => [L, Cd, Rr]
  }

  function Reorient(c: Cube, d: Dir): (r: Cube)
    requires ValidCube(c)
    ensures ValidCube(r)
  {
    var ps := ReorientPrimitives(d);
    Apply(Apply(Apply(c, ps[0]), ps[1]), ps[2])
  }

  /** Whether a reorientation in direction d turns the face y on its axis
      clockwise: turning left turns up clockwise and down counterclockwise,
      turning up turns right clockwise and left counterclockwise. */
  predicate AxisClockwise(d: Dir, y: Label)
  {
    match d
    case ToLeft => y == Up
    case ToRight => y == Down
    case ToUp => y == Right
    case ToDown => y == Left
  }

  /** The reference description of a reorientation, tile by tile: every
      face of the front's cycle takes over its predecessor's whole face
      (mirrored when it crosses to or from the back face in a vertical
      turn), and the two faces on the axis are quarter-turned. */
  function RotationSource(d: Dir, q: Pos): (o: Pos)
    requires ValidPos(q)
    ensures ValidPos(o)
  {
    var y := q.face;
    if y in Cycle(Front, d) then
      var from := Prev(Front, d, y);
      if d == ToLeft || d == ToRight then Pos(from, q.slot) else Pos(from, Carried(from, q))
    else Pos(y, TurnSource(AxisClockwise(d, y), q.slot))
  }

  /** A row primitive, seen from a face of its cycle: row i moves in from
      the predecessor, every other tile stays, and the tile stays on the
      cycle. */
  lemma RowPrimitiveOnCycle(p: Primitive, q: Pos)
    requires ValidPos(q) && StepOf(p).strip.RowStrip? && q.face in Cycle(Front, StepOf(p).dir)
    ensures Source(p, q) == if q.slot / 3 == StepOf(p).strip.index
                             then Pos(Prev(Front, StepOf(p).dir, q.face), q.slot) else q
    ensures Source(p, q).face in Cycle(Front, StepOf(p).dir)
  {
    SourceOnCycle(p, q);
    RowShiftSource(Front, StepOf(p).strip.index, StepOf(p).dir, q);
  }

  /** The same for a column primitive; the tile keeps its column as seen
      from outside. */
  lemma ColumnPrimitiveOnCycle(p: Primitive, q: Pos)
    requires ValidPos(q) && StepOf(p).strip.ColumnStrip? && q.face in Cycle(Front, StepOf(p).dir)
    ensures Source(p, q) == if ColumnOf(IsInverted(q.face), q.slot) == StepOf(p).strip.index
                             then Pos(Prev(Front, StepOf(p).dir, q.face), Carried(Prev(Front, StepOf(p).dir, q.face), q))
                             else q
    ensures Source(p, q).face in Cycle(Front, StepOf(p).dir)
    ensures ColumnOf(IsInverted(Source(p, q).face), Source(p, q).slot) == ColumnOf(IsInverted(q.face), q.slot)
  {
    var st := StepOf(p);
    SourceOnCycle(p, q);
    ColumnShiftSource(Front, st.strip.index, st.dir, q);
    if ColumnOf(IsInverted(q.face), q.slot) == st.strip.index {
      CarriedColumn(Prev(Front, st.dir, q.face), q);
    }
  }

  /** On a face of its cycle a primitive only shifts: the face it turns is
      off the cycle. */
  lemma SourceOnCycle(p: Primitive, q: Pos)
    requires ValidPos(q) && q.face in Cycle(Front, StepOf(p).dir)
    ensures Source(p, q) == ShiftSource(Front, StepOf(p).strip, StepOf(p).dir, q)
  {
  }

  /** Off its cycle a primitive only turns its face. */
  lemma PrimitiveOffCycle(p: Primitive, q: Pos)
    requires ValidPos(q) && q.face !in Cycle(Front, StepOf(p).dir)
    ensures var t := StepOf(p).turn;
            Source(p, q) == if t.Some? && t.value.face == q.face
                            then Pos(q.face, TurnSource(t.value.clockwise, q.slot)) else q
  {
    var st := StepOf(p);
    var q0 := if st.turn.Some? then TurnFaceSource(st.turn.value.face, st.turn.value.clockwise, q) else q;
    assert q0.face == q.face;
    if st.strip.RowStrip? {
      RowShiftSource(Front, st.strip.index, st.dir, q0);
    } else {
      ColumnShiftSource(Front, st.strip.index, st.dir, q0);
    }
  }

  lemma ReorientSourceSide(d: Dir, q: Pos)
    requires ValidPos(q) && q.face in Cycle(Front, d)
    ensures var ps := ReorientPrimitives(d);
            Source(ps[0], Source(ps[1], Source(ps[2], q))) == RotationSource(d, q)
  {
    var ps := ReorientPrimitives(d);
    if d == ToLeft || d == ToRight {
      RowPrimitiveOnCycle(ps[2], q);
      RowPrimitiveOnCycle(ps[1], Source(ps[2], q));
      RowPrimitiveOnCycle(ps[0], Source(ps[1], Source(ps[2], q)));
    } else {
      ColumnPrimitiveOnCycle(ps[2], q);
      ColumnPrimitiveOnCycle(ps[1], Source(ps[2], q));
      ColumnPrimitiveOnCycle(ps[0], Source(ps[1], Source(ps[2], q)));
    }
  }

  lemma ReorientSourceAxis(d: Dir, q: Pos)
    requires ValidPos(q) && q.face !in Cycle(Front, d)
    ensures var ps := ReorientPrimitives(d);
            Source(ps[0], Source(ps[1], Source(ps[2], q))) == RotationSource(d, q)
  {
    var ps := ReorientPrimitives(d);
    var q2 := Source(ps[2], q);
    var q1 := Source(ps[1], q2);
    PrimitiveOffCycle(ps[2], q);
    assert q2.face == q.face;
    PrimitiveOffCycle(ps[1], q2);
    assert q1.face == q.face;
    PrimitiveOffCycle(ps[0], q1);
    AxisTurns(d, q.face);
  }

  /** Of the three primitives that turn the cube, the first turns the up or
      left face and the last the down or right face, in the sense the whole
      cube turns; the middle one turns nothing. */
  lemma AxisTurns(d: Dir, y: Label)
    requires y !in Cycle(Front, d)
    ensures var ps := ReorientPrimitives(d);
            && StepOf(ps[1]).turn.None?
            && StepOf(ps[0]).turn.Some? && StepOf(ps[2]).turn.Some?
            && StepOf(ps[0]).turn.value.face != StepOf(ps[2]).turn.value.face
            && (StepOf(ps[0]).turn.value.face == y || StepOf(ps[2]).turn.value.face == y)
            && (StepOf(ps[0]).turn.value.face == y ==> StepOf(ps[0]).turn.value.clockwise == AxisClockwise(d, y))
            && (StepOf(ps[2]).turn.value.face == y ==> StepOf(ps[2]).turn.value.clockwise == AxisClockwise(d, y))
  {
  }

  /** A reorientation moves every tile exactly as RotationSource says. */
  lemma ReorientPointwise(c: Cube, d: Dir, q: Pos)
    requires ValidCube(c) && ValidPos(q)
    ensures Tile(Reorient(c, d), q) == Tile(c, RotationSource(d, q))
  {
    var ps := ReorientPrimitives(d);
    var c1 := Apply(c, ps[0]);
    var c2 := Apply(c1, ps[1]);
    ApplyPointwise(c2, ps[2], q);
    ApplyPointwise(c1, ps[1], Source(ps[2], q));
    ApplyPointwise(c, ps[0], Source(ps[1], Source(ps[2], q)));
    if q.face in Cycle(Front, d) {
      ReorientSourceSide(d, q);
    } else {
      ReorientSourceAxis(d, q);
    }
  }

  /** Turning the cube one way and then the other puts every tile back. */
  lemma RotationSourceUndo(d: Dir, q: Pos)
    requires ValidPos(q)
    ensures RotationSource(d, RotationSource(Opposite(d), q)) == q
  {
    var y := q.face;
    PrevOpposite(Front, d, y);
    if y in Cycle(Front, d) {
      RotationSideUndo(d, q);
    } else {
      AxisOpposite(d, y);
      TurnSourceUndo(AxisClockwise(d, y), q.slot);
    }
  }

  lemma RotationSideUndo(d: Dir, q: Pos)
    requires ValidPos(q) && q.face in Cycle(Front, d)
    ensures RotationSource(d, RotationSource(Opposite(d), q)) == q
  {
    var y := q.face;
    PrevOpposite(Front, d, y);
    var from := Prev(Front, Opposite(d), y);
    var o := RotationSource(Opposite(d), q);
    assert o.face == from;
    if !(d == ToLeft || d == ToRight) {
      assert o.slot == Carried(from, q);
      assert Carried(y, o) == q.slot;
    }
  }

  /** Turning the cube the other way turns the axis faces the other way. */
  lemma AxisOpposite(d: Dir, y: Label)
    requires y !in Cycle(Front, d)
    ensures y !in Cycle(Front, Opposite(d))
    ensures AxisClockwise(Opposite(d), y) == !AxisClockwise(d, y)
  {
    PrevOpposite(Front, d, y);
  }

  /** turnLeft is undone by turnRight, turnUp by turnDown, and the other
      way round. */
  lemma ReorientUndo(c: Cube, d: Dir)
    requires ValidCube(c)
    ensures Reorient(Reorient(c, d), Opposite(d)) == c
  {
    var r := Reorient(Reorient(c, d), Opposite(d));
    forall q: Pos | ValidPos(q)
      ensures Tile(r, q) == Tile(c, q)
    {
      ReorientUndoAt(c, d, q);
    }
    CubeExtensionality(r, c);
  }

  lemma ReorientUndoAt(c: Cube, d: Dir, q: Pos)
    requires ValidCube(c) && ValidPos(q)
    ensures Tile(Reorient(Reorient(c, d), Opposite(d)), q) == Tile(c, q)
  {
    ReorientPointwise(Reorient(c, d), Opposite(d), q);
    ReorientPointwise(c, d, RotationSource(Opposite(d), q));
    RotationSourceUndo(d, q);
  }

  /** The four face turns (Cube.f, Cube.fr, Cube.b, Cube.br). Each turns the
      cube sideways so that the face to be turned sits at one side, turns
      that side with a primitive, and turns the cube back. */
  datatype FaceMove = F | Fr | B | Br

  /** How a face turn is built: the sideways turn made first, the primitive,
      and the side face the target face passes through. f = turnRight, r,
      turnLeft; fr = turnLeft, lr, turnRight; b = turnRight, l, turnLeft;
      br = turnLeft, rr, turnRight. */
  datatype Plan = Plan(first: Dir, prim: Primitive, side: Label)

  function PlanOf(m: FaceMove): Plan
  {
    match m
    case F => Plan(ToRight, R, Right)
    case Fr => Plan(ToLeft, Lr, Left)
    case B => Plan(ToRight, L, Left)
    case Br => Plan(ToLeft, Rr, Right)
  }

  function ApplyFaceMove(c: Cube, m: FaceMove): (r: Cube)
    requires ValidCube(c)
    ensures ValidCube(r)
  {
    var plan := PlanOf(m);
    Reorient(Apply(Reorient(c, plan.first), plan.prim), Opposite(plan.first))
  }

  /** The face a face turn is named after, and its turning sense. */
  function Target(m: FaceMove): Label
  {
    if m == F || m == Fr then Front else Back
  }

  predicate TurnsClockwise(m: FaceMove)
  {
    m == F || m == B
  }

  /** Every plan is well built: the first sideways turn carries the target
      face onto the side face, the primitive turns the side face (which is
      off its shift's cycle) in the target's sense, and turning back carries
      the side face onto the target again. */
  lemma PlanFits(m: FaceMove)
    ensures var plan := PlanOf(m);
            && (plan.first == ToLeft || plan.first == ToRight)
            && plan.side in Cycle(Front, plan.first) && Prev(Front, plan.first, plan.side) == Target(m)
            && Target(m) in Cycle(Front, Opposite(plan.first))
            && Prev(Front, Opposite(plan.first), Target(m)) == plan.side
            && plan.side !in Cycle(Front, StepOf(plan.prim).dir)
            && StepOf(plan.prim).turn == Some(FaceTurn(plan.side, TurnsClockwise(m)))
  {
  }

  /** One tile of the target face after a face turn: it is the tile the
      quarter turn of the target face would put there. */
  lemma FaceMoveAt(c: Cube, m: FaceMove, k: nat)
    requires ValidCube(c) && k < 9
    ensures Tile(ApplyFaceMove(c, m), Pos(Target(m), k))
         == Tile(c, Pos(Target(m), TurnSource(TurnsClockwise(m), k)))
  {
    var plan := PlanOf(m);
    var d := plan.first;
    var y := Target(m);
    var t := TurnSource(TurnsClockwise(m), k);
    PlanFits(m);
    ReorientPointwise(Apply(Reorient(c, d), plan.prim), Opposite(d), Pos(y, k));
    ApplyPointwise(Reorient(c, d), plan.prim, Pos(plan.side, k));
    PrimitiveOffCycle(plan.prim, Pos(plan.side, k));
    ReorientPointwise(c, d, Pos(plan.side, t));
  }

  /** f and b quarter-turn the front and back face clockwise, fr and br
      counterclockwise. */
  lemma FaceMoveTurnsTarget(c: Cube, m: FaceMove)
    requires ValidCube(c)
    ensures Get(ApplyFaceMove(c, m), Target(m)) == Turn(Get(c, Target(m)), TurnsClockwise(m))
  {
    FaceMoveTiles(c, m);
    FaceExtensionality(Get(ApplyFaceMove(c, m), Target(m)), Turn(Get(c, Target(m)), TurnsClockwise(m)));
  }

  lemma FaceMoveTiles(c: Cube, m: FaceMove)
    requires ValidCube(c)
    ensures forall k | 0 <= k < 9 ::
              Get(ApplyFaceMove(c, m), Target(m)).tiles[k] == Turn(Get(c, Target(m)), TurnsClockwise(m)).tiles[k]
  {
    forall k | 0 <= k < 9
      ensures Get(ApplyFaceMove(c, m), Target(m)).tiles[k] == Turn(Get(c, Target(m)), TurnsClockwise(m)).tiles[k]
    {
      FaceMoveAt(c, m, k);
    }
  }

  /** The face opposite the one a face move turns. */
  function Far(m: FaceMove): (y: Label)
    ensures y != Target(m) && y in Cycle(Front, ToLeft)
  {
    if Target(m) == Front then Back else Front
  }

  /** f and fr leave the back face alone, b and br the front face. */
  lemma FaceMoveKeepsFar(c: Cube, m: FaceMove)
    requires ValidCube(c)
    ensures Get(ApplyFaceMove(c, m), Far(m)) == Get(c, Far(m))
  {
    FarTiles(c, m);
    FaceExtensionality(Get(ApplyFaceMove(c, m), Far(m)), Get(c, Far(m)));
  }

  lemma FarTiles(c: Cube, m: FaceMove)
    requires ValidCube(c)
    ensures forall k | 0 <= k < 9 :: Get(ApplyFaceMove(c, m), Far(m)).tiles[k] == Get(c, Far(m)).tiles[k]
  {
    forall k | 0 <= k < 9
      ensures Get(ApplyFaceMove(c, m), Far(m)).tiles[k] == Get(c, Far(m)).tiles[k]
    {
      FaceMovePointwise(c, m, Pos(Far(m), k));
      FarSource(m, k);
    }
  }

  /** The far face is carried to a side face, which the primitive leaves
      alone, and carried back. */
  lemma FarSource(m: FaceMove, k: nat)
    requires k < 9
    ensures FaceMoveSource(m, Pos(Far(m), k)) == Pos(Far(m), k)
  {
    match m
    case F => FarSourceF(k);
    case Fr => FarSourceFr(k);
    case B => FarSourceB(k);
    case Br => FarSourceBr(k);
  }

  // One lemma per face move rather than one proof over all four: each case
  // is then a small, separate proof obligation for the solver.
  lemma FarSourceF(k: nat)
    requires k < 9
    ensures FaceMoveSource(F, Pos(Back, k)) == Pos(Back, k)
  {
    PrimitiveOffCycle(R, Pos(Left, k));
  }

  lemma FarSourceFr(k: nat)
    requires k < 9
    ensures FaceMoveSource(Fr, Pos(Back, k)) == Pos(Back, k)
  {
    PrimitiveOffCycle(Lr, Pos(Right, k));
  }

  lemma FarSourceB(k: nat)
    requires k < 9
    ensures FaceMoveSource(B, Pos(Front, k)) == Pos(Front, k)
  {
    PrimitiveOffCycle(L, Pos(Right, k));
  }

  lemma FarSourceBr(k: nat)
    requires k < 9
    ensures FaceMoveSource(Br, Pos(Front, k)) == Pos(Front, k)
  {
    FrontLeftRotations(k);
    PrimitiveOffCycle(Rr, Pos(Left, k));
  }

  /** Turning right carries the front onto the right face, so the tile now on
      the front came from the left face; turning left brings it back. */
  lemma FrontLeftRotations(k: nat)
    requires k < 9
    ensures RotationSource(ToRight, Pos(Front, k)) == Pos(Left, k)
    ensures RotationSource(ToLeft, Pos(Left, k)) == Pos(Front, k)
  {
    ChainFacts(Front, ToRight);
    ChainFacts(Front, ToLeft);
  }

  lemma ReorientKeepsTiles(c: Cube, d: Dir)
    requires ValidCube(c)
    ensures multiset(AllTiles(Reorient(c, d))) == multiset(AllTiles(c))
  {
    var ps := ReorientPrimitives(d);
    ApplyKeepsTiles(c, ps[0]);
    ApplyKeepsTiles(Apply(c, ps[0]), ps[1]);
    ApplyKeepsTiles(Apply(Apply(c, ps[0]), ps[1]), ps[2]);
  }

  lemma FaceMoveKeepsTiles(c: Cube, m: FaceMove)
    requires ValidCube(c)
    ensures multiset(AllTiles(ApplyFaceMove(c, m))) == multiset(AllTiles(c))
  {
    var plan := PlanOf(m);
    var c1 := Reorient(c, plan.first);
    ReorientKeepsTiles(c, plan.first);
    ApplyKeepsTiles(c1, plan.prim);
    ReorientKeepsTiles(Apply(c1, plan.prim), Opposite(plan.first));
  }

  /** Where the tile now at q was before face move m. */
  function FaceMoveSource(m: FaceMove, q: Pos): (o: Pos)
    requires ValidPos(q)
    ensures ValidPos(o)
  {
    var plan := PlanOf(m);
    RotationSource(plan.first, Source(plan.prim, RotationSource(Opposite(plan.first), q)))
  }

  lemma FaceMovePointwise(c: Cube, m: FaceMove, q: Pos)
    requires ValidCube(c) && ValidPos(q)
    ensures Tile(ApplyFaceMove(c, m), q) == Tile(c, FaceMoveSource(m, q))
  {
    var plan := PlanOf(m);
    var d := plan.first;
    var c1 := Reorient(c, d);
    ReorientPointwise(Apply(c1, plan.prim), Opposite(d), q);
    ApplyPointwise(c1, plan.prim, RotationSource(Opposite(d), q));
    ReorientPointwise(c, d, Source(plan.prim, RotationSource(Opposite(d), q)));
  }

  /** The face move that takes m back: f and fr, b and br. */
  function Reverse(m: FaceMove): (r: FaceMove)
    ensures Target(r) == Target(m) && TurnsClockwise(r) == !TurnsClockwise(m)
  {
    match m
    case F => Fr
    case Fr => F
    case B => Br
    case Br => B
  }

  /** The half turn of the whole cube about the vertical axis, which the
      sideways turns give when made twice: front and back change places,
      left and right change places, up and down are turned by 180 degrees. */
  function Half(q: Pos): (o: Pos)
    requires ValidPos(q)
    ensures ValidPos(o)
  {
    match q.face
    case Front => Pos(Back, q.slot)
    case Back => Pos(Front, q.slot)
    case Left => Pos(Right, q.slot)
    case Right => Pos(Left, q.slot)
    case _ => Pos(q.face, 8 - q.slot)
  }

  lemma HalfInvolution(q: Pos)
    requires ValidPos(q)
    ensures Half(Half(q)) == q
  {
  }

  /** turnLeft twice, or turnRight twice, is the half turn. */
  lemma RotationTwice(d: Dir, q: Pos)
    requires ValidPos(q) && (d == ToLeft || d == ToRight)
    ensures RotationSource(d, RotationSource(d, q)) == Half(q)
  {
    if q.face == Up || q.face == Down {
      RotationTwicePole(d, q);
    } else {
      RotationTwiceRing(d, q);
    }
  }

  /** Up and down stay in place and are quarter-turned twice the same way. */
  lemma RotationTwicePole(d: Dir, q: Pos)
    requires ValidPos(q) && (d == ToLeft || d == ToRight) && (q.face == Up || q.face == Down)
    ensures RotationSource(d, RotationSource(d, q)) == Half(q)
  {
    assert q.face !in Cycle(Front, d);
    TurnTwice(AxisClockwise(d, q.face), q.slot);
  }

  /** A face on the sideways ring comes from two steps back along it. */
  lemma RotationTwiceRing(d: Dir, q: Pos)
    requires ValidPos(q) && (d == ToLeft || d == ToRight) && q.face != Up && q.face != Down
    ensures RotationSource(d, RotationSource(d, q)) == Half(q)
  {
    ChainFacts(Front, d);
  }

  /** Seen after a half turn, r is l: the half turn swaps the left and the
      right column of every face on the front's vertical cycle. */
  lemma HalfSwapsRL(w: Pos)
    requires ValidPos(w)
    ensures Source(R, Half(w)) == Half(Source(L, w))
  {
    if w.face == Left || w.face == Right {
      PrimitiveOffCycle(R, Half(w));
      PrimitiveOffCycle(L, w);
    } else if w.face == Up {
      HalfSwapsUp(w);
    } else if w.face == Down {
      HalfSwapsDown(w);
    } else if w.face == Front {
      HalfSwapsFront(w);
    } else {
      HalfSwapsBack(w);
    }
  }

  // One lemma per face rather than one proof over all of them: each case
  // is then a small, separate proof obligation for the solver.
  lemma HalfSwapsUp(w: Pos)
    requires ValidPos(w) && w.face == Up
    ensures Source(R, Half(w)) == Half(Source(L, w))
  {
    ColumnMirror(w.slot);
    ColumnPrimitiveOnCycle(R, Half(w));
    ColumnPrimitiveOnCycle(L, w);
  }

  lemma HalfSwapsDown(w: Pos)
    requires ValidPos(w) && w.face == Down
    ensures Source(R, Half(w)) == Half(Source(L, w))
  {
    ColumnMirror(w.slot);
    ColumnPrimitiveOnCycle(R, Half(w));
    ColumnPrimitiveOnCycle(L, w);
  }

  lemma HalfSwapsFront(w: Pos)
    requires ValidPos(w) && w.face == Front
    ensures Source(R, Half(w)) == Half(Source(L, w))
  {
    ColumnMirror(w.slot);
    ColumnPrimitiveOnCycle(R, Half(w));
    ColumnPrimitiveOnCycle(L, w);
  }

  lemma HalfSwapsBack(w: Pos)
    requires ValidPos(w) && w.face == Back
    ensures Source(R, Half(w)) == Half(Source(L, w))
  {
    ColumnMirror(w.slot);
    ColumnPrimitiveOnCycle(R, Half(w));
    ColumnPrimitiveOnCycle(L, w);
  }

  /** And l is r. */
  lemma HalfSwapsLR(w: Pos)
    requires ValidPos(w)
    ensures Source(L, Half(w)) == Half(Source(R, w))
  {
    var v := Half(w);
    HalfSwapsRL(v);
    HalfInvolution(w);
    HalfInvolution(Source(L, v));
  }

  /** The face moves undo each other tile by tile. */
  lemma FaceMoveSourceUndo(m: FaceMove, q: Pos)
    requires ValidPos(q)
    ensures FaceMoveSource(m, FaceMoveSource(Reverse(m), q)) == q
  {
    var plan := PlanOf(m);
    var back := PlanOf(Reverse(m));
    PlanReverse(m);
    MiddleUndo(m, RotationSource(plan.first, q));
    UndoShape(plan.first, plan.prim, back.prim, q);
  }

  lemma PlanReverse(m: FaceMove)
    ensures var d := PlanOf(m).first;
            && (d == ToLeft || d == ToRight)
            && PlanOf(Reverse(m)).first == Opposite(d) && Opposite(Opposite(d)) == d
  {
  }

  /** The shape the four round trips share: turn the cube, make a
      primitive, turn the cube twice the other way, make a primitive, turn
      back. It is the identity once the middle part is the half turn. */
  lemma UndoShape(d: Dir, p: Primitive, p2: Primitive, q: Pos)
    requires ValidPos(q) && (d == ToLeft || d == ToRight)
    requires Source(p, Half(Source(p2, RotationSource(d, q)))) == Half(RotationSource(d, q))
    ensures RotationSource(d, Source(p, RotationSource(Opposite(d),
              RotationSource(Opposite(d), Source(p2, RotationSource(d, q)))))) == q
  {
    var y := RotationSource(d, q);
    RotationTwice(Opposite(d), Source(p2, y));
    RotationTwice(Opposite(d), y);
    RotationSourceUndo(d, RotationSource(Opposite(d), y));
    RotationSourceUndo(Opposite(d), q);
  }

  /** The middle part of each round trip: the two primitives with the half
      turn between them amount to the half turn. */
  lemma MiddleUndo(m: FaceMove, y: Pos)
    requires ValidPos(y)
    ensures Source(PlanOf(m).prim, Half(Source(PlanOf(Reverse(m)).prim, y))) == Half(y)
  {
    match m
    case F => MiddleUndoF(y);
    case B => MiddleUndoB(y);
    case Fr => MiddleUndoFr(y);
    case Br => MiddleUndoBr(y);
  }

  // One lemma per face move rather than one proof over all four: each case
  // is then a small, separate proof obligation for the solver.
  lemma MiddleUndoF(y: Pos)
    requires ValidPos(y)
    ensures Source(R, Half(Source(Lr, y))) == Half(y)
  {
    HalfSwapsRL(Source(Lr, y));
    UndoAfterSwap(R, L, Lr, y);
  }

  lemma MiddleUndoB(y: Pos)
    requires ValidPos(y)
    ensures Source(L, Half(Source(Rr, y))) == Half(y)
  {
    HalfSwapsLR(Source(Rr, y));
    UndoAfterSwap(L, R, Rr, y);
  }

  lemma MiddleUndoFr(y: Pos)
    requires ValidPos(y)
    ensures Source(Lr, Half(Source(R, y))) == Half(y)
  {
    HalfSwapsLR(y);
    UndoBeforeSwap(Lr, L, R, y);
  }

  lemma MiddleUndoBr(y: Pos)
    requires ValidPos(y)
    ensures Source(Rr, Half(Source(L, y))) == Half(y)
  {
    HalfSwapsRL(y);
    UndoBeforeSwap(Rr, R, L, y);
  }

  lemma UndoAfterSwap(p: Primitive, mp: Primitive, p2: Primitive, y: Pos)
    requires ValidPos(y) && Inverse(mp) == p2
    requires Source(p, Half(Source(p2, y))) == Half(Source(mp, Source(p2, y)))
    ensures Source(p, Half(Source(p2, y))) == Half(y)
  {
    SourceUndo(mp, y);
  }

  lemma UndoBeforeSwap(p: Primitive, mp: Primitive, p2: Primitive, y: Pos)
    requires ValidPos(y) && Inverse(p) == mp
    requires Source(mp, Half(y)) == Half(Source(p2, y))
    ensures Source(p, Half(Source(p2, y))) == Half(y)
  {
    SourceUndo(p, Half(y));
  }

  /** fr undoes f and br undoes b, and the other way round. */
  lemma FaceMoveUndo(c: Cube, m: FaceMove)
    requires ValidCube(c)
    ensures ApplyFaceMove(ApplyFaceMove(c, m), Reverse(m)) == c
  {
    FaceMoveUndoTiles(c, m);
    CubeExtensionality(ApplyFaceMove(ApplyFaceMove(c, m), Reverse(m)), c);
  }

  lemma FaceMoveUndoTiles(c: Cube, m: FaceMove)
    requires ValidCube(c)
    ensures forall q: Pos | ValidPos(q) :: Tile(ApplyFaceMove(ApplyFaceMove(c, m), Reverse(m)), q) == Tile(c, q)
  {
    forall q: Pos | ValidPos(q)
      ensures Tile(ApplyFaceMove(ApplyFaceMove(c, m), Reverse(m)), q) == Tile(c, q)
    {
      FaceMoveUndoAt(c, m, q);
    }
  }

  lemma FaceMoveUndoAt(c: Cube, m: FaceMove, q: Pos)
    requires ValidCube(c) && ValidPos(q)
    ensures Tile(ApplyFaceMove(ApplyFaceMove(c, m), Reverse(m)), q) == Tile(c, q)
  {
    FaceMovePointwise(ApplyFaceMove(c, m), Reverse(m), q);
    FaceMovePointwise(c, m, FaceMoveSource(Reverse(m), q));
    FaceMoveSourceUndo(m, q);
  }

  /** Every operation a user can trigger on the cube. */
  datatype Command = Prim(p: Primitive) | Spin(d: Dir) | Side(m: FaceMove)

  function Run(c: Cube, cmd: Command): (r: Cube)
    requires ValidCube(c)
    ensures ValidCube(r)
  {
    match cmd
    case Prim(p) => Apply(c, p)
    case Spin(d) => Reorient(c, d)
    case Side(m) => ApplyFaceMove(c, m)
  }

  /** Run the commands in order, the last one last. */
  function RunAll(c: Cube, cmds: seq<Command>): (r: Cube)
    requires ValidCube(c)
    ensures ValidCube(r)
    decreases |cmds|
  {
    if |cmds| == 0 then c else Run(RunAll(c, cmds[..|cmds| - 1]), cmds[|cmds| - 1])
  }

  lemma RunKeepsTiles(c: Cube, cmd: Command)
    requires ValidCube(c)
    ensures multiset(AllTiles(Run(c, cmd))) == multiset(AllTiles(c))
  {
    match cmd
    case Prim(p) => ApplyKeepsTiles(c, p);
    case Spin(d) => ReorientKeepsTiles(c, d);
    case Side(m) => FaceMoveKeepsTiles(c, m);
  }

  /** No sequence of commands creates, destroys or recolours a tile. */
  lemma {:induction false} RunAllKeepsTiles(c: Cube, cmds: seq<Command>)
    requires ValidCube(c)
    ensures multiset(AllTiles(RunAll(c, cmds))) == multiset(AllTiles(c))
    decreases |cmds|
  {
    if |cmds| > 0 {
      RunAllKeepsTiles(c, cmds[..|cmds| - 1]);
      RunKeepsTiles(RunAll(c, cmds[..|cmds| - 1]), cmds[|cmds| - 1]);
    }
  }

  /** Running two command lists one after the other is running their
      concatenation. */
  lemma RunAllSnoc(c: Cube, cmds: seq<Command>, cmd: Command)
    requires ValidCube(c)
    ensures RunAll(c, cmds + [cmd]) == Run(RunAll(c, cmds), cmd)
  {
    assert (cmds + [cmd])[..|cmds|] == cmds;
  }

  lemma {:induction false} RunAllAppend(c: Cube, a: seq<Command>, b: seq<Command>)
    requires ValidCube(c)
    ensures RunAll(c, a + b) == RunAll(RunAll(c, a), b)
    decreases |b|
  {
    if |b| == 0 {
      assert a + b == a;
    } else {
      var init := b[..|b| - 1];
      var last := b[|b| - 1];
      assert a + b == (a + init) + [last];
      assert b == init + [last];
      RunAllSnoc(c, a + init, last);
      RunAllSnoc(RunAll(c, a), init, last);
      RunAllAppend(c, a, init);
    }
  }

  /** The command that takes a command back: the reverse primitive, the
      opposite whole-cube turn, the reverse face move. */
  function Undo(cmd: Command): (u: Command)
    ensures u.Prim? == cmd.Prim? && u.Spin? == cmd.Spin? && u.Side? == cmd.Side?
  {
    match cmd
    case Prim(p) => Prim(Inverse(p))
    case Spin(d) => Spin(Opposite(d))
    case Side(m) => Side(Reverse(m))
  }

  lemma UndoRun(c: Cube, cmd: Command)
    requires ValidCube(c)
    ensures Run(Run(c, cmd), Undo(cmd)) == c
  {
    match cmd
    case Prim(p) => UndoPrimitive(c, p);
    case Spin(d) => ReorientUndo(c, d);
    case Side(m) => FaceMoveUndo(c, m);
  }

  /** The undo list: every command taken back, the last one first. */
  function UndoAll(cmds: seq<Command>): (u: seq<Command>)
    ensures |u| == |cmds|
    ensures forall k | 0 <= k < |u| :: u[k] == Undo(cmds[|cmds| - 1 - k])
    decreases |cmds|
  {
    if |cmds| == 0 then [] else [Undo(cmds[|cmds| - 1])] + UndoAll(cmds[..|cmds| - 1])
  }

  /** Taking back every command, last one first, restores the cube. */
  lemma {:induction false} UndoAllRestores(c: Cube, cmds: seq<Command>)
    requires ValidCube(c)
    ensures RunAll(RunAll(c, cmds), UndoAll(cmds)) == c
    decreases |cmds|
  {
    if |cmds| > 0 {
      var init := cmds[..|cmds| - 1];
      var last := cmds[|cmds| - 1];
      var mid := RunAll(c, init);
      var u := Undo(last);
      var x := Run(mid, last);
      assert UndoAll(cmds) == [u] + UndoAll(init);
      RunAllAppend(x, [u], UndoAll(init));
      assert RunAll(x, [u]) == Run(x, u) by {
        assert [u][..0] == [];
      }
      UndoRun(mid, last);
      UndoAllRestores(c, init);
    }
  }

  /** Every label has a face and only the back face is inverted: what
      Cube.init wires up before the first reset. */
  predicate Wired(c: Cube)
  {
    forall x: Label :: x in c.faces && c.faces[x].inverted == IsInverted(x)
  }

  /** Every tile shows the colour of the face it is on. */
  ghost predicate Solved(c: Cube)
    requires ValidCube(c)
  {
    forall q: Pos | ValidPos(q) :: Tile(c, q) == ColourOf(q.face)
  }

  /** Cube.reset: the face at position i of f, l, r, u, d, b gets nine tiles
      of colour i + 1; the faces keep their inverted flag. */
  function Reset(c: Cube): (r: Cube)
    requires Wired(c)
    ensures ValidCube(r) && Solved(r)
  {
    Cube(map x | x in c.faces :: Face(seq(9, _ => ColourOf(x)), c.faces[x].inverted))
  }

  /** Cube.init: six faces without tiles, only the back one inverted, then
      a reset. */
  function Init(): (r: Cube)
    ensures ValidCube(r) && Solved(r)
  {
    var blank := Cube(map x | x in Labels :: Face([], IsInverted(x)));
    assert Wired(blank) by {
      forall x: Label
        ensures x in blank.faces
      {
        EveryLabel(x);
      }
    }
    Reset(blank)
  }

  /** A sequence holding only k holds |s| copies of k and nothing else. */
  lemma {:induction false} UniformCount(s: seq<int>, k: int, v: int)
    requires forall i | 0 <= i < |s| :: s[i] == k
    ensures multiset(s)[v] == if v == k then |s| else 0
  {
    if |s| > 0 {
      var init := s[..|s| - 1];
      UniformCount(init, k, v);
      assert s == init + [s[|s| - 1]];
    }
  }

  /** Nine tiles of each colour 1..6 and no other values. */
  ghost predicate NineOfEach(c: Cube)
    requires ValidCube(c)
  {
    forall v :: multiset(AllTiles(c))[v] == if 1 <= v <= 6 then 9 else 0
  }

  /** One face of a solved cube holds nine tiles of its own colour. */
  lemma SolvedFaceCount(c: Cube, x: Label, v: int)
    requires ValidCube(c) && Solved(c)
    ensures multiset(Get(c, x).tiles)[v] == if v == ColourOf(x) then 9 else 0
  {
    forall i | 0 <= i < 9
      ensures Get(c, x).tiles[i] == ColourOf(x)
    {
      assert Tile(c, Pos(x, i)) == ColourOf(x);
    }
    UniformCount(Get(c, x).tiles, ColourOf(x), v);
  }

  lemma SolvedCount(c: Cube, v: int)
    requires ValidCube(c) && Solved(c)
    ensures multiset(AllTiles(c))[v] == if 1 <= v <= 6 then 9 else 0
  {
    AllTilesCount(c, v);
    SolvedFaceCount(c, Front, v);
    SolvedFaceCount(c, Left, v);
    SolvedFaceCount(c, Right, v);
    SolvedFaceCount(c, Up, v);
    SolvedFaceCount(c, Down, v);
    SolvedFaceCount(c, Back, v);
  }

  /** A solved cube holds nine tiles of each colour 1..6. */
  lemma SolvedNineOfEach(c: Cube)
    requires ValidCube(c) && Solved(c)
    ensures NineOfEach(c)
  {
    forall v
      ensures multiset(AllTiles(c))[v] == if 1 <= v <= 6 then 9 else 0
    {
      SolvedCount(c, v);
    }
  }

  /** However the cube is moved after a reset, it shows nine tiles of each
      of the six colours. */
  lemma ResetThenRun(c: Cube, cmds: seq<Command>)
    requires Wired(c)
    ensures NineOfEach(RunAll(Reset(c), cmds))
  {
    SolvedNineOfEach(Reset(c));
    RunAllKeepsTiles(Reset(c), cmds);
  }

  /** Shifting row i to the left, seen from the front, hands the front the
      right face's row i (each face receives its predecessor's strip, and
      the front's predecessor on the leftward cycle is the right face). */
  lemma FrontReceivesRight(c: Cube, i: nat)
    requires ValidCube(c) && i < 3
    ensures GetRow(Get(ShiftRow(c, Front, i, ToLeft), Front), i) == GetRow(Get(c, Right), i)
  {
    ChainFacts(Front, ToLeft);
    ShiftRowMoves(c, Front, i, ToLeft, Front, i);
  }

  /** A row primitive on a solved cube: the moved row of each face on the
      cycle shows its predecessor's colour, every other tile keeps its own. */
  lemma RowFromSolved(c: Cube, p: Primitive, y: Label, k: nat)
    requires ValidCube(c) && Solved(c) && StepOf(p).strip.RowStrip? && y in Cycle(Front, StepOf(p).dir) && k < 9
    ensures Tile(Apply(c, p), Pos(y, k))
              == if k / 3 == StepOf(p).strip.index then ColourOf(Prev(Front, StepOf(p).dir, y)) else ColourOf(y)
  {
    ApplyPointwise(c, p, Pos(y, k));
    RowPrimitiveOnCycle(p, Pos(y, k));
  }

  /** A primitive that shifts the top row to the left, on a solved cube:
      the front's top row shows the right face's colour 3, its middle row
      still shows its own colour 1. */
  lemma FrontAfterTopRowLeft(c: Cube, p: Primitive)
    requires ValidCube(c) && Solved(c) && StepOf(p).strip == RowStrip(0) && StepOf(p).dir == ToLeft
    ensures GetRow(Get(Apply(c, p), Front), 0) == [3, 3, 3]
    ensures GetRow(Get(Apply(c, p), Front), 1) == [1, 1, 1]
  {
    var f := Get(Apply(c, p), Front);
    FrontTileAfterTopRowLeft(c, p, 0);
    FrontTileAfterTopRowLeft(c, p, 1);
    FrontTileAfterTopRowLeft(c, p, 2);
    FrontTileAfterTopRowLeft(c, p, 3);
    FrontTileAfterTopRowLeft(c, p, 4);
    FrontTileAfterTopRowLeft(c, p, 5);
    assert GetRow(f, 0) == [f.tiles[0], f.tiles[1], f.tiles[2]];
    assert GetRow(f, 1) == [f.tiles[3], f.tiles[4], f.tiles[5]];
  }

  lemma FrontTileAfterTopRowLeft(c: Cube, p: Primitive, k: nat)
    requires ValidCube(c) && Solved(c) && StepOf(p).strip == RowStrip(0) && StepOf(p).dir == ToLeft && k < 9
    ensures Tile(Apply(c, p), Pos(Front, k)) == if k < 3 then 3 else 1
  {
    assert Prev(Front, ToLeft, Front) == Right;
    TopRowLeftFromSolved(c, p, k);
  }

  lemma TopRowLeftFromSolved(c: Cube, p: Primitive, k: nat)
    requires ValidCube(c) && Solved(c) && StepOf(p).strip == RowStrip(0) && StepOf(p).dir == ToLeft && k < 9
    ensures Tile(Apply(c, p), Pos(Front, k))
              == if k < 3 then ColourOf(Prev(Front, ToLeft, Front)) else ColourOf(Front)
  {
    assert k / 3 == 0 <==> k < 3;
    RowFromSolved(c, p, Front, k);
  }

  /** u is the primitive that shifts the top row to the left. */
  lemma UStep()
    ensures StepOf(U).strip == RowStrip(0) && StepOf(U).dir == ToLeft
  {
  }

  /** The concrete case: after u from the solved cube the front's top row
      is 3, 3, 3 (the right face's colour), while its middle row is still 1. */
  lemma FrontAfterU(c: Cube)
    requires ValidCube(c) && Solved(c)
    ensures GetRow(Get(Apply(c, U), Front), 0) == [3, 3, 3]
    ensures GetRow(Get(Apply(c, U), Front), 1) == [1, 1, 1]
  {
    UStep();
    FrontAfterTopRowLeft(c, U);
  }

  /** On a solved cube any primitive leaves the two faces off its cycle
      showing their own colour: the face it turns is solid, so turning it
      changes nothing visible. */
  lemma OffCycleFromSolved(c: Cube, p: Primitive, y: Label, k: nat)
    requires ValidCube(c) && Solved(c) && y !in Cycle(Front, StepOf(p).dir) && k < 9
    ensures Tile(Apply(c, p), Pos(y, k)) == ColourOf(y)
  {
    ApplyPointwise(c, p, Pos(y, k));
    PrimitiveOffCycle(p, Pos(y, k));
  }

  /** The twelve primitives Cube.scramble draws from, in its order. */
  const ScramblePool: seq<Primitive> := [L, Lr, R, Rr, U, Ur, D, Dr, Cl, Cr, Cu, Cd]

  /** Where a primitive sits in the pool: every primitive is in it. */
  function PoolIndex(p: Primitive): (i: nat)
    ensures i < |ScramblePool| && ScramblePool[i] == p
  {
    match p
    case L => 0
    case Lr => 1
    case R => 2
    case Rr => 3
    case U => 4
    case Ur => 5
    case D => 6
    case Dr => 7
    case Cl => 8
    case Cr => 9
    case Cu => 10
    case Cd => 11
  }

  /** No primitive is in the pool twice, so a uniform roll picks each of
      the twelve with the same chance. */
  lemma ScramblePoolDistinct(i: nat)
    requires i < |ScramblePool|
    ensures |ScramblePool| == 12 && PoolIndex(ScramblePool[i]) == i
  {
  }

  /** How many moves Cube.scramble makes: JavaScript's `moveAmount || 50`
      replaces a missing amount and 0 by 50, and a loop `i < moveAmount`
      runs no times for a negative amount. */
  function MoveCount(moveAmount: Option<int>): (n: nat)
    ensures moveAmount.None? || moveAmount.value == 0 ==> n == 50
    ensures moveAmount.Some? && moveAmount.value < 0 ==> n == 0
    ensures moveAmount.Some? && moveAmount.value > 0 ==> n == moveAmount.value
  {
    match moveAmount
    case None => 50
    case Some(k) => if k == 0 then 50 else if k < 0 then 0 else k
  }

  /** Cube.scramble. The k-th random choice Math.floor(Math.random() * 12)
      is the parameter rolls[k]. The result is the cube after the chosen
      primitives, which keep every tile and can all be taken back. */
  method Scramble(c: Cube, moveAmount: Option<int>, rolls: seq<nat>) returns (r: Cube, moves: seq<Command>)
    requires ValidCube(c)
    requires |rolls| >= MoveCount(moveAmount)
    requires forall k | 0 <= k < |rolls| :: rolls[k] < |ScramblePool|
    ensures |moves| == MoveCount(moveAmount)
    ensures moves == Drawn(rolls[..|moves|])
    ensures ValidCube(r) && r == RunAll(c, moves)
    ensures multiset(AllTiles(r)) == multiset(AllTiles(c))
    ensures RunAll(r, UndoAll(moves)) == c
  {
    var n := MoveCount(moveAmount);
    r := c;
    moves := [];
    var i := 0;
    while i < n
      invariant 0 <= i <= n && moves == Drawn(rolls[..i])
      invariant ValidCube(r) && r == RunAll(c, moves)
    {
      var p, drawn := Draw(rolls, i, moves);
      r := ApplyStep(c, r, moves, p);
      moves := drawn;
      i := i + 1;
    }
    ScrambleFacts(c, r, moves);
  }

  /** The primitives a sequence of rolls draws from the pool, as commands. */
  function Drawn(rolls: seq<nat>): (moves: seq<Command>)
    requires forall k | 0 <= k < |rolls| :: rolls[k] < |ScramblePool|
    ensures |moves| == |rolls|
    ensures forall k | 0 <= k < |moves| :: moves[k].Prim?
    decreases |rolls|
  {
    if |rolls| == 0 then [] else Drawn(rolls[..|rolls| - 1]) + [Prim(ScramblePool[rolls[|rolls| - 1]])]
  }

  /** The k-th drawn move is the pool entry the k-th roll points at. */
  lemma {:induction false} DrawnPicks(rolls: seq<nat>, k: nat)
    requires forall i | 0 <= i < |rolls| :: rolls[i] < |ScramblePool|
    requires k < |rolls|
    ensures Drawn(rolls)[k] == Prim(ScramblePool[rolls[k]])
    decreases |rolls|
  {
    if k < |rolls| - 1 {
      DrawnPicks(rolls[..|rolls| - 1], k);
    }
  }

  /** The draw of one scramble pass: roll i picks a primitive from the
      pool, and the record of drawn moves grows by it. */
  method Draw(rolls: seq<nat>, i: nat, moves: seq<Command>) returns (p: Primitive, moves': seq<Command>)
    requires forall k | 0 <= k < |rolls| :: rolls[k] < |ScramblePool|
    requires i < |rolls| && moves == Drawn(rolls[..i])
    ensures moves' == moves + [Prim(p)] && moves' == Drawn(rolls[..i + 1])
  {
    p := ScramblePool[rolls[i]];
    assert rolls[..i + 1][..i] == rolls[..i];
    moves' := moves + [Prim(p)];
  }

  /** The move of one scramble pass: the drawn primitive is applied to the
      cube so far. */
  method ApplyStep(c: Cube, r: Cube, moves: seq<Command>, p: Primitive) returns (r': Cube)
    requires ValidCube(c) && r == RunAll(c, moves)
    ensures ValidCube(r') && r' == RunAll(c, moves + [Prim(p)])
  {
    RunPrimitive(c, moves, p);
    r' := Apply(r, p);
  }

  lemma RunPrimitive(c: Cube, cmds: seq<Command>, p: Primitive)
    requires ValidCube(c)
    ensures RunAll(c, cmds + [Prim(p)]) == Apply(RunAll(c, cmds), p)
  {
    RunAllSnoc(c, cmds, Prim(p));
  }

  lemma ScrambleFacts(c: Cube, r: Cube, moves: seq<Command>)
    requires ValidCube(c) && ValidCube(r) && r == RunAll(c, moves)
    ensures multiset(AllTiles(r)) == multiset(AllTiles(c))
    ensures RunAll(r, UndoAll(moves)) == c
  {
    RunAllKeepsTiles(c, moves);
    UndoAllRestores(c, moves);
  }
}
