/** mouse_circle of daemons/lircmd.cpp: eight runs of the midpoint algorithm, each turned by an
    eighth. */
module Circles {

  /** The variables of one octant's loop. */
  datatype Brush = Brush(d: int, incX: int, incY: int, x: int, y: int)

  datatype Move = Move(dx: int, dy: int)

  function Start(r: int): Brush { Brush(1 - r, 0, 2 * r, 0, r) }

  /** One round of the loop. */
  function Next(b: Brush): Brush {
    if b.d >= 0 then Brush(b.d - (b.incY - 2) + (b.incX + 2) + 1, b.incX + 2, b.incY - 2, b.x + 1, b.y - 1)
    else Brush(b.d + (b.incX + 2) + 1, b.incX + 2, b.incY, b.x + 1, b.y)
  }

  /** For each round of the loop, whether it goes down as well. */
  function Flags(b: Brush): seq<bool>
    decreases b.y - b.x
  {
    if b.x < b.y then [b.d >= 0] + Flags(Next(b)) else []
  }

  /** The loop's variables after k rounds. */
  function After(b: Brush, k: nat): Brush {
    if k == 0 then b else Next(After(b, k - 1))
  }

  function Dd(i: nat): int {
    if i == 1 || i == 5 then 0 else if i == 2 || i == 3 || i == 4 then -1 else 1
  }

  function MoveOf(i: nat, flag: bool, dirx: int, diry: int): Move {
    if flag then Move(dirx * Dd(i), diry * Dd((i + 8 - 6) % 8))
    else Move(dirx * Dd((i + 8 - 1) % 8), diry * Dd((i + 8 - 7) % 8))
  }

  function OctantMoves(i: nat, flags: seq<bool>, dirx: int, diry: int): (ms: seq<Move>)
    ensures |ms| == |flags|
  {
    seq(|flags|, k requires 0 <= k < |flags| => MoveOf(i, flags[k], dirx, diry))
  }

  /** The moves of the first n octants. */
  function Moves(n: nat, flags: seq<bool>, dirx: int, diry: int): seq<Move> {
    if n == 0 then [] else Moves(n - 1, flags, dirx, diry) + OctantMoves(n - 1, flags, dirx, diry)
  }

  method MouseCircle(r: int, dirx: int, diry: int) returns (moves: seq<Move>)
    ensures moves == Moves(8, Flags(Start(r)), dirx, diry)
  {
    hide Flags, OctantMoves;
    moves := [];
    for i := 0 to 8
      invariant moves == Moves(i, Flags(Start(r)), dirx, diry)
    {
      var octant := DrawOctant(i, r, dirx, diry);
      moves := moves + octant;
    }
  }

  /** The inner loop. */
  method DrawOctant(i: nat, r: int, dirx: int, diry: int) returns (moves: seq<Move>)
    ensures moves == OctantMoves(i, Flags(Start(r)), dirx, diry)
  {
    hide Flags, OctantMoves, Dd;
    var d, incX, incY, x, y := 1 - r, 0, 2 * r, 0, r;
    moves := [];
    OctantStarts(i, Brush(d, incX, incY, x, y), dirx, diry);
    while x < y
      invariant OctantAt(Brush(d, incX, incY, x, y), Start(r), i, dirx, diry, moves)
      decreases y - x
    {
      OctantGoesOn(Brush(d, incX, incY, x, y), Start(r), i, dirx, diry, moves);
      if d >= 0 {
        y := y - 1;
        incY := incY - 2;
        d := d - incY;
        moves := moves + [Move(dirx * Dd(i), diry * Dd((i + 8 - 6) % 8))];
      } else {
        moves := moves + [Move(dirx * Dd((i + 8 - 1) % 8), diry * Dd((i + 8 - 7) % 8))];
      }
      x := x + 1;
      incX := incX + 2;
      d := d + incX + 1;
    }
    OctantEnds(Brush(d, incX, incY, x, y), Start(r), i, dirx, diry, moves);
  }

  /** The moves made so far, with those of the rounds still to come, are all of the octant's. */
  ghost predicate OctantAt(b: Brush, start: Brush, i: nat, dirx: int, diry: int, moves: seq<Move>) {
    moves + OctantMoves(i, Flags(b), dirx, diry) == OctantMoves(i, Flags(start), dirx, diry)
  }

  lemma OctantStarts(i: nat, b: Brush, dirx: int, diry: int)
    ensures OctantAt(b, b, i, dirx, diry, [])
  {}

  lemma OctantGoesOn(b: Brush, start: Brush, i: nat, dirx: int, diry: int, moves: seq<Move>)
    requires OctantAt(b, start, i, dirx, diry, moves) && b.x < b.y
    ensures OctantAt(Next(b), start, i, dirx, diry, moves + [MoveOf(i, b.d >= 0, dirx, diry)])
  {
    hide MoveOf;
    var first := MoveOf(i, b.d >= 0, dirx, diry);
    assert OctantMoves(i, Flags(b), dirx, diry) == [first] + OctantMoves(i, Flags(Next(b)), dirx, diry);
    assert moves + ([first] + OctantMoves(i, Flags(Next(b)), dirx, diry))
        == (moves + [first]) + OctantMoves(i, Flags(Next(b)), dirx, diry);
  }

  lemma OctantEnds(b: Brush, start: Brush, i: nat, dirx: int, diry: int, moves: seq<Move>)
    requires OctantAt(b, start, i, dirx, diry, moves) && b.x >= b.y
    ensures moves == OctantMoves(i, Flags(start), dirx, diry)
  {
    assert Flags(b) == [] && OctantMoves(i, [], dirx, diry) == [];
  }

  // ----- the midpoint invariant

  /** How far the point is off the circle. */
  function Off(b: Brush, r: int): int {
    b.x * b.x + b.y * b.y - r * r
  }

  /** d decides between the next two points, and the point is the best one in its column. */
  ghost predicate OnCircle(b: Brush, r: int) {
    && b.incX == 2 * b.x && b.incY == 2 * b.y && 0 <= b.x <= b.y + 1 && 0 <= b.y
    && b.d == (b.x + 1) * (b.x + 1) + b.y * b.y - b.y - r * r
    && -b.y <= Off(b, r) <= b.y && (b.x < b.y ==> Off(b, r) < b.y)
  }

  lemma StartOnCircle(r: nat)
    ensures OnCircle(Start(r), r)
  {}

  lemma NextOnCircle(b: Brush, r: int)
    requires OnCircle(b, r) && b.x < b.y
    ensures OnCircle(Next(b), r)
  {
    var n := Next(b);
    NextSquare(b.x);
    NextSquare(n.x);
    NextSquare(b.y - 1);
    if b.d >= 0 {
      assert Off(n, r) == b.d - b.y + 1;
    } else {
      assert Off(n, r) == b.d + b.y;
    }
  }

  lemma NextSquare(x: int)
    ensures (x + 1) * (x + 1) == x * x + 2 * x + 1
  {}

  /** The loop runs as long as x < y, and keeps to the circle. */
  lemma {:induction false} RoundsOnCircle(r: nat, k: nat)
    requires k <= |Flags(Start(r))|
    ensures OnCircle(After(Start(r), k), r) && Flags(After(Start(r), k)) == Flags(Start(r))[k..]
    ensures After(Start(r), k).x == k
    ensures k < |Flags(Start(r))| <==> After(Start(r), k).x < After(Start(r), k).y
  {
    hide OnCircle;
    StartOnCircle(r);
    if k > 0 {
      RoundsOnCircle(r, k - 1);
      NextOnCircle(After(Start(r), k - 1), r);
    }
  }

  /** In every round y is the exact circle's height over x rounded to the nearest integer. */
  lemma NearestPoint(r: nat, k: nat)
    requires k < |Flags(Start(r))|
    ensures var b := After(Start(r), k);
            && b.x == k && b.y > k
            && (2 * b.y - 1) * (2 * b.y - 1) < 4 * (r * r - b.x * b.x) < (2 * b.y + 1) * (2 * b.y + 1)
  {
    RoundsOnCircle(r, k);
    var b := After(Start(r), k);
    OddSquares(b.y);
    hide Flags, After;
  }

  lemma OddSquares(y: int)
    ensures (2 * y - 1) * (2 * y - 1) == 4 * (y * y) - 4 * y + 1
    ensures (2 * y + 1) * (2 * y + 1) == 4 * (y * y) + 4 * y + 1
  {}

  // ----- where the cursor goes

  function Dx(ms: seq<Move>): int {
    if ms == [] then 0 else Dx(ms[..|ms| - 1]) + ms[|ms| - 1].dx
  }

  function Dy(ms: seq<Move>): int {
    if ms == [] then 0 else Dy(ms[..|ms| - 1]) + ms[|ms| - 1].dy
  }

  lemma {:induction false} DxConcat(a: seq<Move>, b: seq<Move>)
    ensures Dx(a + b) == Dx(a) + Dx(b) && Dy(a + b) == Dy(a) + Dy(b)
  {
    if b == [] {
      assert a + b == a;
    } else {
      DxConcat(a, b[..|b| - 1]);
      assert (a + b)[..|a + b| - 1] == a + b[..|b| - 1];
    }
  }

  function Downs(flags: seq<bool>): nat {
    if flags == [] then 0 else Downs(flags[..|flags| - 1]) + if flags[|flags| - 1] then 1 else 0
  }

  /** The moves add up to c times one move and k times another. */
  ghost predicate AddUp(ms: seq<Move>, c: int, down: Move, k: int, straight: Move) {
    Dx(ms) == c * down.dx + k * straight.dx && Dy(ms) == c * down.dy + k * straight.dy
  }

  lemma {:induction false} OctantSum(i: nat, flags: seq<bool>, dirx: int, diry: int)
    ensures AddUp(OctantMoves(i, flags, dirx, diry), Downs(flags), MoveOf(i, true, dirx, diry),
                  |flags| - Downs(flags), MoveOf(i, false, dirx, diry))
  {
    if flags != [] {
      var ms := OctantMoves(i, flags, dirx, diry);
      var before := flags[..|flags| - 1];
      OctantSum(i, before, dirx, diry);
      assert ms[..|ms| - 1] == OctantMoves(i, before, dirx, diry);
      hide MoveOf;
      var n, m := Downs(before), |before| - Downs(before);
      var down, straight := MoveOf(i, true, dirx, diry), MoveOf(i, false, dirx, diry);
      OneMoreTime(n, down.dx);
      OneMoreTime(n, down.dy);
      OneMoreTime(m, straight.dx);
      OneMoreTime(m, straight.dy);
    }
  }

  /** In the first octant the cursor, starting at the top of the circle, is at (x, y) after every
      round. */
  lemma {:induction false} FirstOctantTraces(r: nat, k: nat)
    requires k <= |Flags(Start(r))|
    ensures var ms := OctantMoves(0, Flags(Start(r)), 1, 1)[..k];
            Dx(ms) == After(Start(r), k).x && r + Dy(ms) == After(Start(r), k).y
  {
    hide Flags, OnCircle, MoveOf;
    FirstMoves();
    if k > 0 {
      var flags, before := Flags(Start(r)), After(Start(r), k - 1);
      FirstOctantTraces(r, k - 1);
      RoundsOnCircle(r, k - 1);
      Unfolded(before);
      var ms := OctantMoves(0, flags, 1, 1)[..k];
      assert ms[..k - 1] == OctantMoves(0, flags, 1, 1)[..k - 1];
      assert Flags(before)[0] == (before.d >= 0);
      assert flags[k - 1] == flags[k - 1..][0];
    }
  }

  lemma OneMoreTime(n: int, a: int)
    ensures (n + 1) * a == n * a + a
  {}

  /** The moves that n octants make in a round of one kind. */
  function Turned(n: nat, flag: bool, dirx: int, diry: int): Move {
    if n == 0 then Move(0, 0)
    else
      var before, m := Turned(n - 1, flag, dirx, diry), MoveOf(n - 1, flag, dirx, diry);
      Move(before.dx + m.dx, before.dy + m.dy)
  }

  lemma BothAddUp(ms: seq<Move>, ms': seq<Move>, c: int, a: Move, p: Move, k: int, b: Move, q: Move)
    requires AddUp(ms, c, a, k, b) && AddUp(ms', c, p, k, q)
    ensures AddUp(ms + ms', c, Move(a.dx + p.dx, a.dy + p.dy), k, Move(b.dx + q.dx, b.dy + q.dy))
  {
    DxConcat(ms, ms');
    hide Dx, Dy;
    Combined(c, a.dx, p.dx, k, b.dx, q.dx);
    Combined(c, a.dy, p.dy, k, b.dy, q.dy);
  }

  lemma NothingAddsUp(c: int, k: int)
    ensures AddUp([], c, Move(0, 0), k, Move(0, 0))
  {}

  lemma {:induction false} MovesSum(n: nat, flags: seq<bool>, dirx: int, diry: int)
    ensures AddUp(Moves(n, flags, dirx, diry), Downs(flags), Turned(n, true, dirx, diry),
                  |flags| - Downs(flags), Turned(n, false, dirx, diry))
  {
    hide AddUp, Downs, MoveOf, OctantMoves;
    if n == 0 {
      NothingAddsUp(Downs(flags), |flags| - Downs(flags));
    } else {
      MovesSum(n - 1, flags, dirx, diry);
      OctantSum(n - 1, flags, dirx, diry);
      BothAddUp(Moves(n - 1, flags, dirx, diry), OctantMoves(n - 1, flags, dirx, diry),
                Downs(flags), Turned(n - 1, true, dirx, diry), MoveOf(n - 1, true, dirx, diry),
                |flags| - Downs(flags), Turned(n - 1, false, dirx, diry), MoveOf(n - 1, false, dirx, diry));
    }
  }

  lemma Combined(c: int, a: int, p: int, k: int, b: int, q: int)
    ensures (c * a + k * b) + (c * p + k * q) == c * (a + p) + k * (b + q)
  {}

  lemma TurnedTwice(flag: bool)
    ensures Turned(2, flag, 1, 1) == if flag then Move(1, -2) else Move(2, -1)
  {
    assert Turned(1, flag, 1, 1) == MoveOf(0, flag, 1, 1) && Turned(0, flag, 1, 1) == Move(0, 0);
    assert Turned(2, flag, 1, 1).dx == Turned(1, flag, 1, 1).dx + MoveOf(1, flag, 1, 1).dx;
    assert Turned(2, flag, 1, 1).dy == Turned(1, flag, 1, 1).dy + MoveOf(1, flag, 1, 1).dy;
  }

  /** Eight eighths of a turn cancel out. */
  lemma TurnedAround(flag: bool, dirx: int, diry: int)
    ensures Turned(8, flag, dirx, diry) == Move(0, 0)
  {
    TurnedBack(4, flag, dirx, diry);
  }

  /** The last four octants undo the first four, one after the other. */
  lemma {:induction false} TurnedBack(n: nat, flag: bool, dirx: int, diry: int)
    requires n <= 4
    ensures var half := Turned(4, flag, dirx, diry);
            var there, now := Turned(n, flag, dirx, diry), Turned(4 + n, flag, dirx, diry);
            now == Move(half.dx - there.dx, half.dy - there.dy)
  {
    if n > 0 {
      TurnedBack(n - 1, flag, dirx, diry);
      OppositeMoves(n - 1, flag, dirx, diry);
      assert 4 + n - 1 == 4 + (n - 1) == n - 1 + 4;
      hide MoveOf;
    }
  }

  lemma OppositeMoves(i: nat, flag: bool, dirx: int, diry: int)
    requires i < 4
    ensures var m := MoveOf(i, flag, dirx, diry); MoveOf(i + 4, flag, dirx, diry) == Move(-m.dx, -m.dy)
  {}

  /** The circle closes: over the eight octants all moves cancel out, whatever the radius and the
      directions. */
  lemma CircleCloses(r: int, dirx: int, diry: int)
    ensures var ms := Moves(8, Flags(Start(r)), dirx, diry); Dx(ms) == 0 && Dy(ms) == 0
  {
    MovesSum(8, Flags(Start(r)), dirx, diry);
    TurnedAround(true, dirx, diry);
    TurnedAround(false, dirx, diry);
  }

  /** Two octants on, every octant makes the same moves turned by a quarter to the right. */
  lemma QuarterTurn(i: nat, flags: seq<bool>, k: nat)
    requires i < 6 && k < |flags|
    ensures var m := OctantMoves(i, flags, 1, 1)[k]; OctantMoves(i + 2, flags, 1, 1)[k] == Move(m.dy, -m.dx)
  {}

  // ----- the second octant is not the mirror image of the first

  lemma {:induction false} DownsAreDrops(r: nat)
    ensures var flags := Flags(Start(r));
            Downs(flags) == r - After(Start(r), |flags|).y
  {
    hide Flags, After, Dx, Dy, MoveOf, Downs, OctantMoves;
    var flags := Flags(Start(r));
    RoundsOnCircle(r, |flags|);
    FirstOctantTraces(r, |flags|);
    OctantSum(0, flags, 1, 1);
    assert OctantMoves(0, flags, 1, 1)[..|flags|] == OctantMoves(0, flags, 1, 1);
    FirstMoves();
  }

  lemma FirstMoves()
    ensures MoveOf(0, true, 1, 1) == Move(1, -1) && MoveOf(0, false, 1, 1) == Move(1, 0)
  {}

  /** The second octant goes through the rounds of the first from the start again, not backwards as
      the mirror image would. If the first ends at (x, y), it ends at (2x + y - r, y - x), and that is
      further to the right than the circle reaches exactly for these radii. */
  lemma SecondOctantBulges(r: nat)
    ensures var ms, end := Moves(2, Flags(Start(r)), 1, 1), After(Start(r), |Flags(Start(r))|);
            && Dx(ms) == 2 * end.x + end.y - r && r + Dy(ms) == end.y - end.x
            && (Dx(ms) > r <==> r >= 7 || r == 2 || r == 4 || r == 5)
  {
    hide Flags, After, Moves, Downs, Turned, Dx, Dy;
    var flags := Flags(Start(r));
    var end := After(Start(r), |flags|);
    MovesSum(2, flags, 1, 1);
    TurnedTwice(true);
    TurnedTwice(false);
    DownsAreDrops(r);
    RoundsOnCircle(r, |flags|);
    if r == 0 || r == 1 {
      TinyEnds(r);
    } else if r < 7 {
      SmallEnds(end, r);
    } else {
      EndIsWide(end, r);
    }
  }

  /** The radius that lircmd draws: the quarter ends at (11, 0) instead of (10, 0). */
  lemma DrawnCircleBulges()
    ensures var ms := Moves(2, Flags(Start(10)), 1, 1); Dx(ms) == 11 && 10 + Dy(ms) == 0
  {
    hide Flags, After, Moves, Dx, Dy;
    var end := After(Start(10), |Flags(Start(10))|);
    SecondOctantBulges(10);
    RoundsOnCircle(10, |Flags(Start(10))|);
    SquareGrows(end.x, 6);
    SquareGrows(8, end.x);
    EndSquares(end);
    assert end.x == 7;
  }

  lemma TinyEnds(r: nat)
    requires r <= 1
    ensures var end := After(Start(r), |Flags(Start(r))|); end.x == r && end.y == 0
  {
    hide Flags, After;
    Unfolded(Start(r));
    Unfolded(Next(Start(r)));
  }

  lemma Unfolded(b: Brush)
    ensures Flags(b) == if b.x < b.y then [b.d >= 0] + Flags(Next(b)) else []
    ensures After(b, 0) == b && After(b, 1) == Next(b)
  {
    assert After(b, 1) == Next(After(b, 0));
  }

  /** At the end of the first octant y is x or one less. */
  lemma EndSquares(b: Brush)
    ensures b.y == b.x ==> b.y * b.y == b.x * b.x
    ensures b.y == b.x - 1 ==> b.y * b.y == b.x * b.x - 2 * b.x + 1
  {}

  lemma SmallEnds(b: Brush, r: nat)
    requires OnCircle(b, r) && b.x >= b.y && 2 <= r < 7
    ensures 2 * b.x + b.y > 2 * r <==> r == 2 || r == 4 || r == 5
  {
    SquareGrows(6, b.x);
    EndSquares(b);
    SmallSquares(b.x);
    SmallSquares(r);
  }

  lemma SmallSquares(x: int)
    ensures 0 <= x < 7 ==> x * x == [0, 1, 4, 9, 16, 25, 36][x]
  {}

  lemma EndIsWide(b: Brush, r: nat)
    requires OnCircle(b, r) && b.x >= b.y && r >= 7
    ensures 2 * b.x + b.y > 2 * r
  {
    EndSquares(b);
    SquareGrows(7, r);
    Squares(b.x, r);
    if b.y == b.x {
      SquareGrows(3 * b.x, 2 * r);
    } else {
      SquareGrows(3 * b.x, 2 * r + 1);
      WideSlope(b.x, r);
    }
  }

  /** 2t^2 - 3t grows with t. */
  lemma WideSlope(x: int, r: int)
    ensures 1 <= 3 * x <= 2 * r + 1 ==>
            2 * ((3 * x) * (3 * x)) - 3 * (3 * x) <= 2 * ((2 * r + 1) * (2 * r + 1)) - 3 * (2 * r + 1)
  {
    var t, u := 3 * x, 2 * r + 1;
    if 1 <= t <= u {
      SlopeGrows(t, u);
    }
  }

  lemma SlopeGrows(t: int, u: int)
    requires 1 <= t <= u
    ensures 2 * (t * t) - 3 * t <= 2 * (u * u) - 3 * u
  {
    if t < u {
      assert (u - t) * (2 * (u + t) - 3) >= 0;
    }
  }

  lemma SquareGrows(a: int, b: int)
    ensures 0 <= a <= b ==> a * a <= b * b && a * b <= b * b
  {}

  lemma Squares(x: int, r: int)
    ensures (3 * x) * (3 * x) == 9 * (x * x) && (2 * r + 1) * (2 * r + 1) == 4 * (r * r) + 4 * r + 1
    ensures (2 * r) * (2 * r) == 4 * (r * r)
  {}
}
