/** The playing field of the snake game: a fixed square grid of integer cells,
    the four unit moves, and the facts about sequences of cells that the game
    logic relies on. A `Point` is used both for a cell and for a movement delta,
    as the game itself uses one `{x, y}` record for both. */
module Board {

  /** Number of cells along each side of the square board. */
  const BoardSize: int := 20

  /** A grid cell, or the delta between two neighbouring cells. */
  datatype Point = Point(x: int, y: int)

  /** The conventional Some/None datatype. */
  datatype Option<+T> = None | Some(value: T)

  /** The "no direction yet" delta a fresh game starts with. */
  const Zero := Point(0, 0)
  /** Screen coordinates: y grows downwards, so Up decreases y. */
  const Up := Point(0, -1)
  const Down := Point(0, 1)
  const Left := Point(-1, 0)
  const Right := Point(1, 0)

  function Add(p: Point, d: Point): Point {
    Point(p.x + d.x, p.y + d.y)
  }

  function Neg(d: Point): Point {
    Point(-d.x, -d.y)
  }

  /** Scalar product: zero exactly when two moves are on different axes. */
  function Dot(a: Point, b: Point): int {
    a.x * b.x + a.y * b.y
  }

  /** A value the game's direction fields can take: a step of at most one
      cell along one axis. These are exactly Zero, Up, Down, Left and Right. */
  predicate IsDirection(d: Point) {
    -1 <= d.x <= 1 && -1 <= d.y <= 1 && (d.x == 0 || d.y == 0)
  }

  /** One of the four moves. */
  predicate IsUnit(d: Point) {
    IsDirection(d) && d != Zero
  }

  /** The arithmetic description of a unit move picks out the four named
      moves and nothing else. */
  lemma UnitsAreTheFourMoves(d: Point)
    ensures IsUnit(d) <==> d == Up || d == Down || d == Left || d == Right
  {
  }

  predicate OnBoard(p: Point) {
    0 <= p.x < BoardSize && 0 <= p.y < BoardSize
  }

  /** `b` is one unit step away from `a`. */
  predicate Adjacent(a: Point, b: Point) {
    IsUnit(Point(b.x - a.x, b.y - a.y))
  }

  predicate AllOnBoard(cells: seq<Point>) {
    forall i :: 0 <= i < |cells| ==> OnBoard(cells[i])
  }

  predicate Distinct(cells: seq<Point>) {
    forall i, j :: 0 <= i < j < |cells| ==> cells[i] != cells[j]
  }

  /** Consecutive cells are neighbours: the body is an unbroken path. */
  predicate Contiguous(cells: seq<Point>)
    decreases |cells|
  {
    |cells| <= 1 || (Adjacent(cells[1], cells[0]) && Contiguous(cells[1..]))
  }

  /** The game's `Array.prototype.some` test "some cell equals `p`", as a
      left-to-right scan; it agrees with sequence membership. */
  function Occupies(cells: seq<Point>, p: Point): (r: bool)
    ensures r <==> p in cells
    ensures r ==> |cells| > 0
    decreases |cells|
  {
    if |cells| == 0 then false
    else
      assert cells == [cells[0]] + cells[1..];
      cells[0] == p || Occupies(cells[1..], p)
  }

  /** Putting a cell that is not yet present in front of a repetition-free
      sequence keeps it repetition-free. */
  lemma {:induction false} DistinctCons(h: Point, cells: seq<Point>)
    requires Distinct(cells) && h !in cells
    ensures Distinct([h] + cells)
  {
    var c := [h] + cells;
    forall i, j | 0 <= i < j < |c|
      ensures c[i] != c[j]
    {
      if i == 0 {
        assert c[j] == cells[j - 1];
      } else {
        assert c[i] == cells[i - 1] && c[j] == cells[j - 1];
      }
    }
  }

  /** Prepending a neighbour of the first cell keeps a path unbroken. */
  lemma ContiguousCons(h: Point, cells: seq<Point>)
    requires Contiguous(cells)
    requires |cells| > 0 ==> Adjacent(cells[0], h)
    ensures Contiguous([h] + cells)
  {
    assert ([h] + cells)[1..] == cells;
  }

  /** An unbroken path stays unbroken when cut short. */
  lemma {:induction false} ContiguousPrefix(cells: seq<Point>, n: nat)
    requires Contiguous(cells) && n <= |cells|
    ensures Contiguous(cells[..n])
    decreases n
  {
    if n > 1 {
      assert cells[..n][1..] == cells[1..][..n - 1];
      ContiguousPrefix(cells[1..], n - 1);
    }
  }

  /** Every property above survives cutting cells off the end. */
  lemma PrefixKeepsShape(cells: seq<Point>, n: nat)
    requires n <= |cells|
    ensures Distinct(cells) ==> Distinct(cells[..n])
    ensures Contiguous(cells) ==> Contiguous(cells[..n])
    ensures AllOnBoard(cells) ==> AllOnBoard(cells[..n])
    ensures forall p :: p in cells[..n] ==> p in cells
  {
    if Contiguous(cells) {
      ContiguousPrefix(cells, n);
    }
  }
}
