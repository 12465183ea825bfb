/** Food placement by rejection sampling. The game draws a cell uniformly at
    random and retries, without bound, until the cell is off the snake. The
    random numbers are an input here: a finite stream of `Math.random()` pairs
    stands for the draws the loop would make, and `None` means the stream ran
    out before a free cell came up, i.e. the loop has not terminated yet. */
module Food {
  import opened Board

  /** One iteration's pair of `Math.random()` results. */
  datatype Draw = Draw(rx: real, ry: real)

  /** `Math.random()` returns a value in [0, 1). */
  predicate ValidDraw(d: Draw) {
    0.0 <= d.rx < 1.0 && 0.0 <= d.ry < 1.0
  }

  predicate ValidDraws(draws: seq<Draw>) {
    forall i :: 0 <= i < |draws| ==> ValidDraw(draws[i])
  }

  /** `Math.floor(r * BOARD_SIZE)`: the grid coordinate a random value lands on. */
  function Scale(r: real): (k: int)
    requires 0.0 <= r < 1.0
    ensures 0 <= k < BoardSize
    ensures k as real <= r * BoardSize as real < k as real + 1.0
  {
    (r * BoardSize as real).Floor
  }

  /** The cell one iteration of the loop proposes. */
  function SampleCell(d: Draw): (c: Point)
    requires ValidDraw(d)
    ensures OnBoard(c)
  {
    Point(Scale(d.rx), Scale(d.ry))
  }

  /** The food cell `generateFood` settles on for the given draws: the first
      proposed cell that no snake cell occupies. */
  function GenerateFood(snake: seq<Point>, draws: seq<Draw>): (r: Option<Point>)
    requires ValidDraws(draws)
    ensures r.Some? ==> OnBoard(r.value) && r.value !in snake
    ensures r.None? <==> forall i :: 0 <= i < |draws| ==> SampleCell(draws[i]) in snake
    ensures r.Some? ==>
      exists k :: 0 <= k < |draws| && SampleCell(draws[k]) == r.value &&
        forall j :: 0 <= j < k ==> SampleCell(draws[j]) in snake
    decreases |draws|
  {
    if |draws| == 0 then None
    else
      var c := SampleCell(draws[0]);
      if !Occupies(snake, c) then Some(c)
      else
        var rest := GenerateFood(snake, draws[1..]);
        assert forall i :: 1 <= i < |draws| ==> draws[i] == draws[1..][i - 1];
        if rest.Some? then
          var k :| 0 <= k < |draws| - 1 && SampleCell(draws[1..][k]) == rest.value &&
            forall j :: 0 <= j < k ==> SampleCell(draws[1..][j]) in snake;
          assert SampleCell(draws[k + 1]) == rest.value;
          rest
        else rest
  }

  /** When the snake covers the whole board no draw is ever accepted: the
      game's loop never exits, whatever the random numbers. */
  lemma {:induction false} FullBoardNeverPlaces(snake: seq<Point>, draws: seq<Draw>)
    requires ValidDraws(draws)
    requires forall p :: OnBoard(p) ==> p in snake
    ensures GenerateFood(snake, draws) == None
  {
    forall i | 0 <= i < |draws|
      ensures SampleCell(draws[i]) in snake
    {
      assert OnBoard(SampleCell(draws[i]));
    }
  }
}
