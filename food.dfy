/** The food: a 10x10 sprite placed at random inside the play field and moved
    by rejection sampling until it clears the snake. */
module FoodPlacement {
  import opened Geometry
  import opened SnakeBody

  /** `Food.size`, the radius of the drawn circle; the sprite is twice as wide. */
  const Radius := 5
  const FoodSide := 2 * Radius

  /** The bounds of the two `random.randint` calls, both inclusive. */
  const MinX := PaddingLeft + 2
  const MaxX := ScreenWidth - PaddingRight - FoodSide - 2
  const MinY := PaddingTop + 2
  const MaxY := ScreenHeight - PaddingBottom - FoodSide - 2

  /** One pair of raw values from the random source, one per `randint` call. */
  datatype Draw = Draw(rawX: nat, rawY: nat)

  function FoodRect(p: Point): Rect {
    Rect(p.x, p.y, FoodSide, FoodSide)
  }

  predicate InSampleRange(p: Point) {
    MinX <= p.x <= MaxX && MinY <= p.y <= MaxY
  }

  /** `random.randint(lo, hi)` driven by the raw value `n`. */
  function RandInt(lo: int, hi: int, n: nat): (v: int)
    requires lo <= hi
    ensures lo <= v <= hi
  {
    lo + n % (hi - lo + 1)
  }

  /** The top-left corner that one draw places the food at. */
  function Sample(d: Draw): (p: Point)
    ensures InSampleRange(p)
    ensures 7 <= p.x <= 383 && 7 <= p.y <= 283
  {
    Point(RandInt(MinX, MaxX, d.rawX), RandInt(MinY, MaxY, d.rawY))
  }

  /** Every corner of the sampling range is the outcome of some draw. */
  lemma SampleReachesAll(p: Point)
    requires InSampleRange(p)
    ensures exists d :: Sample(d) == p
  {
    assert Sample(Draw(p.x - MinX, p.y - MinY)) == p;
  }

  /** A sampled food lies wholly inside the play field, clear of every bar. */
  lemma FoodClearOfPadding(p: Point)
    requires InSampleRange(p)
    ensures InPlayfield(FoodRect(p)) && !HitsPadding(FoodRect(p))
  {
  }

  /** `spritecollideany(food, snake)`: the food overlaps one of the segments. */
  predicate OverlapsSnake(p: Point, segs: seq<Point>) {
    exists i :: 0 <= i < |segs| && Collide(FoodRect(p), CellRect(segs[i]))
  }

  /** The place `Food.randomize` settles on when the random source yields
      `draws`: it keeps a food that is already clear, and otherwise takes the
      first draw that clears the snake; if none does, the last draw. */
  function Relocated(p: Point, segs: seq<Point>, draws: seq<Draw>): (r: Point)
    ensures !OverlapsSnake(p, segs) ==> r == p
    ensures r == p || exists i :: 0 <= i < |draws| && r == Sample(draws[i])
    ensures !OverlapsSnake(r, segs) <==>
              !OverlapsSnake(p, segs) || exists i :: 0 <= i < |draws| && !OverlapsSnake(Sample(draws[i]), segs)
    decreases |draws|
  {
    if !OverlapsSnake(p, segs) || draws == [] then p
    else
      var r := Relocated(Sample(draws[0]), segs, draws[1..]);
      assert forall i :: 0 <= i < |draws[1..]| ==> draws[1..][i] == draws[i + 1];
      r
  }

  /** The first clearing draw is the one taken, and all draws before it overlap. */
  lemma {:induction false} RelocatedTakesFirstClearDraw(p: Point, segs: seq<Point>, draws: seq<Draw>, k: nat)
    requires OverlapsSnake(p, segs)
    requires k < |draws| && !OverlapsSnake(Sample(draws[k]), segs)
    requires forall j :: 0 <= j < k ==> OverlapsSnake(Sample(draws[j]), segs)
    ensures Relocated(p, segs, draws) == Sample(draws[k])
    decreases k
  {
    if k > 0 {
      assert OverlapsSnake(Sample(draws[0]), segs);
      assert forall j :: 0 <= j < |draws[1..]| ==> draws[1..][j] == draws[j + 1];
      RelocatedTakesFirstClearDraw(Sample(draws[0]), segs, draws[1..], k - 1);
    }
  }

  /** The food sprite: its top-left corner. */
  class Food {
    var pos: Point

    /** `Food.__init__`: one draw, with no check against the snake. */
    constructor (d: Draw)
      ensures pos == Sample(d)
    {
      pos := Sample(d);
    }

    /** `Food.randomize`: draw again while the food overlaps the snake. */
    method Randomize(segs: seq<Point>, draws: seq<Draw>)
      modifies this
      ensures pos == Relocated(old(pos), segs, draws)
    {
      var i := 0;
      while OverlapsSnake(pos, segs) && i < |draws|
        invariant 0 <= i <= |draws|
        invariant Relocated(pos, segs, draws[i..]) == Relocated(old(pos), segs, draws)
        decreases |draws| - i
      {
        assert draws[i..][1..] == draws[i + 1..];
        pos := Sample(draws[i]);
        i := i + 1;
      }
    }
  }

  /** The constructor does not look at the snake: some draw puts the first
      food on the initial snake's head. */
  lemma FirstFoodMayLieOnSnake()
    ensures exists d :: OverlapsSnake(Sample(d), Initial().Segments())
  {
    var d := Draw(0, 150 - MinY);
    assert Sample(d) == Point(7, 150);
    assert Collide(FoodRect(Sample(d)), CellRect(Initial().Segments()[0]));
  }
}
