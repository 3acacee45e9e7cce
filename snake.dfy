/** The snake: a head followed by its tail segments, all 6x6 cells, and the
    direction it travels in.  The pure functions say what each operation of
    `Snake` does to this state; the class `Snake` performs them in place. */
module SnakeBody {
  import opened Geometry

  datatype Direction = Up | Down | Left | Right

  /** The key of a key-down event: one of the four arrow keys or any other key. */
  datatype Key = UpKey | DownKey | LeftKey | RightKey | OtherKey(code: int)

  /** Side of a `SnakePixel`, and so the distance the head moves per step. */
  const PixelSize := 6
  const Speed := PixelSize
  const SnakeLength := 20
  const Start := Point(PaddingLeft + 10, ScreenHeight / 2)

  function Opposite(d: Direction): (o: Direction)
    ensures o != d
  {
    match d
    case Up => Down
    case Down => Up
    case Left => Right
    case Right => Left
  }

  predicate IsArrow(k: Key) {
    !k.OtherKey?
  }

  function KeyDirection(k: Key): Direction
    requires IsArrow(k)
  {
    match k
    case UpKey => Up
    case DownKey => Down
    case LeftKey => Left
    case RightKey => Right
  }

  /** The rectangle of the segment whose top-left corner is `p`. */
  function CellRect(p: Point): Rect {
    Rect(p.x, p.y, PixelSize, PixelSize)
  }

  /** `p` and `q` are one step apart along one axis. */
  predicate Adjacent(p: Point, q: Point) {
    (p.x == q.x && (q.y - p.y == Speed || p.y - q.y == Speed)) ||
    (p.y == q.y && (q.x - p.x == Speed || p.x - q.x == Speed))
  }

  /** `Snake.turn`: an arrow key sets the direction unless it names the
      opposite of the current one; every other key changes nothing. */
  function Turned(d: Direction, k: Key): (r: Direction)
    ensures r != Opposite(d)
    ensures !IsArrow(k) ==> r == d
    ensures IsArrow(k) ==> r == if KeyDirection(k) == Opposite(d) then d else KeyDirection(k)
  {
    if k == UpKey && d != Down then Up
    else if k == DownKey && d != Up then Down
    else if k == RightKey && d != Left then Right
    else if k == LeftKey && d != Right then Left
    else d
  }

  /** `Snake.advance_head`: the corner one step of `Speed` pixels away in direction `d`. */
  function Advanced(p: Point, d: Direction): (q: Point)
    ensures Adjacent(p, q)
    ensures d == Up ==> q.y < p.y
    ensures d == Down ==> q.y > p.y
    ensures d == Left ==> q.x < p.x
    ensures d == Right ==> q.x > p.x
  {
    match d
    case Up => Point(p.x, p.y - Speed)
    case Down => Point(p.x, p.y + Speed)
    case Right => Point(p.x + Speed, p.y)
    case Left => Point(p.x - Speed, p.y)
  }

  datatype SnakeState = SnakeState(head: Point, tail: seq<Point>, direction: Direction) {
    /** The sprites of the `Snake` group in order: the head, then the tail. */
    function Segments(): seq<Point> {
      [head] + tail
    }
  }

  /** `Snake.move`: follow the leader.  The head advances, each tail segment
      takes the place its predecessor held, and the last place is given up. */
  function Moved(s: SnakeState): (r: SnakeState)
    ensures r.direction == s.direction && r.head == Advanced(s.head, s.direction)
    ensures |r.tail| == |s.tail|
    ensures |s.tail| > 0 ==> r.tail[0] == s.head
    ensures forall i :: 1 <= i < |s.tail| ==> r.tail[i] == s.tail[i - 1]
  {
    SnakeState(Advanced(s.head, s.direction), s.Segments()[..|s.tail|], s.direction)
  }

  /** `Snake.grow`: the head advances and a new first tail segment fills the
      place it left; the old tail segments keep their places and order. */
  function Grown(s: SnakeState): (r: SnakeState)
    ensures r.direction == s.direction && r.head == Advanced(s.head, s.direction)
    ensures |r.tail| == |s.tail| + 1
    ensures r.tail[0] == s.head && r.tail[1..] == s.tail
  {
    SnakeState(Advanced(s.head, s.direction), [s.head] + s.tail, s.direction)
  }

  /** The tail that `Snake.__init__` and `Snake.reset` lay out: segment i
      (counting from 1) sits i steps left of the start. */
  function InitialTail(): seq<Point> {
    seq(SnakeLength - 1, i => Point(Start.x - (i + 1) * Speed, Start.y))
  }

  /** The snake `Snake.__init__` builds and `Snake.reset` restores. */
  function Initial(): SnakeState {
    SnakeState(Start, InitialTail(), Right)
  }

  /** A corner the snake can occupy: segments are laid out and moved in whole
      steps from the start, so each coordinate differs from the start's by a
      multiple of `Speed`. */
  predicate OnGrid(p: Point) {
    (p.x - Start.x) % Speed == 0 && (p.y - Start.y) % Speed == 0
  }

  predicate Connected(segs: seq<Point>) {
    forall i :: 0 <= i < |segs| - 1 ==> Adjacent(segs[i], segs[i + 1])
  }

  /** What holds of the snake between frames: it is never shorter than at the
      start, it stays on the grid, consecutive segments are adjacent, and the
      head stands one step beyond the first tail segment in the direction
      it last moved. */
  predicate WellFormed(s: SnakeState) {
    |s.tail| >= SnakeLength - 1 &&
    (forall p :: p in s.Segments() ==> OnGrid(p)) &&
    Connected(s.Segments()) &&
    s.head == Advanced(s.tail[0], s.direction)
  }

  /** `snake_eats_self`: the head overlaps one of the tail segments. */
  predicate HeadHitsTail(s: SnakeState) {
    exists i :: 0 <= i < |s.tail| && Collide(CellRect(s.head), CellRect(s.tail[i]))
  }

  /** The initial snake: head at (15, 150) heading right, 19 tail segments
      running left from it, and well formed. */
  lemma InitialShape()
    ensures Initial().head == Point(15, 150) && Initial().direction == Right
    ensures |Initial().tail| == 19
    ensures forall i :: 0 <= i < 19 ==> Initial().tail[i] == Point(15 - 6 * (i + 1), 150)
    ensures WellFormed(Initial())
  {
  }

  lemma OnGridStep(p: Point, d: Direction)
    requires OnGrid(p)
    ensures OnGrid(Advanced(p, d))
  {
  }

  /** Moving keeps the snake well formed, whatever direction it was steered to. */
  lemma {:induction false} MovedKeepsWellFormed(s: SnakeState, d: Direction)
    requires WellFormed(s)
    ensures WellFormed(Moved(s.(direction := d)))
  {
    var s' := s.(direction := d);
    var m := Moved(s');
    var segs, msegs := s.Segments(), m.Segments();
    assert msegs == [m.head] + segs[..|segs| - 1];
    OnGridStep(s.head, d);
    forall p | p in msegs ensures OnGrid(p) {
      if p != m.head {
        assert p in segs;
      }
    }
    forall i | 0 <= i < |msegs| - 1 ensures Adjacent(msegs[i], msegs[i + 1]) {
      if i > 0 {
        assert msegs[i] == segs[i - 1] && msegs[i + 1] == segs[i];
      }
    }
  }

  /** Growing keeps the snake well formed. */
  lemma {:induction false} GrownKeepsWellFormed(s: SnakeState)
    requires WellFormed(s)
    ensures WellFormed(Grown(s))
  {
    var g := Grown(s);
    var segs, gsegs := s.Segments(), g.Segments();
    assert gsegs == [g.head] + segs;
    OnGridStep(s.head, s.direction);
    forall p | p in gsegs ensures OnGrid(p) {
      if p != g.head {
        assert p in segs;
      }
    }
    forall i | 0 <= i < |gsegs| - 1 ensures Adjacent(gsegs[i], gsegs[i + 1]) {
      if i > 0 {
        assert gsegs[i] == segs[i - 1] && gsegs[i + 1] == segs[i];
      }
    }
  }

  /** Growing is moving without giving up the last place: the grown snake is
      the moved snake with the old last segment kept at its end. */
  lemma GrowIsMoveKeepingLast(s: SnakeState)
    ensures Grown(s).Segments() == Moved(s).Segments() + [s.Segments()[|s.tail|]]
  {
  }

  /** Cells on the grid overlap only when they are the same cell, so
      collisions between segments are positional equality. */
  lemma GridCellsCollideOnlyWhenEqual(p: Point, q: Point)
    requires OnGrid(p) && OnGrid(q)
    ensures Collide(CellRect(p), CellRect(q)) <==> p == q
  {
  }

  /** On a well-formed snake, `snake_eats_self` fires exactly when the head
      shares its cell with a tail segment. */
  lemma SelfCollisionIsSharedCell(s: SnakeState)
    requires WellFormed(s)
    ensures HeadHitsTail(s) <==> s.head in s.tail
  {
    if HeadHitsTail(s) {
      var i :| 0 <= i < |s.tail| && Collide(CellRect(s.head), CellRect(s.tail[i]));
      assert s.tail[i] in s.Segments();
      GridCellsCollideOnlyWhenEqual(s.head, s.tail[i]);
    }
    if s.head in s.tail {
      var i :| 0 <= i < |s.tail| && s.tail[i] == s.head;
      assert Collide(CellRect(s.head), CellRect(s.tail[i]));
    }
  }

  /** A head inside the play field cannot step over the padding: after one
      step it is still inside or it overlaps a bar. */
  lemma StepCannotSkipPadding(p: Point, d: Direction)
    requires InPlayfield(CellRect(p))
    ensures InPlayfield(CellRect(Advanced(p, d))) || HitsPadding(CellRect(Advanced(p, d)))
  {
  }

  /** The arrow keys of one frame applied one after another through `Turned`,
      as the key loop of `Game.start` does. */
  function KeysTurned(d: Direction, keys: seq<Key>): (r: Direction)
    ensures r == d || exists i :: 0 <= i < |keys| && IsArrow(keys[i]) && KeyDirection(keys[i]) == r
    decreases |keys|
  {
    if keys == [] then d
    else
      var r := KeysTurned(Turned(d, keys[0]), keys[1..]);
      assert r != Turned(d, keys[0]) ==> exists i :: 1 <= i < |keys| && IsArrow(keys[i]) && KeyDirection(keys[i]) == r by {
        if r != Turned(d, keys[0]) {
          var j :| 0 <= j < |keys[1..]| && IsArrow(keys[1..][j]) && KeyDirection(keys[1..][j]) == r;
          assert keys[1..][j] == keys[j + 1];
        }
      }
      r
  }

  /** The key loop is a left fold of `Turned`: the last key is applied to
      the direction the earlier keys left. */
  lemma {:induction false} KeysTurnedLast(d: Direction, keys: seq<Key>)
    requires keys != []
    ensures KeysTurned(d, keys) == Turned(KeysTurned(d, keys[..|keys| - 1]), keys[|keys| - 1])
    decreases |keys|
  {
    if |keys| > 1 {
      var rest := keys[1..];
      KeysTurnedLast(Turned(d, keys[0]), rest);
      assert rest[..|rest| - 1] == keys[..|keys| - 1][1..];
      assert rest[|rest| - 1] == keys[|keys| - 1];
    }
  }

  /** Two arrow keys in one frame defeat the reversal guard: moving right,
      Up then Left turns the snake left, and the move puts the head on the
      segment behind its neck, which ends the game on the next frame. */
  lemma TwoKeysReverseIntoNeck()
    ensures KeysTurned(Right, [UpKey, LeftKey]) == Opposite(Right)
    ensures var m := Moved(Initial().(direction := KeysTurned(Right, [UpKey, LeftKey])));
            m.head == m.tail[1] && HeadHitsTail(m)
  {
  }

  /** One key of a frame, also refused when it names the reverse of
      `heading`, the direction the snake moved in last. */
  function TurnedFrom(heading: Direction, d: Direction, k: Key): Direction {
    if IsArrow(k) && KeyDirection(k) == Opposite(heading) then d else Turned(d, k)
  }

  /** The arrow keys of one frame applied with the reversal guard held
      against the frame's heading as well as the current direction. */
  function Steered(heading: Direction, d: Direction, keys: seq<Key>): (r: Direction)
    requires d != Opposite(heading)
    ensures r != Opposite(heading)
    decreases |keys|
  {
    if keys == [] then d else Steered(heading, TurnedFrom(heading, d, keys[0]), keys[1..])
  }

  /** The guarded steering differs from the key loop only on keys that would
      reverse the heading: without such a key the two agree. */
  lemma {:induction false} SteeredAgreesWithoutReversal(heading: Direction, d: Direction, keys: seq<Key>)
    requires d != Opposite(heading)
    requires forall i :: 0 <= i < |keys| && IsArrow(keys[i]) ==> KeyDirection(keys[i]) != Opposite(heading)
    ensures Steered(heading, d, keys) == KeysTurned(d, keys)
    decreases |keys|
  {
    if keys != [] {
      assert forall i :: 0 <= i < |keys[1..]| ==> keys[1..][i] == keys[i + 1];
      SteeredAgreesWithoutReversal(heading, Turned(d, keys[0]), keys[1..]);
    }
  }

  /** The neck is safe exactly when the snake is not turned back: after a
      move the head lands on the segment behind its neck iff the new
      direction reverses the last one, and otherwise does not even overlap it. */
  lemma NeckSafe(s: SnakeState, d: Direction)
    requires |s.tail| >= 2 && s.head == Advanced(s.tail[0], s.direction)
    ensures var m := Moved(s.(direction := d));
            (m.head == m.tail[1] <==> d == Opposite(s.direction)) &&
            (d != Opposite(s.direction) ==> !Collide(CellRect(m.head), CellRect(m.tail[1])))
  {
  }

  /** The snake as `Snake` holds it: the head sprite's corner, the tail
      group's corners in order, and the direction. */
  class Snake {
    var head: Point
    var tail: seq<Point>
    var direction: Direction

    function State(): SnakeState
      reads this
    {
      SnakeState(head, tail, direction)
    }

    /** `Snake.__init__` */
    constructor ()
      ensures State() == Initial()
    {
      var t := LayTail();
      head := Start;
      direction := Right;
      tail := t;
    }

    /** `Snake.turn` */
    method Turn(key: Key)
      modifies this
      ensures State() == old(State()).(direction := Turned(old(direction), key))
    {
      if key == UpKey && direction != Down {
        direction := Up;
      } else if key == DownKey && direction != Up {
        direction := Down;
      } else if key == RightKey && direction != Left {
        direction := Right;
      } else if key == LeftKey && direction != Right {
        direction := Left;
      }
    }

    /** `Snake.advance_head`: `move_ip` on the head only. */
    method AdvanceHead()
      modifies this
      ensures State() == old(State()).(head := Advanced(old(head), direction))
    {
      if direction == Up {
        head := Point(head.x, head.y - Speed);
      } else if direction == Down {
        head := Point(head.x, head.y + Speed);
      } else if direction == Right {
        head := Point(head.x + Speed, head.y);
      } else {
        head := Point(head.x - Speed, head.y);
      }
    }

    /** `Snake.move`: advance the head, then swap each tail corner with the
      one carried from its predecessor. */
    method Move()
      modifies this
      ensures State() == Moved(old(State()))
    {
      var topleft := head;
      AdvanceHead();
      var i := 0;
      while i < |tail|
        invariant 0 <= i <= |tail| == |old(tail)|
        invariant head == Advanced(old(head), old(direction)) && direction == old(direction)
        invariant topleft == old(State()).Segments()[i]
        invariant forall k :: 0 <= k < i ==> tail[k] == old(State()).Segments()[k]
        invariant forall k :: i <= k < |tail| ==> tail[k] == old(tail)[k]
      {
        tail, topleft := tail[i := topleft], tail[i];
        i := i + 1;
      }
      assert tail == old(State()).Segments()[..|old(tail)|];
    }

    /** `Snake.grow`: advance the head and put a new segment in front of
      the old tail at the corner the head left. */
    method Grow()
      modifies this
      ensures State() == Grown(old(State()))
    {
      var topleft := head;
      AdvanceHead();
      tail := [topleft] + tail;
    }

    /** `Snake.reset`: the same snake whatever came before. */
    method Reset()
      modifies this
      ensures State() == Initial()
    {
      head := Start;
      tail := LayTail();
      direction := Right;
    }
  }

  /** The loop of `Snake.__init__` and `Snake.reset` that adds one segment
      per step, i steps left of the start. */
  method LayTail() returns (t: seq<Point>)
    ensures t == InitialTail()
  {
    t := [];
    for i := 1 to SnakeLength
      invariant |t| == i - 1
      invariant forall k :: 0 <= k < |t| ==> t[k] == Point(Start.x - (k + 1) * Speed, Start.y)
    {
      t := t + [Point(Start.x - i * Speed, Start.y)];
    }
  }
}
