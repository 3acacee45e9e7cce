/** The game loop: one frame of `Game.start` in each of its three states
    (paused, game over, playing), as a function on the whole game state and
    as the class `Game` that performs it on its objects. */
module GameLoop {
  import opened Geometry
  import opened SnakeBody
  import opened FoodPlacement
  import opened Input
  import opened Replay
  import opened Score

  /** Milliseconds between `Game.pause` and the end of the pause. */
  const PauseLength := 1000

  /** Everything a frame reads or changes: the snake, the food's corner, the
      score, the `paused` and `game_over` flags, `resume_time` and the replay
      button's `mouse_down_flag`. */
  datatype World = World(snake: SnakeState, food: Point, score: int,
                         paused: bool, gameOver: bool, resumeTime: int, armed: bool)

  /** What one frame receives from outside: the clock's tick count, the
      pointer position, the frame's event batch and the random draws that
      `Food.randomize` may consume. */
  datatype Frame = Frame(now: int, mouse: Point, events: seq<Event>, draws: seq<Draw>)

  /** A quit event ends the program; any other frame yields the next state. */
  datatype Outcome = Stopped | Running(world: World)

  /** `snake_collide_with_boundary`: for a head cell on the screen, the head
      touches a bar exactly when it has left the play field. */
  predicate HitsBoundary(s: SnakeState): (b: bool)
    ensures Collide(CellRect(s.head), Screen) ==> (b <==> !InPlayfield(CellRect(s.head)))
  {
    HitsPadding(CellRect(s.head))
  }

  /** `snake_eats_food`: the head's corner lies less than a cell to the left
      of or above the food and less than the food's side to its right or below. */
  predicate EatsFood(s: SnakeState, food: Point): (b: bool)
    ensures b <==> food.x - PixelSize < s.head.x < food.x + FoodSide &&
                   food.y - PixelSize < s.head.y < food.y + FoodSide
  {
    Collide(FoodRect(food), CellRect(s.head))
  }

  /** `Game.pause` */
  function Paused(w: World, now: int): World {
    w.(paused := true, resumeTime := now + PauseLength)
  }

  /** `Game.play_again` */
  function Replayed(w: World, now: int): World {
    Paused(w.(gameOver := false, score := 0, snake := Initial()), now)
  }

  /** The state `Game.__init__` builds; `Game.start` then pauses it. */
  function Created(d: Draw): World {
    World(Initial(), Sample(d), 0, false, false, 0, false)
  }

  /** A paused frame: play resumes once the clock reaches `resume_time`. */
  function PausedFrame(w: World, f: Frame): World {
    if f.now >= w.resumeTime then w.(paused := false) else w
  }

  /** A game-over frame: the button is disarmed when the pointer is off it,
      then the events are scanned for the replay gesture. */
  function GameOverFrame(w: World, f: Frame, button: Rect): World {
    var armed := if ContainsPoint(button, f.mouse) then w.armed else false;
    var g := ScanClicks(button, armed, f.events);
    if g.replay then Replayed(w, f.now).(armed := false) else w.(armed := g.armed)
  }

  /** A playing frame: a collision ends the game and the frame; otherwise a
      meal scores, grows the snake and relocates the food, every key-down
      event goes through `Snake.turn`, and the snake moves. */
  function PlayingFrame(w: World, f: Frame): World {
    if HitsBoundary(w.snake) || HeadHitsTail(w.snake) then w.(gameOver := true)
    else
      var eats := EatsFood(w.snake, w.food);
      var grown := if eats then Grown(w.snake) else w.snake;
      var food := if eats then Relocated(w.food, grown.Segments(), f.draws) else w.food;
      var steered := grown.(direction := KeysTurned(grown.direction, KeysOf(f.events)));
      w.(snake := Moved(steered), food := food, score := if eats then w.score + 1 else w.score)
  }

  /** The playing frame with the key loop corrected: a key is also refused
      when it names the reverse of the direction the snake had when the
      frame began.  Everything else is as in `PlayingFrame`. */
  function PlayingFrameGuarded(w: World, f: Frame): World {
    if HitsBoundary(w.snake) || HeadHitsTail(w.snake) then w.(gameOver := true)
    else
      var eats := EatsFood(w.snake, w.food);
      var grown := if eats then Grown(w.snake) else w.snake;
      var food := if eats then Relocated(w.food, grown.Segments(), f.draws) else w.food;
      var heading := grown.direction;
      var steered := grown.(direction := Steered(heading, heading, KeysOf(f.events)));
      w.(snake := Moved(steered), food := food, score := if eats then w.score + 1 else w.score)
  }

  /** One pass of the `while True` loop of `Game.start`. */
  function Step(w: World, f: Frame, button: Rect): Outcome {
    if Quit in f.events then Stopped
    else if w.paused then Running(PausedFrame(w, f))
    else if w.gameOver then Running(GameOverFrame(w, f, button))
    else Running(PlayingFrame(w, f))
  }

  /** What holds of the game state between frames. */
  ghost predicate Inv(w: World) {
    w.score >= 0 && InSampleRange(w.food) && WellFormed(w.snake)
  }

  /** The game as created and started satisfies the invariant. */
  lemma StartSatisfiesInv(d: Draw, now: int)
    ensures Inv(Created(d)) && Inv(Paused(Created(d), now))
  {
  }

  /** Every frame keeps the invariant. */
  lemma StepKeepsInv(w: World, f: Frame, button: Rect)
    requires Inv(w)
    ensures Step(w, f, button).Running? ==> Inv(Step(w, f, button).world)
  {
    InitialShape();
    if !w.paused && !w.gameOver && !(HitsBoundary(w.snake) || HeadHitsTail(w.snake)) {
      var eats := EatsFood(w.snake, w.food);
      var grown := if eats then Grown(w.snake) else w.snake;
      if eats {
        GrownKeepsWellFormed(w.snake);
      }
      MovedKeepsWellFormed(grown, KeysTurned(grown.direction, KeysOf(f.events)));
    }
  }

  /** A quit event in the batch ends the program in every state. */
  lemma QuitStops(w: World, f: Frame, button: Rect)
    ensures Step(w, f, button) == Stopped <==> Quit in f.events
  {
  }

  /** A playing frame whose head overlaps a bar or a tail segment ends the
      game and changes nothing else. */
  lemma CollisionEndsGame(w: World, f: Frame, button: Rect)
    requires !w.paused && !w.gameOver && Quit !in f.events
    requires HitsBoundary(w.snake) || HeadHitsTail(w.snake)
    ensures Step(w, f, button) == Running(w.(gameOver := true))
  {
  }

  /** In a playing frame the score rises by one exactly when the head
      overlaps the food, and the snake grows by one segment exactly then. */
  lemma ScoreCountsMeals(w: World, f: Frame, button: Rect)
    requires !w.paused && !w.gameOver && Quit !in f.events
    requires !HitsBoundary(w.snake) && !HeadHitsTail(w.snake)
    ensures var w' := Step(w, f, button).world;
            (w'.score == w.score + 1 <==> EatsFood(w.snake, w.food)) &&
            (w'.score == w.score <==> !EatsFood(w.snake, w.food)) &&
            |w'.snake.tail| == |w.snake.tail| + (if EatsFood(w.snake, w.food) then 1 else 0) &&
            !w'.gameOver && !w'.paused
  {
  }

  /** After a meal the food has cleared the grown snake whenever one of the
      frame's draws could clear it; without a meal it stays where it was. */
  lemma MealRelocatesFood(w: World, f: Frame, button: Rect)
    requires !w.paused && !w.gameOver && Quit !in f.events
    requires !HitsBoundary(w.snake) && !HeadHitsTail(w.snake)
    ensures var w' := Step(w, f, button).world;
            (!EatsFood(w.snake, w.food) ==> w'.food == w.food) &&
            (EatsFood(w.snake, w.food) &&
             (exists i :: 0 <= i < |f.draws| && !OverlapsSnake(Sample(f.draws[i]), Grown(w.snake).Segments()))
             ==> !OverlapsSnake(w'.food, Grown(w.snake).Segments()))
  {
  }

  /** A paused frame ends the pause exactly when the clock has reached
      `resume_time`, and touches nothing else. */
  lemma PauseEndsOnTime(w: World, f: Frame, button: Rect)
    requires w.paused && Quit !in f.events
    ensures Step(w, f, button) == Running(w.(paused := f.now < w.resumeTime))
  {
  }

  /** A game-over frame starts a new game exactly when the events release
      the button after pressing it: score zero, the initial snake, and a
      pause of one second from now.  Otherwise only the button's flag moves:
      it ends armed exactly when it was armed with the pointer still on the
      button, or a press lands on it. */
  lemma ReplayRestarts(w: World, f: Frame, button: Rect)
    requires !w.paused && w.gameOver && Quit !in f.events
    ensures var armed := w.armed && ContainsPoint(button, f.mouse);
            var w' := Step(w, f, button).world;
            if ReleasedAfterPress(button, armed, f.events) then
              w'.score == 0 && w'.snake == Initial() && !w'.gameOver && w'.paused &&
              w'.resumeTime == f.now + PauseLength && !w'.armed && w'.food == w.food
            else
              w' == w.(armed := w'.armed) &&
              (w'.armed <==> armed || exists i :: 0 <= i < |f.events| && PressInside(button, f.events[i]))
  {
    var armed := w.armed && ContainsPoint(button, f.mouse);
    ReplayIffPressThenRelease(button, armed, f.events);
  }

  /** The key loop as written lets two keys reverse the snake: while a snake
      whose head leads its first tail segment moves right, a frame with Up then Left and no meal leaves the head
      on the segment behind its neck, and the next frame ends the game. */
  lemma TwoKeysEndTheGame(w: World, f: Frame, g: Frame, button: Rect)
    requires w.snake.direction == Right && !w.paused && !w.gameOver
    requires |w.snake.tail| >= 2 && w.snake.head == Advanced(w.snake.tail[0], Right)
    requires !HitsBoundary(w.snake) && !HeadHitsTail(w.snake) && !EatsFood(w.snake, w.food)
    requires f.events == [KeyPress(UpKey), KeyPress(LeftKey)] && Quit !in g.events
    ensures Step(w, f, button).Running?
    ensures var w1 := Step(w, f, button).world;
            !w1.gameOver && w1.snake.head == w1.snake.tail[1] &&
            Step(w1, g, button) == Running(w1.(gameOver := true))
  {
    var m := Moved(w.snake.(direction := Left));
    var w1 := w.(snake := m);
    assert Step(w, f, button) == Running(w1) by {
      UpLeftTurnsLeft(f.events);
      PlayingFrameWithoutMeal(w, f, button);
    }
    assert Step(w1, g, button) == Running(w1.(gameOver := true)) by {
      NeckSafe(w.snake, Left);
      assert Collide(CellRect(m.head), CellRect(m.tail[1]));
      CollisionEndsGame(w1, g, button);
    }
    NeckSafe(w.snake, Left);
  }

  /** Up then Left, moving right, turns the snake left through `turn`. */
  lemma UpLeftTurnsLeft(events: seq<Event>)
    requires events == [KeyPress(UpKey), KeyPress(LeftKey)]
    ensures Quit !in events && KeysTurned(Right, KeysOf(events)) == Left
  {
    assert KeysOf(events) == [UpKey, LeftKey] by {
      KeysOfOne(KeyPress(UpKey));
      KeysOfOne(KeyPress(LeftKey));
      KeysOfAppend([KeyPress(UpKey)], [KeyPress(LeftKey)]);
      assert [KeyPress(UpKey)] + [KeyPress(LeftKey)] == events;
    }
    assert KeysTurned(Right, [UpKey, LeftKey]) == Left by {
      assert [UpKey, LeftKey][1..] == [LeftKey];
    }
  }

  /** A playing frame without a collision and without a meal only steers
      and moves the snake. */
  lemma PlayingFrameWithoutMeal(w: World, f: Frame, button: Rect)
    requires !w.paused && !w.gameOver && Quit !in f.events
    requires !HitsBoundary(w.snake) && !HeadHitsTail(w.snake) && !EatsFood(w.snake, w.food)
    ensures Step(w, f, button) ==
            Running(w.(snake := Moved(w.snake.(direction := KeysTurned(w.snake.direction, KeysOf(f.events))))))
  {
  }

  /** With the reversal guard held against the frame's heading, a playing
      frame never turns the snake back into its neck: the head does not
      overlap the segment behind its neck. */
  lemma NeckNeverBitten(w: World, f: Frame)
    requires Inv(w) && !w.paused && !w.gameOver
    requires !HitsBoundary(w.snake) && !HeadHitsTail(w.snake)
    ensures var s := PlayingFrameGuarded(w, f).snake;
            |s.tail| >= 2 && !Collide(CellRect(s.head), CellRect(s.tail[1]))
  {
  }

  /** `Game`: its objects and the flags its loop flips. */
  class Game {
    const snake: Snake
    const food: Food
    const scoreboard: Scoreboard
    const replayButton: ReplayButton
    var gameOver: bool
    var paused: bool
    var resumeTime: int

    function State(): World
      reads this, snake, food, scoreboard, replayButton
    {
      World(snake.State(), food.pos, scoreboard.score, paused, gameOver, resumeTime, replayButton.mouseDownFlag)
    }

    /** `Game.__init__`: the draw places the first food; `button` is where
        the rendered label puts the replay button. */
    constructor (d: Draw, button: Rect)
      ensures State() == Created(d) && replayButton.rect == button
    {
      snake := new Snake();
      food := new Food(d);
      scoreboard := new Scoreboard();
      replayButton := new ReplayButton(button);
      gameOver := false;
      paused := false;
      resumeTime := 0;
    }

    /** `Game.pause` */
    method Pause(now: int)
      modifies this
      ensures State() == Paused(old(State()), now)
    {
      resumeTime := now + PauseLength;
      paused := true;
    }

    /** `Game.play_again`, without the redraw. */
    method PlayAgain(now: int)
      modifies this, snake, scoreboard
      ensures State() == Replayed(old(State()), now)
    {
      gameOver := false;
      scoreboard.Reset();
      snake.Reset();
      Pause(now);
    }

    /** `Game.start` up to its loop: draw, then pause. */
    method Start(now: int)
      modifies this
      ensures State() == Paused(old(State()), now)
    {
      Pause(now);
    }

    /** One pass of the loop of `Game.start`; `running` is false when a
        quit event stops the program. */
    method RunFrame(f: Frame) returns (running: bool)
      modifies this, snake, food, scoreboard, replayButton
      ensures Step(old(State()), f, replayButton.rect) == if running then Running(State()) else Stopped
    {
      if Quit in f.events {
        return false;
      }
      running := true;
      if paused {
        if f.now >= resumeTime {
          paused := false;
        }
      } else if gameOver {
        GameOverEvents(f);
      } else {
        PlayingEvents(f);
      }
    }

    /** The game-over branch of `Game.start`. */
    method GameOverEvents(f: Frame)
      requires !paused && gameOver
      modifies this, snake, scoreboard, replayButton
      ensures State() == GameOverFrame(old(State()), f, replayButton.rect)
    {
      ghost var w0 := State();
      var rect := replayButton.rect;
      if !ContainsPoint(rect, f.mouse) {
        replayButton.Reset();
      }
      ghost var armed0 := replayButton.mouseDownFlag;
      var i := 0;
      var replay := false;
      while i < |f.events| && !replay
        invariant 0 <= i <= |f.events|
        invariant !replay ==> ScanClicks(rect, replayButton.mouseDownFlag, f.events[i..]) == ScanClicks(rect, armed0, f.events)
        invariant !replay ==> State() == w0.(armed := replayButton.mouseDownFlag)
        invariant replay ==> ScanClicks(rect, armed0, f.events).replay
        invariant replay ==> State() == Replayed(w0, f.now).(armed := false)
        decreases |f.events| - i
      {
        var e := f.events[i];
        assert f.events[i..][1..] == f.events[i + 1..];
        if PressInside(rect, e) {
          replayButton.mouseDownFlag := true;
        } else if ReleaseInside(rect, e) && replayButton.mouseDownFlag {
          PlayAgain(f.now);
          replayButton.Reset();
          replay := true;
        }
        i := i + 1;
      }
    }

    /** The playing branch of `Game.start`. */
    method PlayingEvents(f: Frame)
      requires !paused && !gameOver
      modifies this, snake, food, scoreboard
      ensures State() == PlayingFrame(old(State()), f)
    {
      if HitsBoundary(snake.State()) || HeadHitsTail(snake.State()) {
        gameOver := true;
        return;
      }
      if EatsFood(snake.State(), food.pos) {
        scoreboard.IncrementScore();
        snake.Grow();
        food.Randomize(snake.State().Segments(), f.draws);
      }
      SteerSnake(f.events);
      snake.Move();
    }

    /** The key loop of the playing branch: every key-down event goes
        through `Snake.turn`, in the order the events arrived. */
    method SteerSnake(events: seq<Event>)
      modifies snake
      ensures snake.State() == old(snake.State()).(direction := KeysTurned(old(snake.direction), KeysOf(events)))
    {
      var i := 0;
      while i < |events|
        invariant 0 <= i <= |events|
        invariant KeysTurned(snake.direction, KeysOf(events[i..])) == KeysTurned(old(snake.direction), KeysOf(events))
        invariant snake.State() == old(snake.State()).(direction := snake.direction)
      {
        var e := events[i];
        assert events[i..][1..] == events[i + 1..];
        ghost var rest := KeysOf(events[i + 1..]);
        if e.KeyPress? {
          assert KeysOf(events[i..]) == [e.key] + rest;
          assert ([e.key] + rest)[1..] == rest;
          snake.Turn(e.key);
        } else {
          assert KeysOf(events[i..]) == rest;
        }
        i := i + 1;
      }
    }
  }
}
