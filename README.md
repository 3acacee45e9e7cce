# Snake, modelled in Dafny

This project models the game logic of a small pygame Snake game: the snake's
body and its operations (turn, advance the head, move, grow, reset), the
collision queries against the padding bars, the snake's own tail and the
food, the food's rejection-sampling placement, the score counter, the replay
button's press-then-release gesture, and the state machine of the game loop
(paused, playing, game over, replay). Rendering, sound and event polling are
not modelled.

Positions are integer top-left corners. Snake segments are 6x6 cells, the
food is 10x10, and the snake moves 6 pixels per step. A collision is the
strict overlap of two rectangles, as pygame's `colliderect` decides it.

Modules (one file each):

- `Geometry` (geometry.dfy): points, rectangles, overlap and point-in-rectangle
  tests, and the four padding bars.
- `SnakeBody` (snake.dfy): the snake as a value (`SnakeState`) and the pure
  functions that specify each operation. The class `Snake` performs each
  operation in place: head, tail sequence and direction are fields, and each
  method is proved against its function.
- `FoodPlacement` (food.dfy): the sampling range, the random draw, the
  function `Relocated` that specifies rejection sampling, and the class `Food`.
- `Score` (score.dfy): the class `Scoreboard`.
- `Input` (input.dfy): a frame's events.
- `Replay` (replay.dfy): the replay gesture and the class `ReplayButton`.
- `GameLoop` (game.dfy): one frame of the main loop as a function (`Step`) on
  the whole game state (`World`), the class `Game` whose `RunFrame` is proved
  against it, and the lemmas about frames.

The random source is an input: a `Draw` is a pair of raw natural numbers, and
`random.randint(lo, hi)` on raw value `n` gives `lo + n % (hi - lo + 1)`.
Every value in the range is reachable (`SampleReachesAll`). The clock reading
and the pointer position are inputs of each frame too.

The sampling range in the code is x in [7, 383] and y in [7, 283]. The
upper bounds are 400 - 5 - 10 - 2 and 300 - 5 - 10 - 2. The model uses these
bounds.

## Model

| member | source | states |
|---|---|---|
| Geometry.PaddingRect | main.py:249-269 | each padding bar has positive size and lies on the screen |
| Geometry.PaddingPlacement | main.py:249-269 | the left and right bars are 5 wide, at the screen's left and right edges, and run from the bottom of the top bar to the top of the bottom bar; the top and bottom bars are 5 high, at the screen's top and bottom edges, across the full width |
| Geometry.PaddingFramesPlayfield | main.py:249-269 | a rectangle that shows on the screen overlaps a padding bar exactly when it is not inside the 390x290 play field |
| SnakeBody.Turned | main.py:170-178 | a turn never produces the opposite of the current direction; a non-arrow key keeps the direction; an arrow key sets its direction unless that direction is the reverse, which keeps the direction |
| SnakeBody.Advanced | main.py:180-188 | the head moves exactly 6 pixels along one axis, with the sign given by the direction |
| SnakeBody.Moved | main.py:190-194 | move keeps the length and the direction; the new first tail segment is the old head; new tail[i] is old tail[i-1]; the old last position is dropped |
| SnakeBody.Grown | main.py:196-205 | grow adds exactly one segment; the new first tail segment is at the old head; the old tail keeps its positions and order |
| SnakeBody.GrowIsMoveKeepingLast | main.py:190-205 | growing equals moving with the old last segment kept at the end |
| SnakeBody.InitialShape | main.py:152-162 | the initial snake has its head at (15, 150), faces right, and has 19 tail segments, segment i at (15 - 6(i+1), 150); it is well formed |
| SnakeBody.MovedKeepsWellFormed | main.py:190-194 | move, after any turn, keeps the snake on the 6-pixel grid, with adjacent consecutive segments, the head one step ahead of the first tail segment, and at least 19 tail segments |
| SnakeBody.GrownKeepsWellFormed | main.py:196-205 | grow keeps the same invariant |
| SnakeBody.GridCellsCollideOnlyWhenEqual | main.py:217-223 | two 6x6 cells on the grid overlap exactly when they are at the same corner |
| SnakeBody.SelfCollisionIsSharedCell | main.py:108-109 | on a well-formed snake, the self-collision query holds exactly when the head's corner equals a tail segment's corner |
| SnakeBody.StepCannotSkipPadding | main.py:105-106 | a head inside the play field cannot step over a padding bar: after one step it is still inside or it overlaps a bar |
| SnakeBody.HeadHitsTail | main.py:108-109 | `snake_collide_with_self`: the head cell overlaps some tail cell (on a well-formed snake this is a shared corner, by `SelfCollisionIsSharedCell`) |
| SnakeBody.KeysTurned | main.py:79-81 | the key loop as written: the resulting direction is the start direction or the direction of one of the frame's arrow keys |
| SnakeBody.KeysTurnedLast | main.py:79-81 | the key loop is a left fold of `turn`: the direction after all keys is `Turned` of the direction after all but the last key, applied to the last key |
| SnakeBody.TwoKeysReverseIntoNeck | main.py:79-82 | as written, Up then Left in one frame while moving right yields Left; the move then puts the head on the segment behind its neck, which is a self-collision |
| SnakeBody.Steered | main.py:79-81 | the corrected key loop never yields the reverse of the frame's heading |
| SnakeBody.SteeredAgreesWithoutReversal | main.py:79-81 | if no key in the frame names the reverse of the heading, the corrected loop gives the same direction as the loop as written |
| SnakeBody.NeckSafe | main.py:170-178 | after a move, the head lands on the segment behind its neck exactly when the new direction reverses the last one; otherwise it does not overlap that segment |
| SnakeBody.Snake.constructor | main.py:152-162 | the new snake is the initial snake |
| SnakeBody.Snake.Turn | main.py:170-178 | the direction becomes `Turned(old direction, key)`; head and tail are unchanged |
| SnakeBody.Snake.AdvanceHead | main.py:180-188 | only the head changes, to `Advanced(old head, direction)` |
| SnakeBody.Snake.Move | main.py:190-194 | the swap loop leaves the snake equal to `Moved` of the old snake |
| SnakeBody.Snake.Grow | main.py:196-205 | the snake becomes `Grown` of the old snake |
| SnakeBody.Snake.Reset | main.py:207-215 | from any prior state the snake becomes the initial snake, so reset is idempotent |
| SnakeBody.LayTail | main.py:159-160 | the segment-laying loop builds exactly the initial tail |
| FoodPlacement.RandInt | main.py:143 | a draw lies within the inclusive bounds of `randint` |
| FoodPlacement.Sample | main.py:143 | every sampled food corner lies in [7, 383] x [7, 283] |
| FoodPlacement.SampleReachesAll | main.py:143 | every corner of the sampling range is the outcome of some draw |
| FoodPlacement.FoodClearOfPadding | main.py:143 | a sampled food lies inside the play field and overlaps no padding bar |
| FoodPlacement.OverlapsSnake | main.py:147 | `spritecollideany(food, snake)`: the food's rectangle overlaps some segment's cell |
| FoodPlacement.Relocated | main.py:146-149 | a food clear of the snake stays where it is; otherwise the result is one of the draws; the result is clear of the snake exactly when the food was clear on entry or some draw clears it |
| FoodPlacement.RelocatedTakesFirstClearDraw | main.py:146-149 | an overlapping food moves to the first draw that clears the snake |
| FoodPlacement.FirstFoodMayLieOnSnake | main.py:143-144 | the constructor does not check for the snake: some draw puts the first food on the initial snake |
| FoodPlacement.Food.constructor | main.py:137-144 | the food is placed at the sample of one draw |
| FoodPlacement.Food.Randomize | main.py:146-149 | the resampling loop leaves the food at `Relocated(old position, snake, draws)` |
| Score.Scoreboard.constructor | main.py:232 | the score starts at 0 |
| Score.Scoreboard.Update | main.py:237-238 | the score becomes the given value |
| Score.Scoreboard.Reset | main.py:243-244 | the score becomes 0 |
| Score.Scoreboard.IncrementScore | main.py:246-247 | the score rises by exactly 1 |
| Input.KeysOf | main.py:79-81 | the keys taken from a frame are key-down events of that frame, and there are no more of them than events |
| Input.KeysOfOne | main.py:79-81 | a key-down event contributes exactly its key, any other event no key |
| Input.KeysOfAppend | main.py:79-81 | the keys of two batches in a row are the keys of the first followed by the keys of the second; with `KeysOfOne`, every key-down event's key is kept, in arrival order |
| Replay.ScanClicks | main.py:61-67 | after a replay the button is disarmed; without a replay, the button is armed exactly when it was armed on entry or pressed during the frame |
| Replay.ReplayIffPressThenRelease | main.py:61-67 | the frame replays exactly when a left-button release on the button follows a press on it, or follows an armed entry |
| Replay.ReplayButton.constructor | main.py:272-278 | the button starts disarmed at the given rectangle |
| Replay.ReplayButton.Reset | main.py:283-285 | the button is disarmed |
| GameLoop.HitsBoundary | main.py:105-106 | `snake_collide_with_boundary`: for a head cell on the screen, the head touches a padding bar exactly when it has left the play field |
| GameLoop.EatsFood | main.py:111-112 | `snake_eats_food`: the head's corner lies within 6 pixels left of or above the food's corner and within 10 pixels right of or below it, strictly |
| GameLoop.PausedFrame | main.py:49-53 | a paused frame clears `paused` once the clock reaches `resume_time` |
| GameLoop.GameOverFrame | main.py:54-67 | a game-over frame disarms the button when the pointer is off it, then scans the events for the replay gesture and replays or keeps the new flag |
| GameLoop.PlayingFrame | main.py:68-84 | a playing frame as written: collision ends the game; otherwise a meal scores, grows and relocates the food, every key-down event goes through `turn` (`KeysTurned`), and the snake moves |
| GameLoop.PlayingFrameGuarded | main.py:68-84 | the playing frame with the corrected key loop (`Steered`); used only for the finding below |
| GameLoop.Step | main.py:44-84 | one pass of the loop: a quit event stops; otherwise the paused, game-over or playing frame, in that order of precedence; the playing frame is `PlayingFrame`, the key loop as written |
| GameLoop.StartSatisfiesInv | main.py:15-28 | the created and paused game satisfies the invariant: nonnegative score, food in the sampling range, and a well-formed snake |
| GameLoop.StepKeepsInv | main.py:44-84 | every frame keeps that invariant |
| GameLoop.QuitStops | main.py:45-48 | a frame stops the program exactly when its batch holds a quit event |
| GameLoop.CollisionEndsGame | main.py:69-73 | in a playing frame where the head overlaps a bar or a tail segment, the game is over and nothing else changes |
| GameLoop.ScoreCountsMeals | main.py:74-78 | in a playing frame without a collision, the score rises by 1 exactly when the head overlaps the food and stays the same otherwise; the snake grows by one segment exactly then |
| GameLoop.MealRelocatesFood | main.py:74-78 | without a meal the food stays put; after a meal it clears the grown snake whenever one of the frame's draws can clear it |
| GameLoop.PauseEndsOnTime | main.py:49-53 | a paused frame ends the pause exactly when the clock has reached `resume_time`, and changes nothing else |
| GameLoop.ReplayRestarts | main.py:54-67 | a game-over frame replays exactly after a press-then-release on the button: score 0, the initial snake, game over cleared, paused until now + 1000, button disarmed, food unchanged; otherwise only the button flag changes, and it is armed exactly when it was armed with the pointer on the button or a press lands on the button |
| GameLoop.PlayingFrameWithoutMeal | main.py:68-84 | a playing frame without a collision and without a meal changes only the snake: it is turned by every key of the frame through `turn` and then moved |
| GameLoop.TwoKeysEndTheGame | main.py:68-84 | as written, for any snake moving right whose head is one step ahead of its first tail segment, with no collision and no meal, a playing frame with Up then Left leaves the game running with the head on the segment behind its neck, and the next frame without a quit event ends the game |
| GameLoop.NeckNeverBitten | main.py:79-82 | with the corrected key loop (`PlayingFrameGuarded`), a playing frame never leaves the head overlapping the segment behind its neck |
| GameLoop.Game.constructor | main.py:15-30 | the new game has the initial snake, the sampled food, score 0, no pause, no game over, `resume_time` 0 and a disarmed button |
| GameLoop.Game.Pause | main.py:123-125 | sets `paused` and `resume_time` = now + 1000 |
| GameLoop.Game.PlayAgain | main.py:127-134 | clears game over, zeroes the score, resets the snake and pauses until now + 1000 |
| GameLoop.Game.Start | main.py:41-43 | start pauses the game before its loop |
| GameLoop.Game.RunFrame | main.py:44-84 | one loop pass leaves the game in the state `Step` gives, or stops on a quit event |
| GameLoop.Game.GameOverEvents | main.py:54-67 | the game-over branch leaves the game in the state `GameOverFrame` gives |
| GameLoop.Game.PlayingEvents | main.py:68-84 | the playing branch leaves the game in the state `PlayingFrame` gives |
| GameLoop.Game.SteerSnake | main.py:79-81 | the key loop calls `Snake.Turn` on every key-down event and changes only the snake's direction, to `KeysTurned` of the old direction and the frame's keys |

## Left out

- Drawing: `draw`, `draw_game_over`, surfaces, colours, the food circle, the game-over overlay, the replay button's image and `highlight`. These are pixel output only.
- Sprite groups used for drawing (`get_all_sprite_groups`, adding to and removing from `all_sprites`), and the sprite that `grow` returns. Only the head and tail positions are kept.
- The score label's image and position, and the replay button's position. Both depend on the width of text the font renderer draws. The button rectangle is a constructor parameter.
- Sound playback, mouse visibility, `clock.tick(40)`, `pygame.event.get` and `pygame.quit`/`quit`. A quit event is modelled as a frame that stops the program.
- The random number generator is not modelled. Each frame supplies a finite sequence of draws instead.
- FoodPlacement.Relocated: the source loops until a draw clears the snake, with no bound. The model stops after the last supplied draw, and the food may then still overlap the snake.
- All `get_ticks()` reads within one frame are taken as one tick count.
- `SCREEN_HEIGHT/2` is a float in the source. Rectangles hold integers, so the start row and the button row are 150.
- `colliderect` on rectangles with no area is not modelled: every rectangle here has positive size.
- The accessors `get_head` and `get_tail` are not modelled separately. Their results are the fields `head` and `tail`.

## Findings

| source | as written | input that shows it | evidently intended | confidence | as-written member | corrected member |
|---|---|---|---|---|---|---|
| main.py:79-81 | every key-down event of a frame goes through `turn`, and `turn` checks a key only against the direction the previous key set | moving right, one frame whose events are Up then Left: the direction becomes Left, and the move puts the head on the segment behind its neck, so the next frame ends the game | a frame never reverses the direction the snake last moved in, which is the purpose of the guard in `turn` | medium; not executed | GameLoop.TwoKeysEndTheGame | GameLoop.NeckNeverBitten |

`SnakeBody.KeysTurned` is the key loop as written, and the game loop
(`GameLoop.Step`, `GameLoop.Game.RunFrame`) runs it; `SnakeBody.TwoKeysReverseIntoNeck`
and `GameLoop.TwoKeysEndTheGame` exhibit the reversal. `SnakeBody.Steered` is
the corrected loop: it also refuses a key that reverses the heading the frame
started with. `GameLoop.PlayingFrameGuarded` is the playing frame with the
corrected loop, and `GameLoop.NeckNeverBitten` is proved about it. Without a
reversing key, the two loops agree (`SnakeBody.SteeredAgreesWithoutReversal`).
