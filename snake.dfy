/**
 * The pocket pet's snake game (`g_gs`): a snake on a 23 x 8 grid moved one
 * cell per timer tick, the food it eats, the 16-bit LFSR that places the
 * food, the speed-up of the timer and the two modal dialogs (exit, game
 * over) that pause the game.
 *
 * Drawing, labels and the LVGL objects are left out; the game screen's
 * existence is a flag, the timer is its period.
 */
module Snake {
  import opened Common
  import opened Keys

  const Width := 23
  const Height := 8
  /** `SNAKE_MAX_LENGTH`: the size of the body array. */
  const MaxLength := 184
  const InitialX: byte := 11
  const InitialY: byte := 4
  /** `SNAKE_TIMER_PERIOD` in milliseconds. */
  const BasePeriod := 300
  const LfsrSeed: bv16 := 0x1234

  datatype Dir = DirUp | DirDown | DirLeft | DirRight

  function Reverse(d: Dir): (r: Dir)
    ensures r != d
  {
    match d
    case DirUp => DirDown
    case DirDown => DirUp
    case DirLeft => DirRight
    case DirRight => DirLeft
  }

  /** `snake_point_t`: two `uint8_t` coordinates. */
  datatype Point = Point(x: byte, y: byte)

  predicate InGrid(p: Point)
  {
    p.x < Width && p.y < Height
  }

  /**
   * The new head for direction `d`: up and left stop at 0 instead of
   * leaving the grid; down and right add one in `uint8_t`.
   */
  function Step(p: Point, d: Dir): (r: Point)
    ensures InGrid(p) && r != p ==> Adjacent(p, r)
    ensures r == p <==> (d == DirUp && p.y == 0) || (d == DirLeft && p.x == 0)
  {
    match d
    case DirUp => if p.y > 0 then Point(p.x, p.y - 1) else p
    case DirDown => Point(p.x, Trunc8(p.y + 1))
    case DirLeft => if p.x > 0 then Point(p.x - 1, p.y) else p
    case DirRight => Point(Trunc8(p.x + 1), p.y)
  }

  /** Cells one step apart, horizontally or vertically. */
  predicate Adjacent(p: Point, q: Point)
  {
    (p.y == q.y && (p.x + 1 == q.x || q.x + 1 == p.x)) || (p.x == q.x && (p.y + 1 == q.y || q.y + 1 == p.y))
  }

  /** The body after a move: the new head, then the first `len - 1` old segments; the rest untouched. */
  function Shifted(b: seq<Point>, len: nat, d: Dir): (r: seq<Point>)
    requires 1 <= len <= |b|
    ensures |r| == |b| && r[0] == Step(b[0], d)
    ensures forall i :: 1 <= i < len ==> r[i] == b[i - 1]
    ensures forall i :: len <= i < |b| ==> r[i] == b[i]
  {
    [Step(b[0], d)] + b[..len - 1] + b[len..]
  }

  /** `snake_game_check_collision`: the head off the grid or on one of the other segments. */
  predicate Collides(b: seq<Point>, len: nat)
    requires 1 <= len <= |b|
  {
    b[0].x >= Width || b[0].y >= Height || exists i :: 1 <= i < len && b[i] == b[0]
  }

  /** `p` lies on one of the first `len` segments. */
  predicate OnBody(b: seq<Point>, len: nat, p: Point)
    requires len <= |b|
  {
    exists i :: 0 <= i < len && b[i] == p
  }

  /**
   * Running into the top or the left wall does not leave the grid: the
   * head stays put and lands on the old head, now the second segment, so
   * the hit is caught as a collision with the snake itself.
   */
  lemma WallHitIsSelfCollision(b: seq<Point>, len: nat, d: Dir)
    requires 2 <= len <= |b|
    requires (d == DirUp && b[0].y == 0) || (d == DirLeft && b[0].x == 0)
    ensures Collides(Shifted(b, len, d), len)
  {
    var r := Shifted(b, len, d);
    assert r[1] == b[0] == r[0];
  }

  /** One LFSR step (`snake_game_lfsr_random`): taps 0, 2, 3 and 5, the feedback bit shifted in at the top. */
  function LfsrNext(s: bv16): (r: bv16)
    ensures r == 0 <==> s == 0
  {
    var bit := (s ^ (s >> 2) ^ (s >> 3) ^ (s >> 5)) & 1;
    (s >> 1) | (bit << 15)
  }

  /** The seed `snake_game_show` takes from the tick count. */
  function Seed(tick: uint32): (r: bv16)
    ensures r == 0 <==> tick % 0x1_0000 == 0x1234
  {
    LfsrSeed ^ ((tick % 0x1_0000) as bv16)
  }

  /** A zero state stays zero, so from it every food proposal is the corner (0, 0). */
  lemma ZeroSeedStaysZero(tick: uint32)
    requires tick % 0x1_0000 == 0x1234
    ensures Seed(tick) == 0 && LfsrNext(Seed(tick)) == 0
    ensures Point((LfsrNext(0) as int % Width) as byte, (LfsrNext(LfsrNext(0)) as int % Height) as byte) == Point(0, 0)
  {}

  /**
   * The timer period set when the score reaches a multiple of five:
   * `300 - (score / 5) * 20` computed in `int` and passed as `uint32_t`.
   */
  function SpeedUpPeriod(score: uint16): (r: uint32)
    ensures score < 80 ==> r == BasePeriod - (score / 5) * 20
    ensures score >= 80 ==> r == 0x1_0000_0000 + BasePeriod - (score / 5) * 20
  {
    Trunc32(BasePeriod - (score / 5) * 20)
  }

  /** The speed-up reaches a period of 0 at 75 and wraps to about 4.3e9 ms (the game all but stops) from 80. */
  lemma SpeedUpWraps()
    ensures SpeedUpPeriod(70) == 20 && SpeedUpPeriod(75) == 0
    ensures SpeedUpPeriod(80) == 0xFFFF_FFEC
    ensures forall s: uint16 :: s < 75 ==> SpeedUpPeriod(s) >= 20
  {}

  /** What a timer tick did. */
  datatype Outcome =
    | Ignored
    | Moved
    | Crashed
    /** Ate the food; `placed` says whether a new food cell was found within the attempts allowed. */
    | Ate(placed: bool)
    /** Ate at full length: the source writes past the body array here. */
    | BodyFull

  class Game {
    const body: array<Point>
    var length: nat
    var direction: Dir
    var nextDirection: Dir
    var gameOver: bool
    var initialized: bool
    var paused: bool
    var showExitDialog: bool
    /** `exit_selection`: true for "Yes". */
    var exitYes: bool
    var showGameOverDialog: bool
    /** `game_over_selection`: true for "No" (leave). */
    var gameOverNo: bool
    var food: Point
    var score: uint16
    var lfsr: bv16
    /** The game timer's period in milliseconds. */
    var period: uint32
    /** `g_game_screen` exists. */
    var screen: bool

    /**
     * A dialog is what pauses the game; the game-over dialog is up
     * exactly while the game is over; the next direction never reverses
     * the current one.
     */
    ghost predicate Valid()
      reads this
    {
      && body.Length == MaxLength && 3 <= length <= MaxLength
      && (paused <==> showExitDialog || showGameOverDialog)
      && !(showExitDialog && showGameOverDialog)
      && (gameOver <==> showGameOverDialog)
      && nextDirection != Reverse(direction)
    }

    /**
     * A stand-in for the state before the game is first shown: no screen,
     * not initialised, and otherwise a consistent starting snake. The
     * source's zero-initialised statics hold a zero length; every field
     * that `Valid` constrains is set again by `snake_game_show` before a
     * tick can act.
     */
    constructor ()
      ensures Valid() && fresh(body) && !screen && !initialized
    {
      body := new Point[MaxLength](_ => Point(0, 0));
      length := 3;
      direction, nextDirection := DirRight, DirRight;
      gameOver, initialized, paused := false, false, false;
      showExitDialog, exitYes, showGameOverDialog, gameOverNo := false, false, false, false;
      food := Point(0, 0);
      score := 0;
      lfsr := LfsrSeed;
      period := BasePeriod;
      screen := false;
    }

    /** The starting snake: three segments from (11, 4) leftwards, heading right. */
    ghost predicate Fresh()
      reads this, body
    {
      && body.Length == MaxLength && length == 3 && score == 0
      && direction == DirRight && nextDirection == DirRight
      && !gameOver && !paused && !showGameOverDialog && !gameOverNo
      && body[0] == Point(InitialX, InitialY) && body[1] == Point(InitialX - 1, InitialY)
      && body[2] == Point(InitialX - 2, InitialY)
      && period == BasePeriod
    }

    /** `snake_game_lfsr_random` */
    method Random() returns (r: bv16)
      modifies this`lfsr
      ensures lfsr == LfsrNext(old(lfsr)) && r == lfsr
    {
      lfsr := LfsrNext(lfsr);
      r := lfsr;
    }

    /** Whether `p` is on the snake: the loop of `snake_game_generate_food`. */
    method OnSnake(p: Point) returns (hit: bool)
      requires length <= body.Length
      ensures hit == OnBody(body[..], length, p)
    {
      hit := false;
      var i := 0;
      while i < length
        invariant 0 <= i <= length
        invariant forall k :: 0 <= k < i ==> body[k] != p
      {
        if body[i] == p {
          return true;
        }
        i := i + 1;
      }
    }

    /**
     * `snake_game_generate_food`: draws a column and a row from the LFSR
     * until the cell is off the snake. The source retries without bound;
     * the model gives up after `attempts` draws and says whether a cell
     * was found. A found cell is in the grid and off the snake; from a
     * zero LFSR state every draw is (0, 0).
     */
    method GenerateFood(attempts: nat) returns (placed: bool)
      requires length <= body.Length
      modifies this`food, this`lfsr
      ensures placed ==> InGrid(food) && !OnBody(body[..], length, food)
      ensures old(lfsr) == 0 ==> lfsr == 0 && (attempts > 0 ==> food == Point(0, 0))
      ensures old(lfsr) == 0 && OnBody(body[..], length, Point(0, 0)) ==> !placed
    {
      placed := false;
      var n := 0;
      while !placed && n < attempts
        invariant 0 <= n <= attempts
        invariant placed ==> n > 0
        invariant placed ==> InGrid(food) && !OnBody(body[..], length, food)
        invariant old(lfsr) == 0 ==> lfsr == 0 && (n > 0 ==> food == Point(0, 0))
        invariant old(lfsr) == 0 && OnBody(body[..], length, Point(0, 0)) ==> !placed
      {
        var rx := Random();
        var ry := Random();
        food := Point((rx as int % Width) as byte, (ry as int % Height) as byte);
        var hit := OnSnake(food);
        placed := !hit;
        n := n + 1;
      }
    }

    /** `snake_game_move_snake`: every segment takes its predecessor's place, from the tail down. */
    method Move()
      requires 1 <= length <= body.Length
      modifies body
      ensures body[..] == Shifted(old(body[..]), length, direction)
    {
      var head := Step(body[0], direction);
      var i := length - 1;
      while i > 0
        invariant 0 <= i <= length - 1
        invariant forall k :: 0 <= k <= i ==> body[k] == old(body[k])
        invariant forall k :: i < k < length ==> body[k] == old(body[k - 1])
        invariant forall k :: length <= k < body.Length ==> body[k] == old(body[k])
      {
        body[i] := body[i - 1];
        i := i - 1;
      }
      body[0] := head;
    }

    /** `snake_game_check_collision` */
    method Collision() returns (hit: bool)
      requires 1 <= length <= body.Length
      ensures hit == Collides(body[..], length)
    {
      var head := body[0];
      if head.x >= Width || head.y >= Height {
        return true;
      }
      var i := 1;
      while i < length
        invariant 1 <= i <= length
        invariant forall k :: 1 <= k < i ==> body[k] != head
      {
        if body[i] == head {
          return true;
        }
        i := i + 1;
      }
      return false;
    }

    /** `snake_game_show_game_over_dialog` */
    method ShowGameOverDialog()
      requires showGameOverDialog ==> paused
      modifies this`paused, this`showGameOverDialog, this`gameOverNo
      ensures paused && showGameOverDialog
      ensures gameOverNo == (if old(showGameOverDialog) then old(gameOverNo) else false)
    {
      if showGameOverDialog {
        return;
      }
      paused := true;
      showGameOverDialog := true;
      gameOverNo := false;
    }

    /**
     * `snake_game_timer_cb`. Nothing happens without the game screen, once
     * the game is over, before it is initialised or while a dialog pauses
     * it. Otherwise the snake turns to the chosen direction and moves; a
     * collision ends the game and brings up the game-over dialog; landing
     * on the food adds one to the score and the length, places new food
     * (within `attempts` draws) and speeds the timer up at every multiple
     * of five.
     */
    method Tick(attempts: nat) returns (outcome: Outcome)
      requires Valid()
      modifies body, this`direction, this`gameOver, this`paused, this`showGameOverDialog, this`gameOverNo,
        this`score, this`length, this`food, this`lfsr, this`period
      ensures Valid()
      ensures outcome == Ignored <==> !old(screen) || old(gameOver) || !old(initialized) || old(paused)
      ensures outcome == Ignored ==> unchanged(this) && unchanged(body)
      ensures outcome != Ignored ==>
        && direction == old(nextDirection)
        && body[..] == Shifted(old(body[..]), old(length), direction)
      ensures outcome != Ignored ==> (outcome == Crashed <==> Collides(body[..], old(length)))
      ensures outcome == Crashed ==> gameOver && paused && showGameOverDialog && score == old(score)
      ensures outcome == Moved ==> length == old(length) && score == old(score) && !gameOver && body[0] != old(food)
      ensures outcome.Ate? ==>
        && body[0] == old(food) && !gameOver
        && length == old(length) + 1 && score == (old(score) + 1) % 0x1_0000
        && (outcome.placed ==> InGrid(food) && !OnBody(body[..], length, food))
        && period == (if score % 5 == 0 then SpeedUpPeriod(score) else old(period))
      ensures outcome == BodyFull ==>
        && body[0] == old(food) && !gameOver && length == old(length) && score == old(score)
      ensures outcome == Moved || outcome == BodyFull ==>
        && food == old(food) && period == old(period) && lfsr == old(lfsr)
        && paused == old(paused) && showGameOverDialog == old(showGameOverDialog) && gameOverNo == old(gameOverNo)
      ensures outcome == Crashed ==>
        length == old(length) && food == old(food) && period == old(period) && lfsr == old(lfsr) && !gameOverNo
      ensures
        && screen == old(screen) && initialized == old(initialized) && nextDirection == old(nextDirection)
        && showExitDialog == old(showExitDialog) && exitYes == old(exitYes)
    {
      if !screen || gameOver || !initialized || paused {
        return Ignored;
      }
      direction := nextDirection;
      Move();
      var crashed := Collision();
      if crashed {
        gameOver := true;
        ShowGameOverDialog();
        return Crashed;
      }
      if body[0] != food {
        return Moved;
      }
      if length == MaxLength {
        return BodyFull;
      }
      var placed := Eat(attempts);
      return Ate(placed);
    }

    /** The food branch of `snake_game_timer_cb`: score and length grow, new food, and a speed-up every fifth point. */
    method Eat(attempts: nat) returns (placed: bool)
      requires length < body.Length
      modifies this`score, this`length, this`food, this`lfsr, this`period
      ensures length == old(length) + 1 && score == (old(score) + 1) % 0x1_0000
      ensures placed ==> InGrid(food) && !OnBody(body[..], length, food)
      ensures period == (if score % 5 == 0 then SpeedUpPeriod(score) else old(period))
    {
      score := (score + 1) % 0x1_0000;
      length := length + 1;
      placed := GenerateFood(attempts);
      if score % 5 == 0 {
        period := SpeedUpPeriod(score);
      }
    }

    /** The state reset shared by `snake_game_show` and `snake_game_restart`. */
    method ResetSnake()
      requires body.Length == MaxLength
      modifies body, this`length, this`direction, this`nextDirection, this`score, this`gameOver, this`paused,
        this`showGameOverDialog, this`gameOverNo, this`period
      ensures Fresh()
    {
      length := 3;
      direction, nextDirection := DirRight, DirRight;
      score := 0;
      gameOver := false;
      paused := false;
      showGameOverDialog := false;
      gameOverNo := false;
      body[0] := Point(InitialX, InitialY);
      body[1] := Point(InitialX - 1, InitialY);
      body[2] := Point(InitialX - 2, InitialY);
      period := BasePeriod;
    }

    /** `snake_game_restart`: a fresh snake, score 0, the base period and new food. */
    method Restart(attempts: nat) returns (placed: bool)
      requires Valid()
      modifies this, body
      ensures Valid() && Fresh() && screen == old(screen) && initialized == old(initialized)
      ensures !showExitDialog
      ensures placed ==> InGrid(food) && !OnBody(body[..], length, food)
    {
      if showGameOverDialog {
        paused := false;
        showGameOverDialog := false;
      }
      showExitDialog := false;
      ResetSnake();
      placed := GenerateFood(attempts);
    }

    /** `snake_game_show`: a no-op while the game is on screen; otherwise a fresh game seeded from `tick`. */
    method Show(tick: uint32, attempts: nat) returns (placed: bool)
      requires Valid()
      modifies this, body
      ensures Valid()
      ensures old(screen) ==> unchanged(this) && unchanged(body) && !placed
      ensures !old(screen) ==>
        && screen && initialized && Fresh() && !showExitDialog && !exitYes
        && (placed ==> InGrid(food) && !OnBody(body[..], length, food))
        && (Seed(tick) == 0 ==> lfsr == 0 && (attempts > 0 ==> food == Point(0, 0)))
    {
      if screen {
        return false;
      }
      lfsr := Seed(tick);
      initialized := false;
      showExitDialog, exitYes := false, false;
      ResetSnake();
      screen := true;
      placed := GenerateFood(attempts);
      initialized := true;
    }

    /**
     * `snake_game_key_input` for key code `code`. With the exit dialog up,
     * left/right toggles the choice, enter leaves the game ("Yes") or
     * closes the dialog, escape closes it. With the game-over dialog up,
     * left/right toggles, enter restarts ("Yes") or leaves. Otherwise,
     * while the game runs, a direction key becomes the next direction
     * unless it reverses the current one, and escape opens the exit
     * dialog.
     */
    method KeyInput(code: int, attempts: nat)
      requires Valid()
      modifies this, body
      ensures Valid()
      ensures !old(screen) ==> unchanged(this) && unchanged(body)
      ensures old(screen) && old(showExitDialog) ==>
        match KeyOf(code)
        case Left | Right => showExitDialog && exitYes == !old(exitYes) && screen
        case Enter => if old(exitYes) then !screen else screen && !showExitDialog && !paused
        case Esc => screen && !showExitDialog && !paused
        case _ => unchanged(this)
      ensures old(screen) && old(showGameOverDialog) ==>
        match KeyOf(code)
        case Left | Right => showGameOverDialog && gameOverNo == !old(gameOverNo) && screen
        case Enter => if old(gameOverNo) then !screen else screen && Fresh() && !gameOver
        case _ => unchanged(this)
      ensures old(screen) && !old(paused) ==>
        && direction == old(direction)
        && (KeyOf(code) in {Up, Down, Left, Right} ==>
              nextDirection == (if Turn(KeyOf(code)) == Reverse(old(direction)) then old(nextDirection) else Turn(KeyOf(code))))
        && (KeyOf(code) == Esc ==> showExitDialog && paused && !exitYes)
      ensures unchanged(body) || (old(screen) && old(showGameOverDialog) && KeyOf(code) == Enter && !old(gameOverNo))
    {
      if !screen {
        return;
      }
      var key := KeyOf(code);
      if showExitDialog {
        if key == Left || key == Right {
          exitYes := !exitYes;
        } else if key == Enter {
          if exitYes {
            screen := false;
          } else {
            paused := false;
            showExitDialog := false;
          }
        } else if key == Esc {
          paused := false;
          showExitDialog := false;
        }
        return;
      }
      if showGameOverDialog {
        if key == Left || key == Right {
          gameOverNo := !gameOverNo;
        } else if key == Enter {
          if !gameOverNo {
            var _ := Restart(attempts);
          } else {
            screen := false;
          }
        }
        return;
      }
      if !gameOver {
        if key in {Up, Down, Left, Right} {
          var d := Turn(key);
          if direction != Reverse(d) {
            nextDirection := d;
          }
        } else if key == Esc {
          paused := true;
          showExitDialog := true;
          exitYes := false;
        }
      }
    }
  }

  /** The direction a direction key asks for. */
  function Turn(k: Key): (d: Dir)
    requires k in {Up, Down, Left, Right}
  {
    match k
    case Up => DirUp
    case Down => DirDown
    case Left => DirLeft
    case Right => DirRight
  }
}
