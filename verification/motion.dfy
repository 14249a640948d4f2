/**
 * `Soldier.move`: horizontal intent, a buffered jump, gravity, the
 * axis-separated sweep against the obstacle tiles, the hazards, and for the
 * player the screen clamp and the scroll hand-off.
 */
module Motion {
  import opened Prelude
  import opened Geometry
  import opened Entities
  import opened Soldiers

  const JUMP_VELOCITY: real := -11.0

  /** The part of a level the motion rules consult. */
  datatype Level = Level(obstacles: seq<Rect>, water: seq<Rect>, exits: seq<Rect>, levelLength: int)

  /**
   * A vertical displacement: the fractional velocity until a tile snaps it
   * to a whole number of pixels.
   */
  datatype Disp = Float(v: real) | Pixels(n: int)

  /**
   * The pixel offset a displacement moves the top of `r` by. A fractional
   * displacement is added to the integer top first and the sum is converted
   * when it is stored (or tested) as a rectangle coordinate; a snapped one
   * is a whole number of pixels and is added exactly.
   */
  function Offset(d: Disp, r: Rect, px: Rounding): int {
    match d
    case Float(v) => px(r.y as real + v) - r.y
    case Pixels(n) => n
  }

  /** The variables the obstacle loop reads and writes. */
  datatype Sweep = Sweep(dx: int, dy: Disp, velY: real, inAir: bool, direction: int, moveCounter: int)

  /** The box displaced horizontally by `dx` overlaps tile `t`. */
  predicate HitsX(r: Rect, dx: int, t: Rect) { Overlaps(t, r.Shift(dx, 0)) }

  /** The box displaced vertically by `dy` overlaps tile `t`. */
  predicate HitsY(r: Rect, dy: int, t: Rect) { Overlaps(t, r.Shift(0, dy)) }

  predicate AnyHitX(r: Rect, dx: int, tiles: seq<Rect>) {
    exists i :: 0 <= i < |tiles| && HitsX(r, dx, tiles[i])
  }

  predicate AnyHitY(r: Rect, dy: int, tiles: seq<Rect>) {
    exists i :: 0 <= i < |tiles| && HitsY(r, dy, tiles[i])
  }

  /** The x test against one tile: stop, and an enemy turns around. */
  function TileX(kind: Kind, r: Rect, s: Sweep, t: Rect): Sweep {
    if HitsX(r, s.dx, t) then
      if kind == Enemy then s.(dx := 0, direction := -s.direction, moveCounter := 0) else s.(dx := 0)
    else s
  }

  /** The y test against one tile: snap to its bottom when rising, to its top when falling. */
  function TileY(r: Rect, px: Rounding, s: Sweep, t: Rect): Sweep {
    if HitsY(r, Offset(s.dy, r, px), t) then
      if s.velY < 0.0 then s.(velY := 0.0, dy := Pixels(t.Bottom() - r.Top()))
      else s.(velY := 0.0, inAir := false, dy := Pixels(t.Top() - r.Bottom()))
    else s
  }

  /** One pass of the obstacle loop: the x test, then the y test, on each tile in order. */
  function SweepAll(kind: Kind, r: Rect, px: Rounding, s: Sweep, tiles: seq<Rect>): Sweep
    decreases |tiles|
  {
    if |tiles| == 0 then s
    else SweepAll(kind, r, px, TileY(r, px, TileX(kind, r, s, tiles[0]), tiles[0]), tiles[1..])
  }

  /**
   * The x pass: the horizontal step survives exactly when no obstacle
   * overlaps the box displaced by it; the vertical variables are untouched.
   */
  lemma SweepX(kind: Kind, r: Rect, px: Rounding, s: Sweep, tiles: seq<Rect>)
    ensures var f := SweepAll(kind, r, px, s, tiles);
            f.dx == if AnyHitX(r, s.dx, tiles) then 0 else s.dx
    ensures var f := SweepAll(kind, r, px, s, tiles);
            kind == Player ==> f.direction == s.direction && f.moveCounter == s.moveCounter
    ensures var f := SweepAll(kind, r, px, s, tiles);
            kind == Enemy ==> f.moveCounter == (if AnyHitX(r, s.dx, tiles) then 0 else s.moveCounter)
    ensures var f := SweepAll(kind, r, px, s, tiles);
            f.direction == s.direction || f.direction == -s.direction
    ensures var f := SweepAll(kind, r, px, s, tiles);
            kind == Enemy && !AnyHitX(r, 0, tiles) ==>
              f.direction == if AnyHitX(r, s.dx, tiles) then -s.direction else s.direction
  {
    SweepXStep(kind, r, px, s, tiles);
    SweepXFacing(kind, r, px, s, tiles);
    if kind == Enemy && !AnyHitX(r, 0, tiles) {
      SweepXTurn(r, px, s, tiles);
    }
  }

  /** The step and the enemy's counter are cut to 0 exactly when some tile is in the way. */
  lemma {:induction false} SweepXStep(kind: Kind, r: Rect, px: Rounding, s: Sweep, tiles: seq<Rect>)
    ensures var f := SweepAll(kind, r, px, s, tiles);
            f.dx == if AnyHitX(r, s.dx, tiles) then 0 else s.dx
    ensures var f := SweepAll(kind, r, px, s, tiles);
            kind == Enemy ==> f.moveCounter == (if AnyHitX(r, s.dx, tiles) then 0 else s.moveCounter)
    decreases |tiles|
  {
    if |tiles| > 0 {
      var s' := TileY(r, px, TileX(kind, r, s, tiles[0]), tiles[0]);
      SweepXStep(kind, r, px, s', tiles[1..]);
      if HitsX(r, s.dx, tiles[0]) {
        assert AnyHitX(r, s.dx, tiles);
        if AnyHitX(r, 0, tiles[1..]) {
          var j :| 0 <= j < |tiles[1..]| && HitsX(r, 0, tiles[1..][j]);
        }
      } else {
        if AnyHitX(r, s.dx, tiles[1..]) {
          var j :| 0 <= j < |tiles[1..]| && HitsX(r, s.dx, tiles[1..][j]);
          assert HitsX(r, s.dx, tiles[j + 1]);
        }
        if AnyHitX(r, s.dx, tiles) {
          var i :| 0 <= i < |tiles| && HitsX(r, s.dx, tiles[i]);
          assert i > 0 && tiles[1..][i - 1] == tiles[i];
        }
      }
    }
  }

  /** The player never turns in the loop; an enemy can only turn round. */
  lemma {:induction false} SweepXFacing(kind: Kind, r: Rect, px: Rounding, s: Sweep, tiles: seq<Rect>)
    ensures var f := SweepAll(kind, r, px, s, tiles);
            kind == Player ==> f.direction == s.direction && f.moveCounter == s.moveCounter
    ensures var f := SweepAll(kind, r, px, s, tiles);
            f.direction == s.direction || f.direction == -s.direction
    decreases |tiles|
  {
    if |tiles| > 0 {
      var s' := TileY(r, px, TileX(kind, r, s, tiles[0]), tiles[0]);
      SweepXFacing(kind, r, px, s', tiles[1..]);
    }
  }

  /**
   * An enemy that does not already overlap a tile turns round exactly when
   * some tile is in its way: the first such tile cancels the step, and with
   * the step cancelled no later tile is in the way.
   */
  lemma {:induction false} SweepXTurn(r: Rect, px: Rounding, s: Sweep, tiles: seq<Rect>)
    requires !AnyHitX(r, 0, tiles)
    ensures var f := SweepAll(Enemy, r, px, s, tiles);
            f.direction == if AnyHitX(r, s.dx, tiles) then -s.direction else s.direction
    decreases |tiles|
  {
    if |tiles| > 0 {
      var s' := TileY(r, px, TileX(Enemy, r, s, tiles[0]), tiles[0]);
      AnyHitXSplit(r, 0, tiles);
      AnyHitXSplit(r, s.dx, tiles);
      SweepXTurn(r, px, s', tiles[1..]);
    }
  }

  lemma AnyHitXSplit(r: Rect, dx: int, tiles: seq<Rect>)
    requires |tiles| > 0
    ensures AnyHitX(r, dx, tiles) <==> HitsX(r, dx, tiles[0]) || AnyHitX(r, dx, tiles[1..])
  {
    if AnyHitX(r, dx, tiles[1..]) {
      var j :| 0 <= j < |tiles[1..]| && HitsX(r, dx, tiles[1..][j]);
      assert HitsX(r, dx, tiles[j + 1]);
    }
    if AnyHitX(r, dx, tiles) && !HitsX(r, dx, tiles[0]) {
      var k :| 0 <= k < |tiles| && HitsX(r, dx, tiles[k]);
      assert k > 0 && tiles[1..][k - 1] == tiles[k];
    }
  }

  /** The vertical variables of the loop: a miss everywhere leaves them as they were. */
  predicate SameY(a: Sweep, b: Sweep) {
    a.dy == b.dy && a.velY == b.velY && a.inAir == b.inAir
  }

  /**
   * Snapping to `n` pixels put the bottom of `r` on the top of some tile `i`,
   * and no tile after `i` overlaps the snapped box.
   */
  predicate LandedOn(r: Rect, n: int, tiles: seq<Rect>) {
    exists i :: 0 <= i < |tiles| && n == tiles[i].Top() - r.Bottom()
      && forall j :: i < j < |tiles| ==> !HitsY(r, n, tiles[j])
  }

  lemma LandedOnLater(r: Rect, n: int, tiles: seq<Rect>)
    requires |tiles| > 0 && LandedOn(r, n, tiles[1..])
    ensures LandedOn(r, n, tiles)
  {
    var i' :| 0 <= i' < |tiles[1..]| && n == tiles[1..][i'].Top() - r.Bottom()
      && forall j :: i' < j < |tiles[1..]| ==> !HitsY(r, n, tiles[1..][j]);
    forall j | i' + 1 < j < |tiles|
      ensures !HitsY(r, n, tiles[j])
    {
      assert tiles[1..][j - 1] == tiles[j];
    }
    assert n == tiles[i' + 1].Top() - r.Bottom();
  }

  lemma LandedOnFirst(r: Rect, n: int, tiles: seq<Rect>)
    requires |tiles| > 0 && n == tiles[0].Top() - r.Bottom() && !AnyHitY(r, n, tiles[1..])
    ensures LandedOn(r, n, tiles)
  {
    forall j | 0 < j < |tiles|
      ensures !HitsY(r, n, tiles[j])
    {
      assert tiles[1..][j - 1] == tiles[j];
    }
  }

  lemma AnyHitYSplit(r: Rect, n: int, tiles: seq<Rect>)
    requires |tiles| > 0
    ensures AnyHitY(r, n, tiles) <==> HitsY(r, n, tiles[0]) || AnyHitY(r, n, tiles[1..])
  {
    if AnyHitY(r, n, tiles[1..]) {
      var j :| 0 <= j < |tiles[1..]| && HitsY(r, n, tiles[1..][j]);
      assert HitsY(r, n, tiles[j + 1]);
    }
    if AnyHitY(r, n, tiles) && !HitsY(r, n, tiles[0]) {
      var k :| 0 <= k < |tiles| && HitsY(r, n, tiles[k]);
      assert k > 0 && tiles[1..][k - 1] == tiles[k];
    }
  }

  /**
   * The y pass from a falling (or resting) start: if no obstacle overlaps
   * the vertically displaced box nothing vertical changes; otherwise the
   * velocity is zeroed, the soldier is grounded, and the displacement puts
   * its bottom on the top of the last tile hit, which no later tile
   * overlaps once snapped.
   */
  lemma {:induction false} SweepYFalling(kind: Kind, r: Rect, px: Rounding, s: Sweep, tiles: seq<Rect>)
    requires s.velY >= 0.0
    ensures var f := SweepAll(kind, r, px, s, tiles);
            !AnyHitY(r, Offset(s.dy, r, px), tiles) ==> SameY(f, s)
    ensures var f := SweepAll(kind, r, px, s, tiles);
            AnyHitY(r, Offset(s.dy, r, px), tiles) ==>
              f.velY == 0.0 && !f.inAir && f.dy.Pixels? && LandedOn(r, f.dy.n, tiles)
    decreases |tiles|
  {
    if |tiles| > 0 {
      var s1 := TileX(kind, r, s, tiles[0]);
      assert SameY(s1, s);
      var s' := TileY(r, px, s1, tiles[0]);
      SweepYFalling(kind, r, px, s', tiles[1..]);
      AnyHitYSplit(r, Offset(s.dy, r, px), tiles);
      var f := SweepAll(kind, r, px, s, tiles);
      if HitsY(r, Offset(s.dy, r, px), tiles[0]) {
        var n := tiles[0].Top() - r.Bottom();
        assert s'.dy == Pixels(n) && s'.velY == 0.0 && !s'.inAir;
        if AnyHitY(r, n, tiles[1..]) {
          LandedOnLater(r, f.dy.n, tiles);
        } else {
          LandedOnFirst(r, n, tiles);
        }
      } else {
        assert SameY(s', s);
        if AnyHitY(r, Offset(s.dy, r, px), tiles[1..]) {
          LandedOnLater(r, f.dy.n, tiles);
        }
      }
    }
  }

  /**
   * The y pass from any start: a vertical overlap anywhere zeroes the
   * velocity and snaps the displacement to whole pixels; no overlap leaves
   * every vertical variable as it was.
   */
  lemma {:induction false} SweepY(kind: Kind, r: Rect, px: Rounding, s: Sweep, tiles: seq<Rect>)
    ensures var f := SweepAll(kind, r, px, s, tiles);
            !AnyHitY(r, Offset(s.dy, r, px), tiles) ==> SameY(f, s)
    ensures var f := SweepAll(kind, r, px, s, tiles);
            AnyHitY(r, Offset(s.dy, r, px), tiles) ==> f.velY == 0.0 && f.dy.Pixels?
    decreases |tiles|
  {
    if |tiles| > 0 {
      var s1 := TileX(kind, r, s, tiles[0]);
      assert SameY(s1, s);
      var s' := TileY(r, px, s1, tiles[0]);
      SweepY(kind, r, px, s', tiles[1..]);
      AnyHitYSplit(r, Offset(s.dy, r, px), tiles);
      if !HitsY(r, Offset(s.dy, r, px), tiles[0]) {
        assert SameY(s', s);
      }
    }
  }

  /** The loop variables before the obstacle loop: intent, buffered jump and gravity applied. */
  function StartSweep(s: Soldier, movingLeft: bool, movingRight: bool): Sweep {
    var dx := if movingRight then s.speed as int else if movingLeft then -(s.speed as int) else 0;
    var direction := if movingRight then 1 else if movingLeft then -1 else s.direction;
    var launch := s.jump && !s.inAir;
    var velY := (if launch then JUMP_VELOCITY else s.velY) + GRAVITY;
    Sweep(dx, Float(velY), velY, s.inAir || launch, direction, s.moveCounter)
  }

  /** The loop variables after the obstacle loop. */
  function Swept(s: Soldier, lvl: Level, movingLeft: bool, movingRight: bool, px: Rounding): (sw: Sweep)
    ensures var st := StartSweep(s, movingLeft, movingRight);
            sw.direction == st.direction || sw.direction == -st.direction
    ensures s.kind == Player ==>
              sw.direction == StartSweep(s, movingLeft, movingRight).direction && sw.moveCounter == s.moveCounter
    ensures s.kind == Enemy ==> sw.moveCounter == s.moveCounter || sw.moveCounter == 0
  {
    SweepX(s.kind, s.rect, px, StartSweep(s, movingLeft, movingRight), lvl.obstacles);
    SweepAll(s.kind, s.rect, px, StartSweep(s, movingLeft, movingRight), lvl.obstacles)
  }

  /** The health after the hazard checks, made on the box before it moves. */
  function Hazard(s: Soldier, lvl: Level): int {
    if AnyOverlap(s.rect, lvl.water) || s.rect.Bottom() > SCREEN_HEIGHT then 0 else s.health
  }

  /** The player scrolls the world instead of moving when near an edge and the level extends that way. */
  predicate Scrolls(s: Soldier, lvl: Level, bgScroll: int, moved: Rect, dx: int) {
    s.kind == Player &&
      ((moved.Right() > SCREEN_WIDTH - SCROLL_THRESH && bgScroll < lvl.levelLength * TILE_SIZE - SCREEN_WIDTH)
       || (moved.Left() < SCROLL_THRESH && bgScroll > Abs(dx)))
  }

  /** The horizontal step after the obstacle loop and, for the player, the screen-edge check. */
  function HorizontalStep(s: Soldier, lvl: Level, movingLeft: bool, movingRight: bool, px: Rounding): int {
    var dx := Swept(s, lvl, movingLeft, movingRight, px).dx;
    if s.kind == Player && (s.rect.Left() + dx < 0 || s.rect.Right() + dx > SCREEN_WIDTH) then 0 else dx
  }

  /** The moved soldier, the horizontal scroll it hands to the world, and whether it touched an exit. */
  datatype MoveOutcome = MoveOutcome(soldier: Soldier, screenScroll: int, levelComplete: bool)

  /** `move`, with `bgScroll` the background offset and the obstacles, water and exits of the level. */
  function Move(s: Soldier, lvl: Level, bgScroll: int, movingLeft: bool, movingRight: bool, px: Rounding): (r: MoveOutcome)
    ensures r.soldier == s.(rect := r.soldier.rect, velY := r.soldier.velY, jump := r.soldier.jump,
                            inAir := r.soldier.inAir, flip := r.soldier.flip, direction := r.soldier.direction,
                            moveCounter := r.soldier.moveCounter, health := r.soldier.health)
    ensures r.soldier.rect.w == s.rect.w && r.soldier.rect.h == s.rect.h
    // the direction flags: right wins over left
    ensures s.kind == Player ==>
              r.soldier.direction == (if movingRight then 1 else if movingLeft then -1 else s.direction)
    ensures r.soldier.flip == (if movingRight then false else if movingLeft then true else s.flip)
    // a jump request waits in the buffer while airborne
    ensures r.soldier.jump == (s.jump && s.inAir)
    // hazards are checked on the box before it moves
    ensures r.soldier.health ==
              (if AnyOverlap(s.rect, lvl.water) || s.rect.Bottom() > SCREEN_HEIGHT then 0 else s.health)
    ensures r.levelComplete <==> AnyOverlap(s.rect, lvl.exits)
    // the step is applied either to the soldier or, negated, to the world
    ensures var step := HorizontalStep(s, lvl, movingLeft, movingRight, px);
            || (r.screenScroll == 0 && r.soldier.rect.x == s.rect.x + step)
            || (r.screenScroll == -step && r.soldier.rect.x == s.rect.x)
    ensures s.kind == Enemy ==> r.screenScroll == 0
    ensures s.kind == Enemy ==> r.soldier.moveCounter == s.moveCounter || r.soldier.moveCounter == 0
    ensures s.kind == Player ==> r.soldier.moveCounter == s.moveCounter
    ensures Inv(s) ==> Inv(r.soldier)
  {
    var sw := Swept(s, lvl, movingLeft, movingRight, px);
    var health := Hazard(s, lvl);
    var complete := AnyOverlap(s.rect, lvl.exits);
    var dx := HorizontalStep(s, lvl, movingLeft, movingRight, px);
    var moved := s.rect.Shift(dx, Offset(sw.dy, s.rect, px));
    var scrolls := Scrolls(s, lvl, bgScroll, moved, dx);
    var flip := if movingRight then false else if movingLeft then true else s.flip;
    var jump := s.jump && s.inAir;
    MoveOutcome(
      s.(rect := if scrolls then moved.Shift(-dx, 0) else moved,
         velY := sw.velY, jump := jump, inAir := sw.inAir, flip := flip,
         direction := sw.direction, moveCounter := sw.moveCounter, health := health),
      if scrolls then -dx else 0,
      complete)
  }

  /** A player that starts inside the screen is still inside it after moving. */
  lemma MoveKeepsPlayerOnScreen(s: Soldier, lvl: Level, bgScroll: int, movingLeft: bool, movingRight: bool, px: Rounding)
    requires s.kind == Player
    requires 0 <= s.rect.Left() && s.rect.Right() <= SCREEN_WIDTH
    ensures var r := Move(s, lvl, bgScroll, movingLeft, movingRight, px).soldier;
            0 <= r.rect.Left() && r.rect.Right() <= SCREEN_WIDTH
  {
  }

  /**
   * The scroll: the player scrolls instead of stepping exactly when its
   * stepped box nears an edge the level extends past.
   */
  lemma MoveScrolls(s: Soldier, lvl: Level, bgScroll: int, movingLeft: bool, movingRight: bool, px: Rounding)
    ensures var r := Move(s, lvl, bgScroll, movingLeft, movingRight, px);
            var step := HorizontalStep(s, lvl, movingLeft, movingRight, px);
            r.screenScroll ==
              if Scrolls(s, lvl, bgScroll, s.rect.Shift(step, r.soldier.rect.y - s.rect.y), step) then -step else 0
  {
  }

  /**
   * The x pass of `move`: an obstacle overlapping the horizontally displaced
   * box cancels the step (so the soldier neither moves nor scrolls the world
   * sideways), and an enemy that was stopped restarts its patrol count.
   */
  lemma MoveBlockedByWall(s: Soldier, lvl: Level, bgScroll: int, movingLeft: bool, movingRight: bool, px: Rounding)
    requires AnyHitX(s.rect, StartSweep(s, movingLeft, movingRight).dx, lvl.obstacles)
    ensures HorizontalStep(s, lvl, movingLeft, movingRight, px) == 0
    ensures var r := Move(s, lvl, bgScroll, movingLeft, movingRight, px);
            r.soldier.rect.x == s.rect.x && r.screenScroll == 0
    ensures s.kind == Enemy ==> Move(s, lvl, bgScroll, movingLeft, movingRight, px).soldier.moveCounter == 0
    ensures s.kind == Enemy && !AnyHitX(s.rect, 0, lvl.obstacles) ==>
              Move(s, lvl, bgScroll, movingLeft, movingRight, px).soldier.direction
                == -StartSweep(s, movingLeft, movingRight).direction
  {
    SweepX(s.kind, s.rect, px, StartSweep(s, movingLeft, movingRight), lvl.obstacles);
  }

  /**
   * The enemy's wall turn: an enemy clear of every obstacle faces the way it
   * was asked to walk, turned round exactly when an obstacle is in its way.
   */
  lemma MoveTurnsEnemy(s: Soldier, lvl: Level, bgScroll: int, movingLeft: bool, movingRight: bool, px: Rounding)
    requires s.kind == Enemy && !AnyHitX(s.rect, 0, lvl.obstacles)
    ensures var st := StartSweep(s, movingLeft, movingRight);
            Move(s, lvl, bgScroll, movingLeft, movingRight, px).soldier.direction
              == if AnyHitX(s.rect, st.dx, lvl.obstacles) then -st.direction else st.direction
  {
    SweepX(s.kind, s.rect, px, StartSweep(s, movingLeft, movingRight), lvl.obstacles);
  }

  /**
   * Without a wall in the way the intended step is kept, except that the
   * player never steps past a screen edge.
   */
  lemma MoveUnblocked(s: Soldier, lvl: Level, movingLeft: bool, movingRight: bool, px: Rounding)
    requires !AnyHitX(s.rect, StartSweep(s, movingLeft, movingRight).dx, lvl.obstacles)
    ensures var dx := StartSweep(s, movingLeft, movingRight).dx;
            HorizontalStep(s, lvl, movingLeft, movingRight, px) ==
              if s.kind == Player && (s.rect.Left() + dx < 0 || s.rect.Right() + dx > SCREEN_WIDTH) then 0 else dx
  {
    SweepX(s.kind, s.rect, px, StartSweep(s, movingLeft, movingRight), lvl.obstacles);
  }

  /** A box clear of every obstacle is still clear of them after its horizontal step. */
  lemma MoveLeavesNoSideOverlap(s: Soldier, lvl: Level, movingLeft: bool, movingRight: bool, px: Rounding)
    requires !AnyHitX(s.rect, 0, lvl.obstacles)
    ensures !AnyHitX(s.rect, HorizontalStep(s, lvl, movingLeft, movingRight, px), lvl.obstacles)
  {
    SweepX(s.kind, s.rect, px, StartSweep(s, movingLeft, movingRight), lvl.obstacles);
  }

  /**
   * Gravity has no cap: with no obstacle below or above, the vertical velocity
   * grows by GRAVITY every move (after a launch, from JUMP_VELOCITY) and the
   * soldier falls by that velocity.
   */
  lemma MoveFreeFall(s: Soldier, lvl: Level, bgScroll: int, movingLeft: bool, movingRight: bool, px: Rounding)
    requires !AnyHitY(s.rect, Offset(StartSweep(s, movingLeft, movingRight).dy, s.rect, px), lvl.obstacles)
    ensures var r := Move(s, lvl, bgScroll, movingLeft, movingRight, px).soldier;
            && r.velY == (if s.jump && !s.inAir then JUMP_VELOCITY else s.velY) + GRAVITY
            && r.rect.y == px(s.rect.y as real + r.velY)
            && r.inAir == (s.inAir || s.jump)
  {
    SweepY(s.kind, s.rect, px, StartSweep(s, movingLeft, movingRight), lvl.obstacles);
  }

  /**
   * Landing: a soldier moving down onto an obstacle stops falling, is no
   * longer airborne, and ends with its bottom exactly on the top of the
   * last obstacle it hit.
   */
  lemma MoveLands(s: Soldier, lvl: Level, bgScroll: int, movingLeft: bool, movingRight: bool, px: Rounding)
    requires StartSweep(s, movingLeft, movingRight).velY >= 0.0
    requires AnyHitY(s.rect, Offset(StartSweep(s, movingLeft, movingRight).dy, s.rect, px), lvl.obstacles)
    ensures var r := Move(s, lvl, bgScroll, movingLeft, movingRight, px).soldier;
            && r.velY == 0.0 && !r.inAir
            && exists i :: 0 <= i < |lvl.obstacles| && r.rect.Bottom() == lvl.obstacles[i].Top()
  {
    var st := StartSweep(s, movingLeft, movingRight);
    SweepYFalling(s.kind, s.rect, px, st, lvl.obstacles);
    var f := SweepAll(s.kind, s.rect, px, st, lvl.obstacles);
    var i :| 0 <= i < |lvl.obstacles| && f.dy.n == lvl.obstacles[i].Top() - s.rect.Bottom()
      && forall j :: i < j < |lvl.obstacles| ==> !HitsY(s.rect, f.dy.n, lvl.obstacles[j]);
    var r := Move(s, lvl, bgScroll, movingLeft, movingRight, px).soldier;
    assert r.rect.y == s.rect.y + f.dy.n;
  }
}
