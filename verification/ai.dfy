/**
 * `Soldier.ai`: one decision step of an enemy. The 1-in-200 idle draw is an
 * input (`idleTrial` is the draw coming up 1).
 */
module Ai {
  import opened Prelude
  import opened Geometry
  import opened Entities
  import opened Soldiers
  import opened Motion

  const IDLE_FRAMES: int := 50

  /** Patrol bookkeeping: the distance walked and the facing direction. */
  datatype Patrol = Patrol(counter: int, direction: int)

  /** One patrol step: count it, and turn round once more than a tile has been walked. */
  function PatrolTick(p: Patrol): Patrol {
    var c := p.counter + 1;
    if c > TILE_SIZE then Patrol(-c, -p.direction) else Patrol(c, p.direction)
  }

  /** `n` patrol steps with no wall in the way. */
  function PatrolSteps(p: Patrol, n: nat): Patrol
    decreases n
  {
    if n == 0 then p else PatrolSteps(PatrolTick(p), n - 1)
  }

  /** Below the turning point the counter simply counts the steps. */
  lemma {:induction false} PatrolCounts(p: Patrol, n: nat)
    requires p.counter + n <= TILE_SIZE
    ensures PatrolSteps(p, n) == Patrol(p.counter + n, p.direction)
    decreases n
  {
    if n > 0 {
      PatrolCounts(PatrolTick(p), n - 1);
    }
  }

  /**
   * The patrol bounce: a fresh enemy turns after TILE_SIZE + 1 steps, and
   * from then on after every 2 * (TILE_SIZE + 1) steps.
   */
  lemma PatrolBounces(d: int)
    ensures PatrolSteps(Patrol(0, d), TILE_SIZE + 1) == Patrol(-(TILE_SIZE + 1), -d)
    ensures PatrolSteps(Patrol(-(TILE_SIZE + 1), d), 2 * (TILE_SIZE + 1)) == Patrol(-(TILE_SIZE + 1), -d)
  {
    PatrolCounts(Patrol(0, d), TILE_SIZE);
    PatrolSplit(Patrol(0, d), TILE_SIZE, 1);
    PatrolCounts(Patrol(-(TILE_SIZE + 1), d), 2 * TILE_SIZE + 1);
    PatrolSplit(Patrol(-(TILE_SIZE + 1), d), 2 * TILE_SIZE + 1, 1);
  }

  lemma {:induction false} PatrolSplit(p: Patrol, m: nat, n: nat)
    ensures PatrolSteps(p, m + n) == PatrolSteps(PatrolSteps(p, m), n)
    decreases m
  {
    if m > 0 {
      PatrolSplit(PatrolTick(p), m - 1, n);
    }
  }

  /** The idle countdown: one frame less, and idling ends when it runs out. */
  function IdleTick(counter: int): (bool, int) {
    (counter - 1 > 0, counter - 1)
  }

  /** `n` frames of idling, stopping once idling has ended. */
  function IdleFrames(counter: int, n: nat): (bool, int)
    decreases n
  {
    if n == 0 then (counter > 0, counter)
    else if counter - 1 <= 0 then IdleTick(counter)
    else IdleFrames(counter - 1, n - 1)
  }

  /** An idle pause entered with counter `c` lasts exactly `c` idle frames. */
  lemma {:induction false} IdleLasts(c: int, n: nat)
    requires 0 < c <= IDLE_FRAMES && n > 0
    ensures IdleFrames(c, n).0 <==> n < c
    ensures n <= c ==> IdleFrames(c, n).1 == c - n
    decreases n
  {
    if c - 1 > 0 && n > 1 {
      IdleLasts(c - 1, n - 1);
    }
  }

  /** What `ai` keeps true of an enemy: the patrol count stays within a tile each way, the idle counter within its length. */
  predicate AiInv(e: Soldier) {
    && -(TILE_SIZE + 1) <= e.moveCounter <= TILE_SIZE
    && 0 <= e.idlingCounter <= IDLE_FRAMES
    && (e.idling <==> e.idlingCounter > 0)
  }

  /** Moves a sprite with the world: the scroll of the frame. */
  function Scrolled(e: Soldier, screenScroll: int): (r: Soldier)
    ensures r == e.(rect := r.rect) && r.rect == e.rect.Shift(screenScroll, 0)
    ensures Inv(e) ==> Inv(r)
    ensures AiInv(e) ==> AiInv(r)
  {
    e.(rect := e.rect.Shift(screenScroll, 0))
  }

  /** The first half of the walk branch: one step towards the facing side, on the Run action. */
  function Walked(e: Soldier, lvl: Level, now: int, px: Rounding): (m: Soldier)
    requires e.kind == Enemy
    ensures var w := Move(e, lvl, 0, e.direction != 1, e.direction == 1, px).soldier;
            m == w.(action := Run, frameIndex := m.frameIndex, updateTime := m.updateTime)
    ensures Inv(e) && e.alive ==> Inv(m)
  {
    var right := e.direction == 1;
    var w := Move(e, lvl, 0, !right, right, px).soldier;
    UpdateAction(w, Run, now)
  }

  /** Where the vision box is centred in x: half its width `visionW` ahead of the centre of `r`, on the side `direction`. */
  function AimX(r: Rect, visionW: int, direction: int, px: Rounding): int {
    px(r.CenterX() as real + (visionW as real / 2.0) * (direction as real))
  }

  /** The second half of the walk branch: count the step, maybe turn, and re-aim the vision box. */
  function Turned(m: Soldier, px: Rounding): (r: Soldier)
    ensures Patrol(r.moveCounter, r.direction) == PatrolTick(Patrol(m.moveCounter, m.direction))
    ensures r == m.(moveCounter := r.moveCounter, direction := r.direction, vision := r.vision)
    // the vision box keeps its size and is centred half its width ahead, on the way faced before the turn
    ensures r.vision.w == m.vision.w && r.vision.h == m.vision.h
    ensures r.vision.CenterX() == AimX(m.rect, m.vision.w, m.direction, px)
    ensures r.vision.CenterY() == m.rect.CenterY()
    ensures Inv(m) ==> Inv(r)
    ensures -(TILE_SIZE + 1) <= m.moveCounter <= TILE_SIZE ==> -(TILE_SIZE + 1) <= r.moveCounter <= TILE_SIZE
  {
    var cx := AimX(m.rect, m.vision.w, m.direction, px);
    var p := PatrolTick(Patrol(m.moveCounter, m.direction));
    m.(moveCounter := p.counter, direction := p.direction, vision := m.vision.CenteredAt(cx, m.rect.CenterY()))
  }

  /** The walk branch of `ai`: move one step, run, count it, re-aim the vision box, maybe turn. */
  function Patrolling(e: Soldier, lvl: Level, now: int, px: Rounding): (r: Soldier)
    requires e.kind == Enemy
    ensures r.action == Run && r.ammo == e.ammo && r.idling == e.idling && r.idlingCounter == e.idlingCounter
    ensures var m := Move(e, lvl, 0, e.direction != 1, e.direction == 1, px).soldier;
            Patrol(r.moveCounter, r.direction) == PatrolTick(Patrol(m.moveCounter, m.direction))
    ensures var m := Move(e, lvl, 0, e.direction != 1, e.direction == 1, px).soldier;
            && r.rect == m.rect && r.health == m.health && r.velY == m.velY && r.inAir == m.inAir
            && r.vision.w == e.vision.w && r.vision.h == e.vision.h
            && r.vision.CenterX() == AimX(m.rect, e.vision.w, m.direction, px)
            && r.vision.CenterY() == m.rect.CenterY()
    ensures r.kind == e.kind && r.alive == e.alive
    ensures Inv(e) && e.alive ==> Inv(r)
    ensures AiInv(e) ==> AiInv(r)
  {
    Turned(Walked(e, lvl, now, px), px)
  }

  /** The idle draw: a walking enemy whose draw came up starts a pause of IDLE_FRAMES. */
  function MaybeIdle(e: Soldier, idleTrial: bool, now: int): (r: Soldier)
    ensures !e.idling && idleTrial ==> r.idling && r.idlingCounter == IDLE_FRAMES && r.action == Idle
    ensures e.idling || !idleTrial ==> r == e
    ensures r == e.(idling := r.idling, idlingCounter := r.idlingCounter, action := r.action,
                    frameIndex := r.frameIndex, updateTime := r.updateTime)
    ensures Inv(e) && e.alive ==> Inv(r)
    ensures AiInv(e) ==> AiInv(r)
  {
    if !e.idling && idleTrial then UpdateAction(e, Idle, now).(idling := true, idlingCounter := IDLE_FRAMES) else e
  }

  datatype AiOutcome = AiOutcome(enemy: Soldier, bullet: Option<Bullet>)

  /** An enemy that stops to shoot switches to Idle. */
  function Stand(e: Soldier, now: int): (r: Soldier)
    ensures r == e.(action := Idle, frameIndex := r.frameIndex, updateTime := r.updateTime)
    ensures Inv(e) && e.alive ==> Inv(r)
  {
    UpdateAction(e, Idle, now)
  }

  /** The engage branch of `ai`: stand still (Idle) and shoot. */
  function Engage(e: Soldier, now: int, sizes: Sizes, px: Rounding): (r: Shot)
    ensures r.shooter.action == Idle && r.shooter.rect == e.rect
    ensures r.bullet.Some? <==> e.shootCooldown == 0 && e.ammo > 0
    ensures r.shooter.ammo + (if r.bullet.Some? then 1 else 0) == e.ammo
    ensures r.shooter.kind == e.kind && r.shooter.alive == e.alive
    ensures Inv(e) && e.alive ==> Inv(r.shooter)
    ensures AiInv(e) ==> AiInv(r.shooter)
  {
    Soldiers.Shoot(Stand(e, now), sizes, px)
  }

  /** The pause branch of `ai`: count the idle pause down. */
  function Pausing(e: Soldier): (r: Soldier)
    ensures (r.idling, r.idlingCounter) == IdleTick(e.idlingCounter)
    ensures r == e.(idling := r.idling, idlingCounter := r.idlingCounter)
    ensures Inv(e) ==> Inv(r)
    ensures AiInv(e) && e.idling ==> AiInv(r)
  {
    var t := IdleTick(e.idlingCounter);
    e.(idling := t.0, idlingCounter := t.1)
  }

  /**
   * The decision of a live enemy facing a live player, before the scroll:
   * the idle draw, then shoot if the player is in sight, else walk or pause.
   */
  function Decide(e: Soldier, player: Soldier, lvl: Level, idleTrial: bool,
                  now: int, sizes: Sizes, px: Rounding): (r: AiOutcome)
    requires e.kind == Enemy && e.alive
    ensures Overlaps(e.vision, player.rect) ==>
              && r.enemy.action == Idle
              && r.enemy.rect == e.rect
              && (r.bullet.Some? <==> e.shootCooldown == 0 && e.ammo > 0)
    ensures !Overlaps(e.vision, player.rect) ==> r.bullet.None?
    ensures !Overlaps(e.vision, player.rect) && !e.idling && idleTrial ==>
              && r.enemy.idling == (IDLE_FRAMES - 1 > 0) && r.enemy.idlingCounter == IDLE_FRAMES - 1
              && r.enemy.action == Idle && r.enemy.rect == e.rect
    ensures !Overlaps(e.vision, player.rect) && e.idling ==>
              && (r.enemy.idling, r.enemy.idlingCounter) == IdleTick(e.idlingCounter)
              && r.enemy.rect == e.rect
    ensures r.enemy.ammo + (if r.bullet.Some? then 1 else 0) == e.ammo
    ensures r.enemy.kind == e.kind && r.enemy.alive
    ensures Inv(e) && AiInv(e) ==> Inv(r.enemy) && AiInv(r.enemy)
  {
    var e1 := MaybeIdle(e, idleTrial, now);
    if Overlaps(e1.vision, player.rect) then
      var shot := Engage(e1, now, sizes, px);
      AiOutcome(shot.shooter, shot.bullet)
    else if !e1.idling then
      AiOutcome(Patrolling(e1, lvl, now, px), None)
    else
      AiOutcome(Pausing(e1), None)
  }

  /** Out of sight, a walking enemy whose idle draw failed takes exactly the patrol step of the walk branch. */
  lemma DecideWalks(e: Soldier, player: Soldier, lvl: Level, idleTrial: bool, now: int, sizes: Sizes, px: Rounding)
    requires e.kind == Enemy && e.alive && !e.idling && !idleTrial && !Overlaps(e.vision, player.rect)
    ensures Decide(e, player, lvl, idleTrial, now, sizes, px) == AiOutcome(Patrolling(e, lvl, now, px), None)
  {
    assert MaybeIdle(e, idleTrial, now) == e;
  }

  /**
   * `ai`: a live enemy facing a live player may start an idle pause; if its
   * vision box overlaps the player it stops and shoots, otherwise it walks
   * unless idling, in which case the pause counts down. Every enemy then
   * moves with the world.
   */
  function AiStep(e: Soldier, player: Soldier, lvl: Level, idleTrial: bool, screenScroll: int,
                  now: int, sizes: Sizes, px: Rounding): (r: AiOutcome)
    requires e.kind == Enemy
    ensures !(e.alive && player.alive) ==> r == AiOutcome(Scrolled(e, screenScroll), None)
    ensures e.alive && player.alive && Overlaps(e.vision, player.rect) ==>
              && r.enemy.action == Idle
              && r.enemy.rect == e.rect.Shift(screenScroll, 0)
              && (r.bullet.Some? <==> e.shootCooldown == 0 && e.ammo > 0)
    ensures r.enemy.ammo + (if r.bullet.Some? then 1 else 0) == e.ammo
    ensures r.enemy.kind == e.kind && r.enemy.alive == e.alive
    ensures Inv(e) && AiInv(e) ==> Inv(r.enemy) && AiInv(r.enemy)
  {
    if e.alive && player.alive then
      var d := Decide(e, player, lvl, idleTrial, now, sizes, px);
      AiOutcome(Scrolled(d.enemy, screenScroll), d.bullet)
    else
      AiOutcome(Scrolled(e, screenScroll), None)
  }

  /**
   * `ai` with the player out of sight: no shot; a walking enemy whose idle
   * draw failed takes its patrol step (move, Run, count, re-aim, maybe
   * turn); one whose draw came up starts the pause and counts its first
   * frame where it stands; an idling one counts its pause down where it
   * stands. The world's scroll applies in every case.
   */
  lemma AiStepOutOfSight(e: Soldier, player: Soldier, lvl: Level, idleTrial: bool, screenScroll: int,
                         now: int, sizes: Sizes, px: Rounding)
    requires e.kind == Enemy && e.alive && player.alive && !Overlaps(e.vision, player.rect)
    ensures var r := AiStep(e, player, lvl, idleTrial, screenScroll, now, sizes, px);
            && r.bullet.None?
            && (!e.idling && !idleTrial ==> r.enemy == Scrolled(Patrolling(e, lvl, now, px), screenScroll))
            && (!e.idling && idleTrial ==>
                  && r.enemy.idling && r.enemy.idlingCounter == IDLE_FRAMES - 1 && r.enemy.action == Idle
                  && r.enemy.rect == e.rect.Shift(screenScroll, 0))
            && (e.idling ==>
                  && (r.enemy.idling, r.enemy.idlingCounter) == IdleTick(e.idlingCounter)
                  && r.enemy.rect == e.rect.Shift(screenScroll, 0))
  {
    var d := Decide(e, player, lvl, idleTrial, now, sizes, px);
    if !e.idling && !idleTrial {
      DecideWalks(e, player, lvl, idleTrial, now, sizes, px);
    }
    assert AiStep(e, player, lvl, idleTrial, screenScroll, now, sizes, px) == AiOutcome(Scrolled(d.enemy, screenScroll), d.bullet);
  }
}
