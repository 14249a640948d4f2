/**
 * The counters of a soldier that change without moving it: the animation
 * frame machine, the action switch, the death check, the shoot cooldown and
 * firing a bullet.
 */
module Soldiers {
  import opened Prelude
  import opened Geometry
  import opened Entities
  import opened Modular

  const ANIMATION_COOLDOWN: int := 100
  const SHOOT_COOLDOWN: nat := 20
  const START_HEALTH: int := 100
  const VISION_HEIGHT: nat := 20

  /** Every one of the five animation rows has at least one image. */
  predicate FramesLoaded(frames: seq<nat>) {
    |frames| == 5 && frames[0] > 0 && frames[1] > 0 && frames[2] > 0 && frames[3] > 0 && frames[4] > 0
  }

  /** Number of images of the soldier's current animation row. */
  function FrameCount(s: Soldier): nat
    requires |s.frames| == 5
  {
    s.frames[s.action.Index()]
  }

  /** `animation_list[action][frame_index]` can be looked up. */
  predicate FrameValid(s: Soldier) {
    FramesLoaded(s.frames) && s.frameIndex < FrameCount(s)
  }

  /** What every soldier satisfies between two calls into the rules. */
  predicate Inv(s: Soldier) {
    && FrameValid(s)
    && s.maxHealth == START_HEALTH
    && s.health <= s.maxHealth
    && (s.direction == 1 || s.direction == -1)
    && s.shootCooldown <= SHOOT_COOLDOWN
    && (!s.alive ==> s.speed == 0 && s.action == Death)
  }

  function Min(a: int, b: int): int { if a <= b then a else b }

  /** A soldier as constructed: alive, full health, facing right, airborne. */
  function NewSoldier(kind: Kind, x: int, y: int, w: nat, h: nat, speed: nat, ammo: nat,
                      grenades: nat, visionWidth: nat, frames: seq<nat>, now: int): (s: Soldier)
    requires |frames| == 5 && frames[0] > 0
    ensures s.alive && s.health == s.maxHealth == START_HEALTH
    ensures s.rect.CenterX() == x && s.rect.CenterY() == y
    ensures s.action == Idle && s.frameIndex == 0 && s.shootCooldown == 0
    ensures s.kind == kind && s.direction == 1 && s.inAir && !s.jump && s.velY == 0.0 && !s.shooting && !s.flip
    ensures s.speed == speed && s.ammo == ammo && s.grenades == grenades && s.frames == frames
    ensures s.rect.w == w && s.rect.h == h && s.updateTime == now
    ensures s.moveCounter == 0 && !s.idling && s.idlingCounter == 0
    ensures s.vision.w == visionWidth && s.vision.h == VISION_HEIGHT
    ensures FramesLoaded(frames) ==> Inv(s)
  {
    Soldier(kind, true, speed, ammo, 0, grenades, START_HEALTH, START_HEALTH, 1, 0.0,
            false, true, false, false, frames, 0, Idle, now, 0,
            Rect(0, 0, visionWidth, VISION_HEIGHT), false, 0,
            Rect(0, 0, w, h).CenteredAt(x, y))
  }

  /** One step past the last image of a row is image 0 again. */
  lemma StepWraps(f: int, n: int)
    requires 0 < n && 0 <= f <= n
    ensures f % n == if f == n then 0 else f
  {
    if f == n {
      DivModUnique(f, n, 1, 0);
    } else {
      DivModUnique(f, n, 0, f);
    }
  }

  /**
   * `update_animation`: once more than ANIMATION_COOLDOWN ticks have passed
   * since the last change the frame advances; Death stops on its last image,
   * every other row starts again at image 0.
   */
  function UpdateAnimation(s: Soldier, now: int): (r: Soldier)
    requires FrameValid(s)
    ensures FrameValid(r)
    ensures r == s.(frameIndex := r.frameIndex, updateTime := r.updateTime)
    ensures var step := if now - s.updateTime > ANIMATION_COOLDOWN then 1 else 0;
            r.frameIndex == if s.action == Death then Min(s.frameIndex + step, FrameCount(s) - 1)
                            else (s.frameIndex + step) % FrameCount(s)
    ensures r.updateTime == if now - s.updateTime > ANIMATION_COOLDOWN then now else s.updateTime
  {
    var elapsed := now - s.updateTime > ANIMATION_COOLDOWN;
    var t := if elapsed then now else s.updateTime;
    var step := if elapsed then 1 else 0;
    s.(frameIndex := NextFrame(s.frameIndex, FrameCount(s), step, s.action == Death), updateTime := t)
  }

  /** The animation only moves the frame and the timer, so it keeps the invariant. */
  lemma AnimationKeepsInv(s: Soldier, now: int)
    requires FrameValid(s)
    ensures Inv(s) ==> Inv(UpdateAnimation(s, now))
  {
  }

  /** The image after `index` in a row of `count`: the last one holds while dying, otherwise the row wraps. */
  function NextFrame(index: nat, count: nat, step: nat, dying: bool): (i: nat)
    requires index < count && step <= 1
    ensures i < count
    ensures i == if dying then Min(index + step, count - 1) else (index + step) % count
  {
    var f := index + step;
    StepWraps(f, count);
    if f >= count then (if dying then count - 1 else 0) else f
  }

  /**
   * `update_action`: switching to another action restarts its animation;
   * asking for the current one changes nothing.
   */
  function UpdateAction(s: Soldier, a: Action, now: int): (r: Soldier)
    ensures a == s.action ==> r == s
    ensures a != s.action ==> r == s.(action := a, frameIndex := 0, updateTime := now)
    ensures r.action == a
    ensures FrameValid(s) ==> FrameValid(r)
    ensures Inv(s) && (s.alive || a == Death) ==> Inv(r)
  {
    if a != s.action then s.(action := a, frameIndex := 0, updateTime := now) else s
  }

  /**
   * `check_alive`: a soldier whose health is not positive is dead for good:
   * health 0, speed 0, Death action. A positive health changes nothing.
   */
  function CheckAlive(s: Soldier, now: int): (r: Soldier)
    ensures s.health <= 0 ==>
              r == s.(health := 0, speed := 0, alive := false, action := Death,
                      frameIndex := r.frameIndex, updateTime := r.updateTime)
    ensures s.health <= 0 && s.action != Death ==> r.frameIndex == 0 && r.updateTime == now
    ensures s.health > 0 ==> r == s
    ensures r.alive ==> s.alive
    ensures FrameValid(s) ==> FrameValid(r)
    ensures Inv(s) ==> Inv(r)
  {
    if s.health <= 0 then Die(s, now) else s
  }

  /** The death itself: no health, no speed, the Death animation from its first image. */
  function Die(s: Soldier, now: int): (r: Soldier)
    ensures r == s.(health := 0, speed := 0, alive := false, action := Death,
                    frameIndex := r.frameIndex, updateTime := r.updateTime)
    ensures s.action != Death ==> r.frameIndex == 0 && r.updateTime == now
    ensures s.action == Death ==> r.frameIndex == s.frameIndex && r.updateTime == s.updateTime
    ensures FrameValid(s) ==> FrameValid(r)
    ensures Inv(s) ==> Inv(r)
  {
    UpdateAction(s, Death, now).(health := 0, speed := 0, alive := false)
  }

  /** A second death check, at any later time, leaves the soldier as the first left it. */
  lemma CheckAliveIdempotent(s: Soldier, now: int, later: int)
    ensures CheckAlive(CheckAlive(s, now), later) == CheckAlive(s, now)
  {
  }

  /** `Soldier.update`: animation, death check, then one frame off the cooldown. */
  function Update(s: Soldier, now: int): (r: Soldier)
    requires FrameValid(s)
    ensures FrameValid(r)
    ensures r.shootCooldown == if s.shootCooldown > 0 then s.shootCooldown - 1 else 0
    ensures r.alive <==> s.alive && s.health > 0
    ensures r.health == if s.health <= 0 then 0 else s.health
    ensures r == s.(frameIndex := r.frameIndex, updateTime := r.updateTime, action := r.action,
                    health := r.health, speed := r.speed, alive := r.alive, shootCooldown := r.shootCooldown)
    ensures Inv(s) ==> Inv(r)
  {
    AnimationKeepsInv(s, now);
    var a := CheckAlive(UpdateAnimation(s, now), now);
    assert a == s.(frameIndex := a.frameIndex, updateTime := a.updateTime, action := a.action,
                   health := a.health, speed := a.speed, alive := a.alive);
    CoolDown(a)
  }

  /** One frame off the shoot cooldown, down to 0. */
  function CoolDown(s: Soldier): (r: Soldier)
    ensures r == s.(shootCooldown := if s.shootCooldown > 0 then s.shootCooldown - 1 else 0)
    ensures FrameValid(s) ==> FrameValid(r)
    ensures Inv(s) ==> Inv(r)
  {
    if s.shootCooldown > 0 then s.(shootCooldown := s.shootCooldown - 1) else s
  }

  /** Successive `update` calls, one per tick in `nows`. */
  function Updates(s: Soldier, nows: seq<int>): (r: Soldier)
    requires FrameValid(s)
    ensures FrameValid(r)
    ensures r.shootCooldown == if s.shootCooldown > |nows| then s.shootCooldown - |nows| else 0
    ensures r.ammo == s.ammo
    ensures r.alive ==> s.alive
    decreases |nows|
  {
    if |nows| == 0 then s else Updates(Update(s, nows[0]), nows[1..])
  }

  /** A fired bullet together with the shooter after firing. */
  datatype Shot = Shot(shooter: Soldier, bullet: Option<Bullet>)

  /**
   * `shoot`: with the cooldown expired and ammunition left, one bullet leaves
   * three quarters of a body width ahead of the shooter's centre, the cooldown
   * restarts and one round is spent; otherwise nothing happens.
   */
  function Shoot(s: Soldier, sizes: Sizes, px: Rounding): (r: Shot)
    ensures r.bullet.Some? <==> s.shootCooldown == 0 && s.ammo > 0
    ensures r.bullet.Some? ==>
      && r.shooter == s.(shootCooldown := SHOOT_COOLDOWN, ammo := s.ammo - 1)
      && r.bullet.value.live
      && r.bullet.value.direction == s.direction
      && r.bullet.value.rect.CenterX() == px(s.rect.CenterX() as real + 0.75 * (s.rect.w as real) * (s.direction as real))
      && r.bullet.value.rect.CenterY() == s.rect.CenterY()
      && r.bullet.value.rect.w == sizes.bulletW && r.bullet.value.rect.h == sizes.bulletH
    ensures r.bullet.None? ==> r.shooter == s
    ensures r.shooter.ammo + (if r.bullet.Some? then 1 else 0) == s.ammo
    ensures Inv(s) ==> Inv(r.shooter)
  {
    if s.shootCooldown == 0 && s.ammo > 0 then
      var cx := px(s.rect.CenterX() as real + 0.75 * (s.rect.w as real) * (s.direction as real));
      var b := Bullet(Rect(0, 0, sizes.bulletW, sizes.bulletH).CenteredAt(cx, s.rect.CenterY()), s.direction, true);
      Shot(s.(shootCooldown := SHOOT_COOLDOWN, ammo := s.ammo - 1), Some(b))
    else
      Shot(s, None)
  }

  /**
   * After a shot, another shot succeeds after `n` updates exactly when
   * `n` has reached the cooldown and ammunition is left.
   */
  lemma CooldownWindow(s: Soldier, sizes: Sizes, px: Rounding, nows: seq<int>)
    requires FrameValid(s)
    requires Shoot(s, sizes, px).bullet.Some?
    ensures var after := Updates(Shoot(s, sizes, px).shooter, nows);
            Shoot(after, sizes, px).bullet.Some? <==> |nows| >= SHOOT_COOLDOWN && s.ammo > 1
  {
  }
}
