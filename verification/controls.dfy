/**
 * The player's part of a frame: the shoot and grenade keys, then the choice
 * of animation by priority (jump, shoot, run, idle).
 */
module Controls {
  import opened Prelude
  import opened Geometry
  import opened Entities
  import opened Soldiers
  import opened Grenades

  /** The key flags the event loop keeps between frames. */
  datatype Keys = Keys(movingLeft: bool, movingRight: bool, shoot: bool, grenade: bool)

  /** The player after the keys, what was launched, and the grenade latch. */
  datatype ControlOutcome = ControlOutcome(player: Soldier, bullet: Option<Bullet>,
                                           grenade: Option<Grenade>, grenadeThrown: bool)

  /** The animation the player shows: airborne beats shooting beats running. */
  function Priority(inAir: bool, shooting: bool, moving: bool): (a: Action)
    ensures a == Jump <==> inAir
    ensures a == Shoot <==> !inAir && shooting
    ensures a == Run <==> !inAir && !shooting && moving
    ensures a == Idle <==> !inAir && !shooting && !moving
  {
    if inAir then Jump else if shooting then Shoot else if moving then Run else Idle
  }

  /** A grenade appears half a body width ahead of the player, at head height. */
  function Throw(p: Soldier, sizes: Sizes, px: Rounding): (g: Grenade)
    ensures g.timer == GRENADE_FUSE && g.direction == p.direction
    ensures g.speed == GRENADE_SPEED && g.velY == GRENADE_VELOCITY
    ensures g.rect.CenterX() == px(p.rect.CenterX() as real + 0.5 * (p.rect.w as real) * (p.direction as real))
    ensures g.rect.CenterY() == p.rect.Top()
  {
    NewGrenade(p.rect.CenterX() as real + 0.5 * (p.rect.w as real) * (p.direction as real),
               p.rect.Top(), p.direction, sizes, px)
  }

  /**
   * The shoot key wins over the grenade key; a grenade needs the latch open
   * and one in stock, and closes the latch.
   */
  function Fire(p: Soldier, keys: Keys, grenadeThrown: bool, sizes: Sizes, px: Rounding): (r: ControlOutcome)
    ensures r.bullet.Some? <==> keys.shoot && p.shootCooldown == 0 && p.ammo > 0
    ensures r.grenade.Some? <==> !keys.shoot && keys.grenade && !grenadeThrown && p.grenades > 0
    ensures r.grenade.Some? ==>
              && r.player.grenades + 1 == p.grenades
              && r.grenadeThrown
              && r.grenade.value.timer == GRENADE_FUSE
              && r.grenade.value.direction == p.direction
    ensures r.grenade.None? ==> r.player.grenades == p.grenades && r.grenadeThrown == grenadeThrown
    ensures r.player.ammo + (if r.bullet.Some? then 1 else 0) == p.ammo
    ensures r.player.shooting == (p.shooting || keys.shoot)
    ensures r.player == p.(shooting := r.player.shooting, ammo := r.player.ammo,
                           shootCooldown := r.player.shootCooldown, grenades := r.player.grenades)
    ensures Inv(p) ==> Inv(r.player)
  {
    if keys.shoot then
      var shot := Soldiers.Shoot(p.(shooting := true), sizes, px);
      ControlOutcome(shot.shooter, shot.bullet, None, grenadeThrown)
    else if keys.grenade && !grenadeThrown && p.grenades > 0 then
      ControlOutcome(p.(grenades := p.grenades - 1), None, Some(Throw(p, sizes, px)), true)
    else
      ControlOutcome(p, None, None, grenadeThrown)
  }

  /** The animation switch at the end of the player's frame. */
  function Animate(q: Soldier, moving: bool, now: int): (r: Soldier)
    ensures r.action == Priority(q.inAir, q.shooting, moving)
    ensures r == q.(action := r.action, frameIndex := r.frameIndex, updateTime := r.updateTime)
    ensures r.action != q.action ==> r.frameIndex == 0 && r.updateTime == now
    ensures Inv(q) && q.alive ==> Inv(r)
  {
    UpdateAction(q, Priority(q.inAir, q.shooting, moving), now)
  }

  /** The key handling and the animation choice of a living player. */
  function PlayerActions(p: Soldier, keys: Keys, grenadeThrown: bool, now: int,
                         sizes: Sizes, px: Rounding): (r: ControlOutcome)
    ensures !p.alive ==> r == ControlOutcome(p, None, None, grenadeThrown)
    ensures p.alive ==> r == Fire(p, keys, grenadeThrown, sizes, px).(player := r.player)
    ensures p.alive ==> r.player == Fire(p, keys, grenadeThrown, sizes, px).player.(
                          action := r.player.action, frameIndex := r.player.frameIndex,
                          updateTime := r.player.updateTime)
    ensures p.alive ==>
              r.player.action == Priority(p.inAir, p.shooting || keys.shoot, keys.movingLeft || keys.movingRight)
    ensures r.player.action != p.action ==> r.player.frameIndex == 0 && r.player.updateTime == now
    ensures r.player == p.(shooting := r.player.shooting, ammo := r.player.ammo,
                           shootCooldown := r.player.shootCooldown, grenades := r.player.grenades,
                           action := r.player.action, frameIndex := r.player.frameIndex,
                           updateTime := r.player.updateTime)
    ensures Inv(p) ==> Inv(r.player)
  {
    if !p.alive then ControlOutcome(p, None, None, grenadeThrown)
    else
      var fired := Fire(p, keys, grenadeThrown, sizes, px);
      fired.(player := Animate(fired.player, keys.movingLeft || keys.movingRight, now))
  }

  /**
   * Holding the grenade key throws one grenade: the latch it closes stops
   * every later frame from throwing until the key is released.
   */
  lemma OneGrenadePerPress(p: Soldier, keys: Keys, grenadeThrown: bool, now: int, later: int,
                           sizes: Sizes, px: Rounding)
    requires PlayerActions(p, keys, grenadeThrown, now, sizes, px).grenade.Some?
    ensures var r := PlayerActions(p, keys, grenadeThrown, now, sizes, px);
            PlayerActions(r.player, keys, r.grenadeThrown, later, sizes, px).grenade.None?
  {
  }
}
