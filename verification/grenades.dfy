/**
 * `Grenade.update` and `Explosion.update`: a grenade bounces off walls,
 * stops sliding once it touches a floor or ceiling, and after its fuse
 * burns down it is removed, leaves an explosion, and takes GRENADE_DAMAGE
 * from every soldier whose centre lies within two tiles on both axes.
 */
module Grenades {
  import opened Prelude
  import opened Geometry
  import opened Entities
  import opened Motion

  const GRENADE_FUSE: int := 100
  const GRENADE_SPEED: int := 7
  const GRENADE_VELOCITY: real := -11.0
  const GRENADE_DAMAGE: int := 50
  const EXPLOSION_FRAMES: nat := 5
  const EXPLOSION_SPEED: nat := 4

  /** A grenade thrown from (x, y) towards `direction`. */
  function NewGrenade(x: real, y: int, direction: int, sizes: Sizes, px: Rounding): (g: Grenade)
    ensures g.timer == GRENADE_FUSE && g.speed == GRENADE_SPEED && g.direction == direction
    ensures g.velY == GRENADE_VELOCITY
    ensures g.rect.CenterX() == px(x) && g.rect.CenterY() == y
    ensures g.rect.w == sizes.grenadeW && g.rect.h == sizes.grenadeH
  {
    Grenade(Rect(0, 0, sizes.grenadeW, sizes.grenadeH).CenteredAt(px(x), y), direction, GRENADE_SPEED, GRENADE_VELOCITY, GRENADE_FUSE)
  }

  /** The variables of the grenade's obstacle loop. */
  datatype Flight = Flight(dx: int, dy: Disp, direction: int, speed: int, velY: real)

  /** One tile: bounce off it sideways; touching it vertically stops the slide and snaps to its edge. */
  function GrenadeTile(r: Rect, px: Rounding, f: Flight, t: Rect): Flight {
    var f1 := if HitsX(r, f.dx, t) then f.(direction := -f.direction, dx := -f.direction * f.speed) else f;
    if HitsY(r, Offset(f1.dy, r, px), t) then
      if f1.velY < 0.0 then f1.(speed := 0, velY := 0.0, dy := Pixels(t.Bottom() - r.Top()))
      else f1.(speed := 0, velY := 0.0, dy := Pixels(t.Top() - r.Bottom()))
    else f1
  }

  function GrenadeSweep(r: Rect, px: Rounding, f: Flight, tiles: seq<Rect>): (res: Flight)
    ensures res.direction == f.direction || res.direction == -f.direction
    ensures res.speed == f.speed || res.speed == 0
    decreases |tiles|
  {
    if |tiles| == 0 then f else GrenadeSweep(r, px, GrenadeTile(r, px, f, tiles[0]), tiles[1..])
  }

  /** Without any wall or floor in reach the grenade keeps its heading, speed and the gravity-integrated velocity. */
  lemma {:induction false} GrenadeSweepFree(r: Rect, px: Rounding, f: Flight, tiles: seq<Rect>)
    requires !AnyHitX(r, f.dx, tiles) && !AnyHitY(r, Offset(f.dy, r, px), tiles)
    ensures GrenadeSweep(r, px, f, tiles) == f
    decreases |tiles|
  {
    if |tiles| > 0 {
      assert !HitsX(r, f.dx, tiles[0]) && !HitsY(r, Offset(f.dy, r, px), tiles[0]);
      forall j | 0 <= j < |tiles[1..]|
        ensures !HitsX(r, f.dx, tiles[1..][j]) && !HitsY(r, Offset(f.dy, r, px), tiles[1..][j])
      {
        assert tiles[1..][j] == tiles[j + 1];
      }
      GrenadeSweepFree(r, px, f, tiles[1..]);
    }
  }

  /**
   * The vertical half of the loop: a grenade that touches no tile vertically
   * keeps its speed, velocity and displacement; one that touches any tile
   * stops sliding (speed 0), loses its vertical velocity and is snapped to
   * whole pixels.
   */
  lemma {:induction false} GrenadeSweepY(r: Rect, px: Rounding, f: Flight, tiles: seq<Rect>)
    ensures var res := GrenadeSweep(r, px, f, tiles);
            !AnyHitY(r, Offset(f.dy, r, px), tiles) ==> res.speed == f.speed && res.velY == f.velY && res.dy == f.dy
    ensures var res := GrenadeSweep(r, px, f, tiles);
            AnyHitY(r, Offset(f.dy, r, px), tiles) ==> res.speed == 0 && res.velY == 0.0 && res.dy.Pixels?
    decreases |tiles|
  {
    if |tiles| > 0 {
      var f' := GrenadeTile(r, px, f, tiles[0]);
      AnyHitYSplit(r, Offset(f.dy, r, px), tiles);
      GrenadeSweepY(r, px, f', tiles[1..]);
    }
  }

  /**
   * Falling onto tiles: the grenade's bottom is snapped onto the top of the
   * last tile it touches, which no later tile overlaps.
   */
  lemma {:induction false} GrenadeSweepLands(r: Rect, px: Rounding, f: Flight, tiles: seq<Rect>)
    requires f.velY >= 0.0
    ensures var res := GrenadeSweep(r, px, f, tiles);
            AnyHitY(r, Offset(f.dy, r, px), tiles) ==> res.dy.Pixels? && LandedOn(r, res.dy.n, tiles)
    decreases |tiles|
  {
    if |tiles| > 0 {
      var f' := GrenadeTile(r, px, f, tiles[0]);
      AnyHitYSplit(r, Offset(f.dy, r, px), tiles);
      GrenadeSweepLands(r, px, f', tiles[1..]);
      var res := GrenadeSweep(r, px, f, tiles);
      if HitsY(r, Offset(f.dy, r, px), tiles[0]) {
        var n := tiles[0].Top() - r.Bottom();
        assert f'.dy == Pixels(n) && f'.velY == 0.0;
        if AnyHitY(r, n, tiles[1..]) {
          LandedOnLater(r, res.dy.n, tiles);
        } else {
          GrenadeSweepY(r, px, f', tiles[1..]);
          LandedOnFirst(r, n, tiles);
        }
      } else if AnyHitY(r, Offset(f.dy, r, px), tiles[1..]) {
        assert f'.dy == f.dy && f'.velY == f.velY;
        LandedOnLater(r, res.dy.n, tiles);
      }
    }
  }

  /** Once no tile is in the way sideways, the loop never turns the grenade again. */
  lemma {:induction false} GrenadeNoBounce(r: Rect, px: Rounding, f: Flight, tiles: seq<Rect>)
    requires !AnyHitX(r, f.dx, tiles)
    ensures var res := GrenadeSweep(r, px, f, tiles);
            res.direction == f.direction && res.dx == f.dx
    decreases |tiles|
  {
    if |tiles| > 0 {
      AnyHitXSplit(r, f.dx, tiles);
      GrenadeNoBounce(r, px, GrenadeTile(r, px, f, tiles[0]), tiles[1..]);
    }
  }

  /**
   * The bounce off a wall: with the step `d0` (the heading times the speed
   * `s0`) and a box that overlaps no tile standing still or stepping back,
   * the grenade turns round exactly when a tile is in its way; with no
   * vertical contact it then travels the reversed step.
   */
  lemma {:induction false} GrenadeBounce(r: Rect, px: Rounding, f: Flight, tiles: seq<Rect>, d0: int, s0: int)
    requires f.dx == d0 && d0 == f.direction * s0 && (f.speed == s0 || f.speed == 0)
    requires !AnyHitX(r, -d0, tiles) && !AnyHitX(r, 0, tiles)
    ensures var res := GrenadeSweep(r, px, f, tiles);
            res.direction == if AnyHitX(r, d0, tiles) then -f.direction else f.direction
    ensures var res := GrenadeSweep(r, px, f, tiles);
            f.speed == s0 && !AnyHitY(r, Offset(f.dy, r, px), tiles) ==>
              res.dx == if AnyHitX(r, d0, tiles) then -d0 else d0
    decreases |tiles|
  {
    if |tiles| > 0 {
      var f' := GrenadeTile(r, px, f, tiles[0]);
      AnyHitXSplit(r, d0, tiles);
      AnyHitXSplit(r, -d0, tiles);
      AnyHitXSplit(r, 0, tiles);
      AnyHitYSplit(r, Offset(f.dy, r, px), tiles);
      if HitsX(r, d0, tiles[0]) {
        assert f'.dx == -d0 || f'.dx == 0;
        GrenadeNoBounce(r, px, f', tiles[1..]);
      } else {
        GrenadeBounce(r, px, f', tiles[1..], d0, s0);
      }
    }
  }

  /** The splash test: centres closer than two tiles on both axes. */
  predicate InBlast(g: Rect, r: Rect) {
    Abs(g.CenterX() - r.CenterX()) < TILE_SIZE * 2 && Abs(g.CenterY() - r.CenterY()) < TILE_SIZE * 2
  }

  /** `health -= 50` for a soldier in the blast. */
  function Splash(g: Rect, s: Soldier): (r: Soldier)
    ensures r == s.(health := r.health)
    ensures r.health == if InBlast(g, s.rect) then s.health - GRENADE_DAMAGE else s.health
  {
    if InBlast(g, s.rect) then s.(health := s.health - GRENADE_DAMAGE) else s
  }

  /** An explosion centred on (x, y), at its first image. */
  function NewExplosion(x: int, y: int, sizes: Sizes): (e: Explosion)
    ensures e.rect.CenterX() == x && e.rect.CenterY() == y
    ensures e.rect.w == sizes.explosionW && e.rect.h == sizes.explosionH
    ensures e.frameIndex == 0 && e.counter == 0 && Age(e) == 0
  {
    Explosion(Rect(0, 0, sizes.explosionW, sizes.explosionH).CenteredAt(x, y), 0, 0)
  }

  /** The grenade (if it is still in flight), the explosion it left (if any), and the soldiers after the blast. */
  datatype GrenadeOutcome = GrenadeOutcome(grenade: Option<Grenade>, explosion: Option<Explosion>,
                                           player: Soldier, enemies: seq<Soldier>)

  /** Some tile overlaps the grenade's box displaced by this frame's vertical velocity. */
  predicate VerticalContact(g: Grenade, obstacles: seq<Rect>, px: Rounding) {
    AnyHitY(g.rect, Offset(Float(g.velY + GRAVITY), g.rect, px), obstacles)
  }

  /** The loop variables of `update` before the obstacle loop. */
  function Launch(g: Grenade): Flight {
    Flight(g.direction * g.speed, Float(g.velY + GRAVITY), g.direction, g.speed, g.velY + GRAVITY)
  }

  /**
   * The movement half of `update`: gravity, the obstacle loop, the scroll,
   * and one tick off the fuse. Vertical contact with any tile stops the
   * slide and the vertical velocity; without it the grenade falls by its
   * velocity.
   */
  function Fly(g: Grenade, obstacles: seq<Rect>, screenScroll: int, px: Rounding): (r: Grenade)
    ensures r.timer == g.timer - 1
    ensures r.direction == g.direction || r.direction == -g.direction
    ensures r.speed == if VerticalContact(g, obstacles, px) then 0 else g.speed
    ensures r.velY == if VerticalContact(g, obstacles, px) then 0.0 else g.velY + GRAVITY
    ensures !VerticalContact(g, obstacles, px) ==> r.rect.y == px(g.rect.y as real + (g.velY + GRAVITY))
    ensures r.rect.w == g.rect.w && r.rect.h == g.rect.h
  {
    GrenadeSweepY(g.rect, px, Launch(g), obstacles);
    var f := GrenadeSweep(g.rect, px, Launch(g), obstacles);
    Grenade(g.rect.Shift(f.dx + screenScroll, Offset(f.dy, g.rect, px)), f.direction, f.speed, f.velY, g.timer - 1)
  }

  /** Out in the open a grenade flies its full step and the scroll, and only gravity changes its velocity. */
  lemma FlyFree(g: Grenade, obstacles: seq<Rect>, screenScroll: int, px: Rounding)
    requires !AnyHitX(g.rect, g.direction * g.speed, obstacles)
    requires !AnyHitY(g.rect, Offset(Float(g.velY + GRAVITY), g.rect, px), obstacles)
    ensures var r := Fly(g, obstacles, screenScroll, px);
            && r.rect.x == g.rect.x + g.direction * g.speed + screenScroll
            && r.rect.y == px(g.rect.y as real + g.velY + GRAVITY)
            && r.rect.w == g.rect.w && r.rect.h == g.rect.h
            && r.velY == g.velY + GRAVITY && r.direction == g.direction && r.speed == g.speed
  {
    GrenadeSweepFree(g.rect, px, Launch(g), obstacles);
  }

  /**
   * Bouncing off a wall: a grenade whose box overlaps no tile where it
   * stands or one step back turns round exactly when a tile is in its way,
   * and without vertical contact travels the reversed step.
   */
  lemma FlyBounces(g: Grenade, obstacles: seq<Rect>, screenScroll: int, px: Rounding)
    requires !AnyHitX(g.rect, -(g.direction * g.speed), obstacles) && !AnyHitX(g.rect, 0, obstacles)
    ensures var r := Fly(g, obstacles, screenScroll, px);
            r.direction == if AnyHitX(g.rect, g.direction * g.speed, obstacles) then -g.direction else g.direction
    ensures var r := Fly(g, obstacles, screenScroll, px);
            !VerticalContact(g, obstacles, px) ==>
              r.rect.x == g.rect.x + screenScroll +
                (if AnyHitX(g.rect, g.direction * g.speed, obstacles) then -(g.direction * g.speed) else g.direction * g.speed)
  {
    GrenadeBounce(g.rect, px, Launch(g), obstacles, g.direction * g.speed, g.speed);
  }

  /**
   * Landing: a grenade coming down onto tiles stops, and its bottom rests on
   * the top of one of them.
   */
  lemma FlyLands(g: Grenade, obstacles: seq<Rect>, screenScroll: int, px: Rounding)
    requires g.velY + GRAVITY >= 0.0 && VerticalContact(g, obstacles, px)
    ensures var r := Fly(g, obstacles, screenScroll, px);
            && r.speed == 0 && r.velY == 0.0
            && exists i :: 0 <= i < |obstacles| && r.rect.Bottom() == obstacles[i].Top()
  {
    GrenadeSweepLands(g.rect, px, Launch(g), obstacles);
    var f := GrenadeSweep(g.rect, px, Launch(g), obstacles);
    var i :| 0 <= i < |obstacles| && f.dy.n == obstacles[i].Top() - g.rect.Bottom()
      && forall j :: i < j < |obstacles| ==> !HitsY(g.rect, f.dy.n, obstacles[j]);
    assert Fly(g, obstacles, screenScroll, px).rect.y == g.rect.y + f.dy.n;
  }

  /** `update` of one grenade. */
  function UpdateGrenade(g: Grenade, player: Soldier, enemies: seq<Soldier>, obstacles: seq<Rect>,
                         screenScroll: int, sizes: Sizes, px: Rounding): (r: GrenadeOutcome)
    ensures r.grenade.None? <==> g.timer <= 1
    ensures r.grenade.Some? ==> r.grenade.value == Fly(g, obstacles, screenScroll, px)
    ensures r.grenade.None? <==> r.explosion.Some?
    ensures r.grenade.Some? ==> r.player == player && r.enemies == enemies
    ensures |r.enemies| == |enemies|
    // at detonation: every soldier in the box, alive or not, loses the blast damage once
    ensures r.grenade.None? ==>
              var blast := Fly(g, obstacles, screenScroll, px).rect;
              && r.explosion == Some(NewExplosion(blast.x, blast.y, sizes))
              && r.player == Splash(blast, player)
              && forall k :: 0 <= k < |enemies| ==> r.enemies[k] == Splash(blast, enemies[k])
  {
    var moved := Fly(g, obstacles, screenScroll, px);
    if moved.timer <= 0 then
      var hit := seq(|enemies|, k requires 0 <= k < |enemies| => Splash(moved.rect, enemies[k]));
      GrenadeOutcome(None, Some(NewExplosion(moved.rect.x, moved.rect.y, sizes)), Splash(moved.rect, player), hit)
    else
      GrenadeOutcome(Some(moved), None, player, enemies)
  }

  /** The world a grenade's flight sees during one frame. */
  datatype Frame = Frame(obstacles: seq<Rect>, screenScroll: int)

  /** The index of the frame whose update detonates the grenade, if it does within `frames`. */
  function Detonation(g: Grenade, frames: seq<Frame>, px: Rounding): Option<nat>
    decreases |frames|
  {
    if |frames| == 0 then None
    else
      var g' := Fly(g, frames[0].obstacles, frames[0].screenScroll, px);
      if g'.timer <= 0 then Some(0)
      else
        match Detonation(g', frames[1..], px)
        case None => None
        case Some(k) => Some(k + 1)
  }

  /**
   * The fuse: whatever the grenade meets, it detonates on exactly its
   * `timer`-th update; a thrown grenade therefore explodes on the 100th.
   */
  lemma {:induction false} FuseBurns(g: Grenade, frames: seq<Frame>, px: Rounding)
    requires g.timer >= 1
    ensures Detonation(g, frames, px) == if |frames| >= g.timer then Some(g.timer - 1) else None
    decreases |frames|
  {
    if |frames| > 0 {
      var g' := Fly(g, frames[0].obstacles, frames[0].screenScroll, px);
      if g'.timer > 0 {
        FuseBurns(g', frames[1..], px);
      }
    }
  }

  /** A thrown grenade detonates on its hundredth update. */
  lemma ThrownGrenadeFuse(x: real, y: int, direction: int, sizes: Sizes, px: Rounding, frames: seq<Frame>)
    requires |frames| >= GRENADE_FUSE
    ensures Detonation(NewGrenade(x, y, direction, sizes, px), frames, px) == Some(99)
  {
    FuseBurns(NewGrenade(x, y, direction, sizes, px), frames, px);
  }

  /** `Explosion.update`: move with the world; every EXPLOSION_SPEED updates show the next image, and vanish after the last. */
  function UpdateExplosion(e: Explosion, screenScroll: int): (r: Option<Explosion>)
    requires e.frameIndex < EXPLOSION_FRAMES && e.counter < EXPLOSION_SPEED
    ensures r.Some? ==> r.value.frameIndex < EXPLOSION_FRAMES && r.value.counter < EXPLOSION_SPEED
    ensures r.Some? ==> r.value.rect == e.rect.Shift(screenScroll, 0)
    ensures r.None? <==> e.frameIndex == EXPLOSION_FRAMES - 1 && e.counter == EXPLOSION_SPEED - 1
    ensures r.Some? ==> Age(r.value) == Age(e) + 1
  {
    var rect := e.rect.Shift(screenScroll, 0);
    var counter := e.counter + 1;
    if counter >= EXPLOSION_SPEED then
      if e.frameIndex + 1 >= EXPLOSION_FRAMES then None
      else Some(Explosion(rect, e.frameIndex + 1, 0))
    else
      Some(Explosion(rect, e.frameIndex, counter))
  }

  /** Updates already spent by an explosion. */
  function Age(e: Explosion): int {
    e.frameIndex * EXPLOSION_SPEED + e.counter
  }

  /** The index of the update that removes the explosion, if that happens within `scrolls`. */
  function Vanish(e: Explosion, scrolls: seq<int>): Option<nat>
    requires e.frameIndex < EXPLOSION_FRAMES && e.counter < EXPLOSION_SPEED
    decreases |scrolls|
  {
    if |scrolls| == 0 then None
    else
      match UpdateExplosion(e, scrolls[0])
      case None => Some(0)
      case Some(e') =>
        match Vanish(e', scrolls[1..])
        case None => None
        case Some(k) => Some(k + 1)
  }

  /**
   * An explosion lives EXPLOSION_FRAMES * EXPLOSION_SPEED updates in all:
   * it is removed by exactly the update that would start a sixth image.
   */
  lemma {:induction false} ExplosionLifetime(e: Explosion, scrolls: seq<int>)
    requires e.frameIndex < EXPLOSION_FRAMES && e.counter < EXPLOSION_SPEED
    ensures var left := EXPLOSION_FRAMES * EXPLOSION_SPEED - Age(e);
            Vanish(e, scrolls) == if |scrolls| >= left then Some(left - 1) else None
    decreases |scrolls|
  {
    if |scrolls| > 0 {
      var o := UpdateExplosion(e, scrolls[0]);
      if o.Some? {
        ExplosionLifetime(o.value, scrolls[1..]);
      }
    }
  }

  /** A fresh explosion is removed on its twentieth update. */
  lemma FreshExplosionLasts(x: int, y: int, sizes: Sizes, scrolls: seq<int>)
    requires |scrolls| >= 20
    ensures Vanish(NewExplosion(x, y, sizes), scrolls) == Some(19)
  {
    ExplosionLifetime(NewExplosion(x, y, sizes), scrolls);
  }
}
