/**
 * The records of the game: soldiers (the player and the enemies), bullets,
 * grenades, explosions and item boxes. Images are not modelled; what the
 * rules read from them (sizes, number of animation frames) is kept as data.
 */
module Entities {
  import opened Geometry

  datatype Kind = Player | Enemy

  /** The five animation rows of a soldier, in the order they are loaded. */
  datatype Action = Idle | Run | Jump | Shoot | Death {
    /** The row of `animation_list` this action selects. */
    function Index(): (i: nat)
      ensures i < 5
    {
      match this
      case Idle => 0
      case Run => 1
      case Jump => 2
      case Shoot => 3
      case Death => 4
    }
  }

  /**
   * A soldier. `frames[a]` is the number of images of animation row `a`;
   * `rect` has the size of the first image, which is also the `width` and
   * `height` the collision queries use.
   */
  datatype Soldier = Soldier(
    kind: Kind,
    alive: bool,
    speed: nat,
    ammo: nat,
    shootCooldown: nat,
    grenades: nat,
    health: int,
    maxHealth: int,
    direction: int,
    velY: real,
    jump: bool,
    inAir: bool,
    shooting: bool,
    flip: bool,
    frames: seq<nat>,
    frameIndex: nat,
    action: Action,
    updateTime: int,
    moveCounter: int,
    vision: Rect,
    idling: bool,
    idlingCounter: int,
    rect: Rect)

  /** A bullet; `live` is its membership of the bullet group. */
  datatype Bullet = Bullet(rect: Rect, direction: int, live: bool)

  datatype Grenade = Grenade(rect: Rect, direction: int, speed: int, velY: real, timer: int)

  datatype Explosion = Explosion(rect: Rect, frameIndex: nat, counter: nat)

  datatype ItemKind = HealthItem | AmmoItem | GrenadeItem

  datatype ItemBox = ItemBox(kind: ItemKind, rect: Rect)

  /** Sizes of the loaded images that the rules depend on. */
  datatype Sizes = Sizes(
    bulletW: nat, bulletH: nat,
    grenadeW: nat, grenadeH: nat,
    explosionW: nat, explosionH: nat)
}
