/**
 * `Bullet.update` over the bullet group. Each bullet moves, leaves the group
 * when it goes off screen or into an obstacle, and then damages the player
 * and the enemies that ANY bullet still in the group overlaps, removing
 * itself when it does; execution goes on after a removal, exactly as the
 * group is consulted in the game.
 */
module Bullets {
  import opened Geometry
  import opened Entities
  import opened Soldiers

  const BULLET_SPEED: int := 10
  const PLAYER_HIT: int := 5
  const ENEMY_HIT: int := 25

  /** The soldiers and the bullet group a bullet update reads and writes. */
  datatype Scene = Scene(player: Soldier, enemies: seq<Soldier>, bullets: seq<Bullet>)

  /** `spritecollide(sprite, bullet_group)`: some bullet still in the group overlaps `r`. */
  predicate GroupHits(bullets: seq<Bullet>, r: Rect) {
    exists j :: 0 <= j < |bullets| && bullets[j].live && Overlaps(r, bullets[j].rect)
  }

  /** `kill()`: bullet `i` leaves the group. */
  function Kill(bullets: seq<Bullet>, i: nat): (r: seq<Bullet>)
    requires i < |bullets|
    ensures |r| == |bullets| && !r[i].live && r[i].rect == bullets[i].rect
    ensures forall j :: 0 <= j < |r| && j != i ==> r[j] == bullets[j]
  {
    bullets[i := bullets[i].(live := false)]
  }

  /** An enemy the hit check found: `ENEMY_HIT` off its health. */
  function Wound(e: Soldier, damage: int): Soldier {
    e.(health := e.health - damage)
  }

  /** The loop over the enemy group, from enemy `k` on, for the update of bullet `i`. */
  function HitEnemies(bullets: seq<Bullet>, i: nat, enemies: seq<Soldier>, k: nat): (r: (seq<Bullet>, seq<Soldier>))
    requires i < |bullets| && k <= |enemies|
    ensures |r.0| == |bullets| && |r.1| == |enemies|
    ensures forall j :: 0 <= j < |bullets| && j != i ==> r.0[j] == bullets[j]
    ensures r.0[i].rect == bullets[i].rect && (r.0[i].live ==> bullets[i].live)
    ensures forall m :: 0 <= m < |enemies| ==>
              r.1[m] == enemies[m] || (k <= m && enemies[m].alive && r.1[m] == Wound(enemies[m], ENEMY_HIT))
    ensures r.0[i].live ==> r.1 == enemies
    decreases |enemies| - k
  {
    if k == |enemies| then (bullets, enemies)
    else if GroupHits(bullets, enemies[k].rect) && enemies[k].alive then
      HitEnemies(Kill(bullets, i), i, enemies[k := Wound(enemies[k], ENEMY_HIT)], k + 1)
    else
      HitEnemies(bullets, i, enemies, k + 1)
  }

  /**
   * The bullet after its step: moved by its speed and the scroll, and out of
   * the group once it is off screen or inside an obstacle.
   */
  function Flown(b: Bullet, obstacles: seq<Rect>, screenScroll: int): (f: Bullet)
    ensures f.rect == b.rect.Shift(b.direction * BULLET_SPEED + screenScroll, 0) && f.direction == b.direction
    ensures f.live <==> 0 <= f.rect.Right() && f.rect.Left() <= SCREEN_WIDTH && !AnyOverlap(f.rect, obstacles)
  {
    var moved := b.rect.Shift(b.direction * BULLET_SPEED + screenScroll, 0);
    Bullet(moved, b.direction, !(moved.Right() < 0 || moved.Left() > SCREEN_WIDTH || AnyOverlap(moved, obstacles)))
  }

  /** `update` of bullet `i` of the group. */
  function UpdateBullet(sc: Scene, i: nat, obstacles: seq<Rect>, screenScroll: int): (r: Scene)
    requires i < |sc.bullets|
    ensures |r.bullets| == |sc.bullets| && |r.enemies| == |sc.enemies|
    ensures forall j :: 0 <= j < |sc.bullets| && j != i ==> r.bullets[j] == sc.bullets[j]
    ensures sc.bullets[i].live ==>
              r.bullets[i].rect == sc.bullets[i].rect.Shift(sc.bullets[i].direction * BULLET_SPEED + screenScroll, 0)
    ensures r.bullets[i].live ==> sc.bullets[i].live
    // every soldier loses exactly its fixed damage or nothing, and only while alive
    ensures r.player == sc.player || (sc.player.alive && r.player == Wound(sc.player, PLAYER_HIT))
    ensures forall m :: 0 <= m < |sc.enemies| ==>
              r.enemies[m] == sc.enemies[m] || (sc.enemies[m].alive && r.enemies[m] == Wound(sc.enemies[m], ENEMY_HIT))
    // damage always costs the updated bullet its place in the group
    ensures r.bullets[i].live ==> r.player == sc.player && r.enemies == sc.enemies
  {
    var b := sc.bullets[i];
    if !b.live then sc
    else
      var bs1 := sc.bullets[i := Flown(b, obstacles, screenScroll)];
      var playerHit := GroupHits(bs1, sc.player.rect) && sc.player.alive;
      var bs2 := if playerHit then Kill(bs1, i) else bs1;
      var player := if playerHit then Wound(sc.player, PLAYER_HIT) else sc.player;
      var hit := HitEnemies(bs2, i, sc.enemies, 0);
      Scene(player, hit.1, hit.0)
  }

  /** The player is hit in the update of bullet `i` exactly when alive and some bullet of the group overlaps it. */
  lemma PlayerHitCondition(sc: Scene, i: nat, obstacles: seq<Rect>, screenScroll: int)
    requires i < |sc.bullets| && sc.bullets[i].live
    ensures var r := UpdateBullet(sc, i, obstacles, screenScroll);
            r.player != sc.player <==>
              sc.player.alive && GroupHits(sc.bullets[i := Flown(sc.bullets[i], obstacles, screenScroll)], sc.player.rect)
  {
  }

  /** Some bullet of the group other than bullet `i` overlaps `r`. */
  predicate OtherHits(bullets: seq<Bullet>, i: nat, r: Rect) {
    exists j :: 0 <= j < |bullets| && j != i && bullets[j].live && Overlaps(r, bullets[j].rect)
  }

  /** The group hits `r` through bullet `i` or through another bullet. */
  lemma GroupHitsSplit(bullets: seq<Bullet>, i: nat, r: Rect)
    requires i < |bullets|
    ensures GroupHits(bullets, r) <==> OtherHits(bullets, i, r) || (bullets[i].live && Overlaps(r, bullets[i].rect))
  {
  }

  /**
   * The enemy loop, enemy by enemy: an enemy from `k` on is wounded exactly
   * when it is alive and either another bullet of the group touches it, or
   * bullet `i` itself is still in the group, touches it, and has wounded no
   * enemy before it.
   */
  lemma {:induction false} HitEnemiesCondition(bullets: seq<Bullet>, i: nat, enemies: seq<Soldier>, k: nat)
    requires i < |bullets| && k <= |enemies|
    ensures var r := HitEnemies(bullets, i, enemies, k);
            forall m :: k <= m < |enemies| ==>
              (r.1[m] != enemies[m] <==>
                 enemies[m].alive &&
                 (OtherHits(bullets, i, enemies[m].rect) ||
                  (bullets[i].live && Overlaps(enemies[m].rect, bullets[i].rect) &&
                   forall n :: k <= n < m ==> r.1[n] == enemies[n])))
    decreases |enemies| - k
  {
    if k < |enemies| {
      var r := HitEnemies(bullets, i, enemies, k);
      GroupHitsSplit(bullets, i, enemies[k].rect);
      if GroupHits(bullets, enemies[k].rect) && enemies[k].alive {
        var bs := Kill(bullets, i);
        var es := enemies[k := Wound(enemies[k], ENEMY_HIT)];
        HitEnemiesCondition(bs, i, es, k + 1);
        assert r == HitEnemies(bs, i, es, k + 1);
        assert r.1[k] == es[k] != enemies[k];
        forall m | k < m < |enemies|
          ensures OtherHits(bs, i, enemies[m].rect) <==> OtherHits(bullets, i, enemies[m].rect)
        {
          if OtherHits(bullets, i, enemies[m].rect) {
            var j :| 0 <= j < |bullets| && j != i && bullets[j].live && Overlaps(enemies[m].rect, bullets[j].rect);
            assert bs[j] == bullets[j];
          }
        }
      } else {
        HitEnemiesCondition(bullets, i, enemies, k + 1);
        assert r.1[k] == enemies[k];
      }
    }
  }

  /**
   * When an enemy is wounded in the update of bullet `i`: it is alive and
   * another bullet of the group touches it, or the moved bullet `i` is still
   * flying (it hit no wall and no player), touches it, and wounded no enemy
   * earlier in the group.
   */
  lemma EnemyHitCondition(sc: Scene, i: nat, obstacles: seq<Rect>, screenScroll: int)
    requires i < |sc.bullets| && sc.bullets[i].live
    ensures var f := Flown(sc.bullets[i], obstacles, screenScroll);
            var r := UpdateBullet(sc, i, obstacles, screenScroll);
            forall m :: 0 <= m < |sc.enemies| ==>
              (r.enemies[m] != sc.enemies[m] <==>
                 sc.enemies[m].alive &&
                 (OtherHits(sc.bullets, i, sc.enemies[m].rect) ||
                  (f.live && r.player == sc.player && Overlaps(sc.enemies[m].rect, f.rect) &&
                   forall n :: 0 <= n < m ==> r.enemies[n] == sc.enemies[n])))
  {
    var f := Flown(sc.bullets[i], obstacles, screenScroll);
    var bs1 := sc.bullets[i := f];
    var playerHit := GroupHits(bs1, sc.player.rect) && sc.player.alive;
    var bs2 := if playerHit then Kill(bs1, i) else bs1;
    HitEnemiesCondition(bs2, i, sc.enemies, 0);
    forall m | 0 <= m < |sc.enemies|
      ensures OtherHits(bs2, i, sc.enemies[m].rect) <==> OtherHits(sc.bullets, i, sc.enemies[m].rect)
    {
      if OtherHits(sc.bullets, i, sc.enemies[m].rect) {
        var j :| 0 <= j < |sc.bullets| && j != i && sc.bullets[j].live && Overlaps(sc.enemies[m].rect, sc.bullets[j].rect);
        assert bs2[j] == sc.bullets[j];
      }
    }
    assert bs2[i].live <==> f.live && !playerHit;
    assert UpdateBullet(sc, i, obstacles, screenScroll).player == sc.player <==> !playerHit;
  }

  /** `bullet_group.update()`: every bullet of the group, in order, from bullet `i` on. */
  function UpdateBullets(sc: Scene, i: nat, obstacles: seq<Rect>, screenScroll: int): (r: Scene)
    requires i <= |sc.bullets|
    ensures |r.bullets| == |sc.bullets| && |r.enemies| == |sc.enemies|
    ensures forall j :: 0 <= j < |sc.bullets| && r.bullets[j].live ==> sc.bullets[j].live
    ensures r.player == sc.player.(health := r.player.health)
    ensures r.player.health <= sc.player.health
    decreases |sc.bullets| - i
  {
    if i == |sc.bullets| then sc
    else UpdateBullets(UpdateBullet(sc, i, obstacles, screenScroll), i + 1, obstacles, screenScroll)
  }

  /** Over the group the player loses whole hits, at most one per bullet updated. */
  lemma GroupDamage(sc: Scene, i: nat, obstacles: seq<Rect>, screenScroll: int)
    requires i <= |sc.bullets|
    ensures var r := UpdateBullets(sc, i, obstacles, screenScroll);
            && (sc.player.health - r.player.health) % PLAYER_HIT == 0
            && sc.player.health - r.player.health <= PLAYER_HIT * (|sc.bullets| - i)
  {
    WholeHits(sc, i, obstacles, screenScroll);
    HitsBounded(sc, i, obstacles, screenScroll);
  }

  lemma {:induction false} WholeHits(sc: Scene, i: nat, obstacles: seq<Rect>, screenScroll: int)
    requires i <= |sc.bullets|
    ensures (sc.player.health - UpdateBullets(sc, i, obstacles, screenScroll).player.health) % PLAYER_HIT == 0
    decreases |sc.bullets| - i
  {
    if i < |sc.bullets| {
      var mid := UpdateBullet(sc, i, obstacles, screenScroll);
      var r := UpdateBullets(mid, i + 1, obstacles, screenScroll);
      WholeHits(mid, i + 1, obstacles, screenScroll);
      OneHitAtMost(sc, i, obstacles, screenScroll);
      BulletsUnfold(sc, i, obstacles, screenScroll);
      WoundsAddUp(sc.player.health, mid.player.health, r.player.health);
    }
  }

  lemma {:induction false} HitsBounded(sc: Scene, i: nat, obstacles: seq<Rect>, screenScroll: int)
    requires i <= |sc.bullets|
    ensures sc.player.health - UpdateBullets(sc, i, obstacles, screenScroll).player.health
              <= PLAYER_HIT * (|sc.bullets| - i)
    decreases |sc.bullets| - i
  {
    if i < |sc.bullets| {
      var mid := UpdateBullet(sc, i, obstacles, screenScroll);
      HitsBounded(mid, i + 1, obstacles, screenScroll);
      OneHitAtMost(sc, i, obstacles, screenScroll);
      assert PLAYER_HIT * (|sc.bullets| - i) == PLAYER_HIT * (|sc.bullets| - (i + 1)) + PLAYER_HIT;
    }
  }

  lemma BulletsUnfold(sc: Scene, i: nat, obstacles: seq<Rect>, screenScroll: int)
    requires i < |sc.bullets|
    ensures UpdateBullets(sc, i, obstacles, screenScroll)
              == UpdateBullets(UpdateBullet(sc, i, obstacles, screenScroll), i + 1, obstacles, screenScroll)
  {
  }

  /** One bullet update costs the player one hit or nothing. */
  lemma OneHitAtMost(sc: Scene, i: nat, obstacles: seq<Rect>, screenScroll: int)
    requires i < |sc.bullets|
    ensures var h := UpdateBullet(sc, i, obstacles, screenScroll).player.health;
            h == sc.player.health || h == sc.player.health - PLAYER_HIT
  {
    var r := UpdateBullet(sc, i, obstacles, screenScroll);
    assert r.player == sc.player || r.player == Wound(sc.player, PLAYER_HIT);
  }

  /** One hit or none, followed by a whole number of hits, is a whole number of hits. */
  lemma WoundsAddUp(before: int, mid: int, after: int)
    requires before - mid == 0 || before - mid == PLAYER_HIT
    requires (mid - after) % PLAYER_HIT == 0
    ensures (before - after) % PLAYER_HIT == 0
  {
    var k := (mid - after) / PLAYER_HIT;
    assert mid - after == k * PLAYER_HIT;
    if before - mid == PLAYER_HIT {
      assert before - after == (k + 1) * PLAYER_HIT;
    }
  }

  /** A soldier standing at `rect`, for the scenarios below. */
  function Standing(kind: Kind, rect: Rect): Soldier {
    NewSoldier(kind, rect.CenterX(), rect.CenterY(), rect.w, rect.h, 5, 20, 5, 150, [1, 1, 1, 1, 1], 0)
  }

  /**
   * One bullet update can wound two soldiers, and through another bullet:
   * updating bullet 0, which only touches the player, also wounds an enemy
   * that only bullet 1 touches, and bullet 1 stays in the group.
   */
  lemma OneUpdateWoundsTwo()
    ensures var p := Standing(Player, Rect(100, 100, 40, 40));
            var e := Standing(Enemy, Rect(290, 100, 40, 40));
            var sc := Scene(p, [e], [Bullet(Rect(110, 110, 10, 10), 1, true), Bullet(Rect(300, 110, 10, 10), 1, true)]);
            var r := UpdateBullet(sc, 0, [], 0);
            && r.player.health == p.health - PLAYER_HIT
            && r.enemies[0].health == e.health - ENEMY_HIT
            && !Overlaps(e.rect, r.bullets[0].rect)
            && !r.bullets[0].live && r.bullets[1].live
  {
    var p := Standing(Player, Rect(100, 100, 40, 40));
    var e := Standing(Enemy, Rect(290, 100, 40, 40));
    var b0 := Bullet(Rect(120, 110, 10, 10), 1, true);
    var b1 := Bullet(Rect(300, 110, 10, 10), 1, true);
    var sc := Scene(p, [e], [Bullet(Rect(110, 110, 10, 10), 1, true), b1]);
    assert sc.bullets[0 := b0] == [b0, b1];
    assert [b0, b1][0] == b0 && Overlaps(p.rect, b0.rect);
    assert GroupHits([b0, b1], p.rect);
    var killed := Kill([b0, b1], 0);
    assert killed[1] == b1 && Overlaps(e.rect, b1.rect);
    assert GroupHits(killed, e.rect);
    var r := UpdateBullet(sc, 0, [], 0);
    assert r.player == Wound(p, PLAYER_HIT);
  }
}
