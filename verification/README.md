# Shooter game rules, in Dafny

This project models the rules of a side-scrolling tile shooter written in
Python with pygame (`shooter.py`), together with the three pseudo-random
generators the game ships (`middle_square.py`, `linear_congruential.py`,
`multiplicative_congruential.py`). The model covers the rules and leaves out
the rendering. Every entity is an immutable datatype. Every per-frame method
is a pure function from the old state to the new one.

The modules follow the program:

- `Geometry`: the screen constants, and the integer rectangle that stands in for `pygame.Rect`. `colliderect` is strict overlap.
- `Entities`: the records of the game. These are `Soldier`, `Bullet`, `Grenade`, `Explosion` and `ItemBox`.
- `Soldiers`: the `Soldier` methods that change no position. These are `update`, `update_animation`, `update_action`, `check_alive` and `shoot`.
- `Motion`: `Soldier.move`. This is the obstacle loop in x and y, the hazards, the screen edges and the scroll.
- `Ai`: `Soldier.ai`. This covers the patrol counter, idling, and shooting on sight.
- `Bullets`: `Bullet.update` over the whole bullet group.
- `Grenades`: `Grenade.update` and `Explosion.update`.
- `Pickups`: `ItemBox.update`.
- `Fading`: the counter of `ScreenFade.fade`.
- `Levels`: `World.process_data`, which classifies tile codes, and the empty grid of `reset_level`.
- `Controls`: the player block of the main loop. It covers shoot versus grenade and the animation priority.
- `Lifecycle`: every operation above, applied to one soldier in any order.
- `MiddleSquare`, `LinearCongruential` and `MultiplicativeCongruential`: the generators.
- `Modular`: the division facts they need.

Inputs the program takes from the outside world become parameters:

- The millisecond clock (`pygame.time.get_ticks`) becomes `now`.
- The `random.randint(1, 200) == 1` idle trial becomes the boolean `idleTrial`.
- The pickup amounts become a `delta` with the range the game asks for.
- `time.time()` for the generators becomes the integer `now`.
- The conversion of float coordinates to pixels, done inside `pygame.Rect`, becomes an uninterpreted rounding function `px`.

Velocities stay exact `real`s. A vertical displacement stays fractional (`Disp.Float`) until the obstacle loop snaps it to a tile edge (`Disp.Pixels`).

Where the code and its description disagree, the model follows the code:

- A grenade blast damages a player who is already dead.
- A health box can heal a dead player.
- Health is therefore not kept within [0, max_health].
- One bullet update can wound several soldiers. `spritecollide` looks at the whole bullet group, so the soldiers it wounds include some touched only by other bullets (`Bullets.OneUpdateWoundsTwo`).
- The x pass zeroes `dx` on a wall hit. It does not snap the soldier to the wall.

## Model

| member | source | states |
|---|---|---|
| Soldiers.NewSoldier | shooter.py:197-262 | a new soldier is alive with health 100 equal to max_health, centred on (x, y) with the given size, facing right, in the air, not jumping, with vel_y 0, the given speed, ammunition and grenades, a vision box of the given width and height 20, patrol and idle counters at 0, and idle on image 0 with no cooldown; the soldier invariant holds once every animation row has an image |
| Soldiers.UpdateAnimation | shooter.py:424-439 | the frame index stays a valid index into the current row; Death stops on its last image while every other row wraps to image 0; the frame and timer advance exactly when more than 100 ticks have passed; nothing else changes |
| Soldiers.NextFrame | shooter.py:430-439 | the next image index stays inside the row: a dying soldier stops on the last image, any other row wraps round to 0 |
| Soldiers.UpdateAction | shooter.py:441-451 | asking for the current action changes nothing; any other action becomes current at image 0 with the timer reset to now; a valid frame stays valid |
| Soldiers.CheckAlive | shooter.py:453-459 | a soldier with health <= 0 ends dead with health 0, speed 0 and the Death action, nothing else changing; a positive health changes nothing; a dead soldier never becomes alive; the invariant is kept |
| Soldiers.Die | shooter.py:455-459 | dying zeroes health and speed, clears alive and switches to Death, restarting the row only if the soldier was not already on it; the invariant is kept |
| Soldiers.CheckAliveIdempotent | shooter.py:453-459 | checking a second time, at any later tick, leaves the soldier as the first check left it |
| Soldiers.Update | shooter.py:264-270 | the cooldown drops by one down to 0; afterwards the soldier is alive exactly when it was alive with positive health; only the animation, death and cooldown fields change; the invariant is kept |
| Soldiers.Updates | shooter.py:264-270 | after n updates the cooldown is max(c - n, 0), ammunition is unchanged and a dead soldier is still dead |
| Soldiers.Shoot | shooter.py:368-381 | a bullet is fired exactly when the cooldown is 0 and ammunition is left; then the cooldown is 20 and one round is spent, and the bullet has the shooter's direction and its centre at the shooter's centre height, 0.75 of the shooter's width ahead in x (rounded to pixels); otherwise nothing changes |
| Soldiers.CooldownWindow | shooter.py:368-381 | after a shot, the next shot succeeds after n updates exactly when n >= 20 and at least one round remains |
| Motion.SweepX | shooter.py:311-320 | dx becomes 0 exactly when the x-displaced box overlaps some obstacle; an enemy's move counter is reset when that happens; an enemy whose box overlaps no obstacle where it stands turns round exactly when an obstacle is in its way; a player's direction and counter are untouched |
| Motion.SweepXTurn | shooter.py:311-320 | over the whole obstacle loop, an enemy clear of every obstacle where it stands ends facing the other way exactly when some obstacle overlaps its x-displaced box |
| Motion.SweepYFalling | shooter.py:322-333 | when falling, a miss leaves the vertical state alone; a hit sets vel_y to 0, leaves the air, and puts the bottom on the top of a tile that no later tile overlaps |
| Motion.SweepY | shooter.py:322-333 | any vertical overlap sets vel_y to 0 and snaps dy to whole pixels; a miss changes nothing vertical |
| Motion.Move | shooter.py:272-366 | only position, velocity, jump, air, flip, direction, counter and health change; right beats left for the player's direction; water or falling off the map (checked before moving) zero health; level_complete iff an exit overlaps; the step goes to the soldier or, negated, to the scroll; enemies never scroll; the invariant is kept |
| Motion.MoveScrolls | shooter.py:356-364 | the player scrolls (the step negated into the scroll and taken back from the box) exactly when its stepped box passes within 200 pixels of the right edge with level left to the right, or of the left edge with the background scrolled further than the step |
| Motion.MoveKeepsPlayerOnScreen | shooter.py:349-364 | a player inside the screen stays inside it |
| Motion.MoveBlockedByWall | shooter.py:311-320 | a wall in the way means no horizontal move and no scroll; an enemy's counter restarts, and an enemy clear of every obstacle where it stands turns round |
| Motion.MoveTurnsEnemy | shooter.py:311-320 | an enemy clear of every obstacle where it stands leaves `move` facing the other way exactly when an obstacle blocks its step |
| Motion.MoveUnblocked | shooter.py:349-351 | with no wall, the step is the requested one unless it would take the player off the screen |
| Motion.MoveLeavesNoSideOverlap | shooter.py:311-320 | a soldier clear of every obstacle is still clear of them sideways after its horizontal step |
| Motion.MoveFreeFall | shooter.py:298-354 | with nothing below, a buffered jump on the ground starts at -11, gravity adds 0.75, and the new y is the old y plus the new velocity, rounded to pixels |
| Motion.MoveLands | shooter.py:322-355 | a fall onto an obstacle ends with vel_y 0, on the ground, the bottom on some obstacle's top |
| Ai.PatrolCounts | shooter.py:405-415 | until the counter passes 40 each step adds one and keeps the direction |
| Ai.PatrolSplit | shooter.py:405-415 | m + n patrol steps are m steps followed by n steps |
| Ai.PatrolBounces | shooter.py:413-415 | from 0 an enemy turns after 41 steps and then every 82 steps |
| Ai.IdleLasts | shooter.py:416-419 | a countdown from c keeps idling for exactly c - 1 further frames |
| Ai.Scrolled | shooter.py:421-422 | the scroll keeps the soldier and patrol invariants |
| Ai.Patrolling | shooter.py:397-415 | the walk branch is the move one step towards the facing side and the Run action, followed by the patrol count with its turn past 40; position, health and vertical state are the move's; the vision box keeps its size and is re-centred half its width ahead of the moved soldier, on the side it faced after the move, at its centre height; the invariants are kept |
| Ai.MaybeIdle | shooter.py:386-389 | a successful idle trial starts 50 idle frames on the Idle action; otherwise nothing changes |
| Ai.Engage | shooter.py:391-395 | a soldier in sight switches to Idle and fires exactly when its cooldown is 0 and ammunition is left |
| Ai.Pausing | shooter.py:416-419 | the idle branch counts down and stops idling at 0; nothing else changes |
| Ai.Decide | shooter.py:384-419 | a player in sight means Idle in place and a shot exactly when the cooldown is 0 and ammunition is left; out of sight there is no shot: an enemy whose idle draw came up starts the 50-frame pause on Idle and counts its first frame in place, and an idling one counts down in place; one round per bullet; the invariants are kept |
| Ai.DecideWalks | shooter.py:384-415 | out of sight, a walking enemy whose idle draw failed takes exactly the patrol step of the walk branch and fires nothing |
| Ai.AiStep | shooter.py:383-422 | a dead enemy or dead player means only the scroll; a player in sight means Idle, moved only by the scroll, and a shot exactly when the cooldown is 0 and ammunition is left; one round per bullet; the enemy stays alive and an enemy; the invariants are kept |
| Ai.AiStepOutOfSight | shooter.py:396-422 | with the player out of sight there is no shot; a walking enemy whose idle draw failed takes exactly the patrol step and then the scroll; one whose draw came up starts the pause, counts its first frame and moves only with the scroll; an idling one counts its pause down and moves only with the scroll |
| Bullets.HitEnemies | shooter.py:732-736 | each enemy loses 25 exactly or nothing, and only while alive; only the updated bullet can leave the group; a bullet that stays live wounds nobody |
| Bullets.HitEnemiesCondition | shooter.py:732-736 | an enemy is wounded exactly when alive and either another live bullet overlaps it or the updated bullet is still live, overlaps it, and has wounded no enemy before it |
| Bullets.Flown | shooter.py:716-725 | the bullet moves by 10 per direction plus the scroll, and stays in the group exactly when its moved box is on screen and inside no obstacle |
| Bullets.UpdateBullet | shooter.py:716-736 | the bullet moves by 10 per direction plus the scroll; the player loses 5 or nothing, each enemy 25 or nothing, only while alive; any damage removes the bullet; other bullets are unchanged |
| Bullets.EnemyHitCondition | shooter.py:716-736 | in one bullet's update an enemy is wounded exactly when alive and either another live bullet overlaps it, or the moved bullet survived the walls, the screen edge and the player, overlaps it, and wounded no earlier enemy |
| Bullets.PlayerHitCondition | shooter.py:727-730 | the player is wounded exactly when alive and some live bullet of the group overlaps them after the move |
| Bullets.UpdateBullets | shooter.py:716-736 | over the group no removed bullet returns, the group sizes stay, and the player only loses health |
| Bullets.GroupDamage | shooter.py:716-736 | over the group the player loses a whole number of 5-point hits, at most one per bullet updated |
| Bullets.OneHitAtMost | shooter.py:727-730 | one bullet's update costs the player 5 or nothing |
| Bullets.OneUpdateWoundsTwo | shooter.py:727-736 | one bullet's update can wound the player and an enemy that only another bullet touches |
| Grenades.NewGrenade | shooter.py:746-763 | a grenade starts with fuse 100, speed 7, vel_y -11, the thrower's direction and the grenade size, centred on (x rounded to pixels, y) |
| Grenades.GrenadeSweep | shooter.py:772-791 | the tile loop only flips the direction and only stops the slide |
| Grenades.GrenadeSweepFree | shooter.py:772-791 | with no tile touched the loop changes nothing |
| Grenades.GrenadeSweepY | shooter.py:781-791 | with no tile touched vertically the loop keeps speed, vel_y and dy; with any, the speed and vel_y end at 0 and dy is snapped to whole pixels |
| Grenades.GrenadeSweepLands | shooter.py:781-791 | a falling grenade that touches tiles vertically ends with its bottom on the top of the last tile it touches, which no later tile overlaps |
| Grenades.GrenadeNoBounce | shooter.py:775-780 | with no tile in the way sideways the loop keeps the direction and dx |
| Grenades.GrenadeBounce | shooter.py:775-780 | a grenade clear of every tile where it stands and one step back turns round exactly when a tile is in its way, and without vertical contact travels the reversed step |
| Grenades.Fly | shooter.py:765-798 | one update takes one tick off the fuse; the direction can only flip; vertical contact with any tile stops the slide and zeroes vel_y, and otherwise gravity adds 0.75, the speed stays and the box falls to the old y plus the velocity, rounded |
| Grenades.FlyFree | shooter.py:765-798 | in free flight gravity adds 0.75, the box moves by speed times direction plus the scroll and falls to the old y plus the velocity, rounded, keeping direction and speed |
| Grenades.FlyBounces | shooter.py:765-795 | a grenade clear of every tile where it stands and one step back leaves the update facing the other way exactly when a tile blocks its step, and without vertical contact moves by the reversed step plus the scroll |
| Grenades.FlyLands | shooter.py:765-795 | a grenade coming down onto a tile stops sliding, loses its vertical velocity and rests its bottom on the top of an obstacle |
| Grenades.Splash | shooter.py:804-815 | a soldier whose centre is less than 80 pixels away on both axes loses 50; nothing else changes |
| Grenades.UpdateGrenade | shooter.py:765-815 | the grenade is removed exactly when its fuse runs out, leaving an explosion at its moved corner; then the player (alive or not) and every enemy get the blast once; before that nobody is hurt |
| Grenades.NewExplosion | shooter.py:825-846 | a new explosion is centred on the given point with the explosion size, at image 0 with its counter at 0 |
| Grenades.FuseBurns | shooter.py:798-799 | a fuse of t detonates on the t-th update and not before |
| Grenades.ThrownGrenadeFuse | shooter.py:755-799 | a thrown grenade detonates on its 100th update |
| Grenades.UpdateExplosion | shooter.py:849-865 | the explosion scrolls, ages by one tick, and is removed exactly after its last tick on the fifth image |
| Grenades.ExplosionLifetime | shooter.py:856-863 | an explosion is removed after exactly the ticks it has left |
| Grenades.FreshExplosionLasts | shooter.py:856-863 | a new explosion lasts 20 updates |
| Pickups.Collect | shooter.py:650-656 | a health box adds the draw capped at max_health, an ammo or grenade box adds the draw uncapped; nothing else changes; a health of at most max_health rises and stays at most max_health; ammunition and grenades never drop; the invariant is kept |
| Pickups.UpdateItemBox | shooter.py:643-659 | a box disappears exactly when its scrolled rectangle touches the player, and then the player collects it; an untouched box only scrolls and leaves the player alone; the invariant is kept |
| Pickups.UpdateItemBoxes | shooter.py:643-659 | the group keeps exactly the boxes the player does not touch; only health, ammunition and grenades change; health stays within its bounds; the invariant is kept |
| Pickups.UntouchedMiss | shooter.py:646-659 | no box left in the group touches the player |
| Pickups.NothingLeftToPick | shooter.py:646-659 | with no box touching the player the update changes nothing |
| Pickups.PickedOnce | shooter.py:646-659 | each box applies its effect once: a second update without scroll changes nothing |
| Fading.Fade | shooter.py:875-913 | the counter grows by the speed, nothing else changes, and completion is reported exactly when the new counter reaches the screen width (800) |
| Fading.Fades | shooter.py:875-877 | after n calls the counter has grown by n times the speed |
| Fading.FadeStaysComplete | shooter.py:875-913 | with a non-negative speed, once a call reports completion every later call does too |
| Fading.FadeTakes200Calls | shooter.py:910-913 | the intro fade (speed 4) first completes on its 200th call |
| Levels.Classify | shooter.py:486-527 | negative codes are empty, 0-8 obstacles, 9-10 water, 11-14 decoration, 15 player, 16 enemy, 17-19 boxes, 20 exit, and 21 or more have no image |
| Levels.GridCellsAre | shooter.py:485-486 | the cells visited are exactly the grid's cells |
| Levels.GridCellsOrdered | shooter.py:485-486 | the cells are visited row by row, each row left to right |
| Levels.BuildFacts | shooter.py:485-527 | the loop succeeds exactly when every code has an image; it then holds, for each of obstacles, water, decorations and exits, exactly the squares of that kind's codes, exactly an enemy per code 16 and a box per code 17-19 of the matching kind, and the player of the last code 15 in visit order |
| Levels.ProcessData | shooter.py:474-527 | an empty grid fails with no rows, and only an empty grid does; an unknown-tile failure names a code without an image; a loaded level has a player and is as long as the first row |
| Levels.LastPlayerOfGrid | shooter.py:502-507 | the player tile kept is a code 15 with no other code 15 after it in row-by-row order |
| Levels.ProcessDataFacts | shooter.py:474-527 | loading fails exactly on an empty grid, an unknown code or a missing player tile, and with no player tile but known codes it fails for want of a player; otherwise each kind's squares are exactly the squares of its codes (0-8 obstacles, 9-10 water, 11-14 decoration, 20 exit), enemies stand exactly on code 16, each box exactly on its code (17 ammo, 18 grenade, 19 health), the player on the last code 15 in row-by-row order, and the level is as long as the first row |
| Levels.ResetGrid | shooter.py:178-184 | the cleared grid has 16 rows of 150 empty (-1) codes |
| Levels.ResetGridIsNoLevel | shooter.py:178-184 | loading the cleared grid fails for want of a player |
| Controls.Priority | shooter.py:1035-1042 | airborne shows Jump, else shooting shows Shoot, else moving shows Run, else Idle, each exactly in its case |
| Controls.Throw | shooter.py:1025-1030 | a thrown grenade has the full fuse, speed 7, vel_y -11 and the player's direction, centred at the player's top and half the player's width ahead of its centre (rounded) |
| Controls.Fire | shooter.py:1018-1034 | the shoot key wins; a grenade needs the key, an open latch and stock, and closes the latch; one grenade or one round is spent; the invariant is kept |
| Controls.Animate | shooter.py:1035-1042 | the action becomes the priority choice; a changed action restarts at image 0 at now; only the animation fields change |
| Controls.PlayerActions | shooter.py:1018-1042 | a dead player does nothing; a live one launches exactly what the key handling launches, and then only the animation changes, following the priority; a changed action restarts at image 0; the invariant is kept |
| Controls.OneGrenadePerPress | shooter.py:1024-1034 | holding the grenade key throws a single grenade |
| Lifecycle.Apply | shooter.py:453-459 | every operation keeps the invariants and never brings a dead soldier back |
| Lifecycle.ApplyAll | shooter.py:453-459 | any sequence of operations keeps the invariants and never brings a dead soldier back |
| Lifecycle.DeadStaysDead | shooter.py:453-459 | once dead at some point of a sequence, dead at its end |
| MiddleSquare.ZFillStr | middle_square.py:9 | `str(n).zfill(w)` is the last w decimal digits of n when n has at most w digits |
| MiddleSquare.SeedStrParses | middle_square.py:9 | the padded seed string reads back as the seed |
| MiddleSquare.MiddleDigits | middle_square.py:15-21 | the square padded to 8 characters and sliced [2:6] is 4 characters reading (s*s / 100) mod 10000 |
| MiddleSquare.New | middle_square.py:5-11 | the seed is the clock mod 10000, and its string has 4 characters and reads back as the seed |
| MiddleSquare.Generate | middle_square.py:13-31 | the draw is the middle digits over 10000, hence in [0, 1); the next state is the seed plus one mod 10000 |
| MiddleSquare.NextIgnoresMiddle | middle_square.py:22-29 | the next state depends on the seed alone |
| MiddleSquare.IterateSeed | middle_square.py:28-29 | after n calls the seed is (seed + n) mod 10000 |
| MiddleSquare.CycleReturns | middle_square.py:11-28 | the state comes back after 10000 calls |
| MiddleSquare.NoShorterCycle | middle_square.py:28 | no smaller positive number of calls brings the state back |
| LinearCongruential.New | linear_congruential.py:13 | the seed is the clock reduced into [0, 2^32) |
| LinearCongruential.Generate | linear_congruential.py:15-21 | the new seed is congruent to 1664525 * seed + 1013904223 mod 2^32 and lies in [0, 2^32); the draw is it over 2^32, in [0, 1) |
| LinearCongruential.PreviousUndoesGenerate | linear_congruential.py:17 | the update can be undone by the inverse multiplier, so it permutes the 2^32 states |
| LinearCongruential.GenerateInjective | linear_congruential.py:17 | two states advance to the same state exactly when they are equal |
| LinearCongruential.Draws | linear_congruential.py:15-21 | every draw of a run lies in [0, 1) |
| MultiplicativeCongruential.New | multiplicative_congruential.py:7 | the seed is the clock reading, not reduced |
| MultiplicativeCongruential.Generate | multiplicative_congruential.py:9-21 | after any call, whatever the seed, the seed is in [0, 2^32) and the draw is it over 2^32, in [0, 1) |
| MultiplicativeCongruential.GenerateIsLinear | multiplicative_congruential.py:11-16 | a call gives the same state and draw as the linear generator seeded from the same reading |
| MultiplicativeCongruential.SameDrawsAsLinear | multiplicative_congruential.py:9-21 | from the same clock reading both generators return the same numbers on every call |

## Left out

- Rendering, sound, fonts, buttons, the event loop and `HealthBar` are not modelled. They are side effects with no rule to state.
- Reading level CSV files is not modelled. The tile grid is an input.
- `Decoration`, `Water` and `Exit` only add the scroll to their x, so they are not modelled. The level's hazards and exits are passed to `Motion.Move` as rectangle lists.
- The obstacle rectangles are not scrolled. `World.draw` does that as part of drawing, so each step takes the obstacle list as it is.
- The `generate_number(min, max)` range mapping behind the pickup amounts and the vision width is not visible in the generators' code. The amounts are inputs restricted to 15-25 (health), 5-15 (ammo) and 1-3 (grenades), and the vision width is a parameter of `Soldiers.NewSoldier`.
- Level progression, the intro-fade restart and the menus are not modelled. They are orchestration of the main loop with no terminal state.
- Sprite-group order only shows up in the model as the order of sequences.
- Motion.Move: the vertical part of the contract is stated through `Motion.SweepY` and the landing lemmas. Its rising branch is stated only as far as `Motion.SweepY` states it.
- Motion.SweepY: a soldier rising into a ceiling is only stated as stopped (velocity 0) and snapped to whole pixels, not snapped to the exact ceiling edge. A falling one is stated exactly by `Motion.SweepYFalling`.
- Motion.SweepX: the enemy's turn is stated exactly only for an enemy whose box overlaps no obstacle where it stands. For one already inside an obstacle, every overlapping tile flips it again, and the contract only says the direction can flip.
- Grenades.GrenadeBounce: the same holds for the grenade. The exact turn needs a box clear of every tile where it stands and one step back, since a reversed step can hit another tile and turn it again.
- Grenades.GrenadeSweepY: a rising grenade that hits a ceiling is only stated as stopped and snapped to whole pixels, not snapped to the exact ceiling edge. A falling one is stated exactly by `Grenades.GrenadeSweepLands`.
- Grenades.UpdateGrenade: the explosion is centred on the moved rectangle's corner `(x, y)`. That is where `Explosion(self.rect.x, self.rect.y, 0.5)` puts it. The explosion image scale is not modelled.
- MiddleSquare.Generate: the draw is the exact ratio `(s*s / 100 mod 10000) / 10000`. Python's `/` returns the nearest double to that ratio, for example the double nearest 0.0001 for the middle digits "0001". Floating point is not modelled. The congruential draws lose nothing here, because a seed below 2^32 divided by 2^32 is an exact double.
- MiddleSquare.Generate: the draw is stated for the states the generator can reach (`Valid`). For any other string, Python's `int` would raise, and the model's digit reading is unspecified.
- The `seed_str := middle` assignment in `generate_number` is overwritten before it is read. It only shows up as `MiddleSquare.NextIgnoresMiddle`.
- Lifecycle.Apply: direct calls of `update_action` on a dead soldier are not among the events. The code only makes them while the soldier is alive, through `Controls` and `Ai`.
