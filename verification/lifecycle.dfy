/**
 * Everything the rules do to one soldier over its life, as a sequence of
 * events. Whatever the order, a dead soldier never comes back to life and
 * the soldier invariants hold after every event.
 */
module Lifecycle {
  import opened Prelude
  import opened Geometry
  import opened Entities
  import opened Soldiers
  import opened Motion
  import opened Ai
  import opened Bullets
  import opened Grenades
  import opened Pickups
  import opened Controls

  /** One thing that can happen to a soldier during a frame. */
  datatype Event =
    | Tick(now: int)
    | Walk(lvl: Level, bgScroll: int, movingLeft: bool, movingRight: bool, px: Rounding)
    | PlayerKeys(keys: Keys, grenadeThrown: bool, now: int, sizes: Sizes, px: Rounding)
    | Think(player: Soldier, lvl: Level, idleTrial: bool, screenScroll: int, now: int, sizes: Sizes, px: Rounding)
    | BulletHit(damage: nat)
    | Blast(centre: Rect)
    | Pickup(box: ItemBox, screenScroll: int, delta: int)

  /** What a soldier keeps between events; enemies also keep their patrol counters in range. */
  predicate LifeInv(s: Soldier) {
    Inv(s) && (s.kind == Enemy ==> AiInv(s))
  }

  /** The draws a pickup event carries are the ones the game can make. */
  predicate EventValid(ev: Event) {
    ev.Pickup? ==> ValidDelta(ev.box.kind, ev.delta)
  }

  /** What every event keeps: the invariant, death, and the kind of soldier. */
  predicate Keeps(s: Soldier, r: Soldier) {
    LifeInv(r) && (r.alive ==> s.alive) && r.kind == s.kind
  }

  lemma TickKeeps(s: Soldier, now: int)
    requires LifeInv(s)
    ensures Keeps(s, Update(s, now))
  {
  }

  lemma WalkKeeps(s: Soldier, lvl: Level, bgScroll: int, ml: bool, mr: bool, px: Rounding)
    requires LifeInv(s)
    ensures Keeps(s, Move(s, lvl, bgScroll, ml, mr, px).soldier)
  {
  }

  lemma KeysKeep(s: Soldier, keys: Keys, thrown: bool, now: int, sizes: Sizes, px: Rounding)
    requires LifeInv(s)
    ensures Keeps(s, PlayerActions(s, keys, thrown, now, sizes, px).player)
  {
  }

  lemma ThinkKeeps(s: Soldier, player: Soldier, lvl: Level, idleTrial: bool, scroll: int, now: int,
                   sizes: Sizes, px: Rounding)
    requires LifeInv(s) && s.kind == Enemy
    ensures Keeps(s, AiStep(s, player, lvl, idleTrial, scroll, now, sizes, px).enemy)
  {
  }

  lemma PickupKeeps(s: Soldier, box: ItemBox, scroll: int, delta: int)
    requires LifeInv(s) && ValidDelta(box.kind, delta)
    ensures Keeps(s, UpdateItemBox(box, s, scroll, delta).player)
  {
  }

  /** The soldier after one event. */
  function Apply(s: Soldier, ev: Event): (r: Soldier)
    requires LifeInv(s) && EventValid(ev)
    ensures LifeInv(r)
    ensures r.alive ==> s.alive
    ensures r.kind == s.kind
  {
    match ev
    case Tick(now) =>
      TickKeeps(s, now);
      Update(s, now)
    case Walk(lvl, bgScroll, ml, mr, px) =>
      WalkKeeps(s, lvl, bgScroll, ml, mr, px);
      Move(s, lvl, bgScroll, ml, mr, px).soldier
    case PlayerKeys(keys, thrown, now, sizes, px) =>
      KeysKeep(s, keys, thrown, now, sizes, px);
      PlayerActions(s, keys, thrown, now, sizes, px).player
    case Think(player, lvl, idleTrial, scroll, now, sizes, px) =>
      if s.kind == Enemy then
        ThinkKeeps(s, player, lvl, idleTrial, scroll, now, sizes, px);
        AiStep(s, player, lvl, idleTrial, scroll, now, sizes, px).enemy
      else s
    case BulletHit(damage) => Wound(s, damage)
    case Blast(centre) => Splash(centre, s)
    case Pickup(box, scroll, delta) =>
      PickupKeeps(s, box, scroll, delta);
      UpdateItemBox(box, s, scroll, delta).player
  }

  predicate AllValid(evs: seq<Event>) {
    forall i :: 0 <= i < |evs| ==> EventValid(evs[i])
  }

  /** The soldier after a whole sequence of events. */
  function ApplyAll(s: Soldier, evs: seq<Event>): (r: Soldier)
    requires LifeInv(s) && AllValid(evs)
    ensures LifeInv(r)
    ensures r.alive ==> s.alive
    decreases |evs|
  {
    if |evs| == 0 then s
    else
      assert EventValid(evs[0]);
      assert AllValid(evs[1..]) by {
        forall i | 0 <= i < |evs[1..]| ensures EventValid(evs[1..][i]) {
          assert evs[1..][i] == evs[i + 1];
        }
      }
      ApplyAll(Apply(s, evs[0]), evs[1..])
  }

  /** Once dead, a soldier stays dead through any later events. */
  lemma {:induction false} DeadStaysDead(s: Soldier, evs: seq<Event>, k: nat)
    requires LifeInv(s) && AllValid(evs) && k <= |evs|
    requires !ApplyAll(s, evs[..k]).alive
    ensures !ApplyAll(s, evs).alive
    decreases |evs|
  {
    if k > 0 {
      var s1 := Apply(s, evs[0]);
      assert evs[..k][0] == evs[0] && evs[..k][1..] == evs[1..][..k - 1];
      assert AllValid(evs[1..]) by {
        forall i | 0 <= i < |evs[1..]| ensures EventValid(evs[1..][i]) {
          assert evs[1..][i] == evs[i + 1];
        }
      }
      DeadStaysDead(s1, evs[1..], k - 1);
    }
  }
}
