/**
 * `ItemBox.update`: a box the player touches applies one resource delta and
 * disappears.
 */
module Pickups {
  import opened Prelude
  import opened Geometry
  import opened Entities
  import opened Soldiers

  /** The draw ranges the game asks its generators for. */
  predicate ValidDelta(kind: ItemKind, delta: int) {
    match kind
    case HealthItem => 15 <= delta <= 25
    case AmmoItem => 5 <= delta <= 15
    case GrenadeItem => 1 <= delta <= 3
  }

  /** The player after collecting a box of `kind` worth `delta`. */
  function Collect(kind: ItemKind, player: Soldier, delta: int): (p: Soldier)
    requires ValidDelta(kind, delta)
    ensures kind == HealthItem ==> p == player.(health := Min(player.health + delta, player.maxHealth))
    ensures kind == AmmoItem ==> p == player.(ammo := player.ammo + delta)
    ensures kind == GrenadeItem ==> p == player.(grenades := player.grenades + delta)
    ensures p == player.(health := p.health, ammo := p.ammo, grenades := p.grenades)
    ensures player.health <= player.maxHealth ==> player.health <= p.health <= player.maxHealth
    ensures p.ammo >= player.ammo && p.grenades >= player.grenades
    ensures Inv(player) ==> Inv(p)
  {
    match kind
    case HealthItem => player.(health := Min(player.health + delta, player.maxHealth))
    case AmmoItem => player.(ammo := player.ammo + delta)
    case GrenadeItem => player.(grenades := player.grenades + delta)
  }

  /** The box (while it stays in its group) and the player after the update. */
  datatype PickupOutcome = PickupOutcome(box: Option<ItemBox>, player: Soldier)

  /**
   * `ItemBox.update` with `delta` the generator's draw: the box moves with
   * the world; if it then touches the player, health rises by the draw but
   * not past the maximum, ammunition and grenades rise by the draw, and the
   * box is gone.
   */
  function UpdateItemBox(b: ItemBox, player: Soldier, screenScroll: int, delta: int): (r: PickupOutcome)
    requires ValidDelta(b.kind, delta)
    ensures r.box.None? <==> Overlaps(b.rect.Shift(screenScroll, 0), player.rect)
    ensures r.box.Some? ==> r.box.value == b.(rect := b.rect.Shift(screenScroll, 0)) && r.player == player
    ensures r.box.None? ==> r.player == Collect(b.kind, player, delta)
    ensures r.player == player.(health := r.player.health, ammo := r.player.ammo, grenades := r.player.grenades)
    ensures player.health <= player.maxHealth ==> player.health <= r.player.health <= player.maxHealth
    ensures r.player.ammo >= player.ammo && r.player.grenades >= player.grenades
    ensures Inv(player) ==> Inv(r.player)
  {
    var rect := b.rect.Shift(screenScroll, 0);
    if Overlaps(rect, player.rect) then
      PickupOutcome(None, Collect(b.kind, player, delta))
    else
      PickupOutcome(Some(b.(rect := rect)), player)
  }

  /** Every box gets a draw in its own range. */
  predicate ValidDeltas(boxes: seq<ItemBox>, deltas: seq<int>) {
    |deltas| == |boxes| && forall k :: 0 <= k < |boxes| ==> ValidDelta(boxes[k].kind, deltas[k])
  }

  /** The boxes, moved by the scroll, that do not touch `r`. */
  function Untouched(boxes: seq<ItemBox>, r: Rect, screenScroll: int): seq<ItemBox> {
    if |boxes| == 0 then []
    else
      var b := boxes[0].(rect := boxes[0].rect.Shift(screenScroll, 0));
      (if Overlaps(b.rect, r) then [] else [b]) + Untouched(boxes[1..], r, screenScroll)
  }

  lemma ValidDeltasTail(boxes: seq<ItemBox>, deltas: seq<int>)
    requires |boxes| > 0 && ValidDeltas(boxes, deltas)
    ensures ValidDeltas(boxes[1..], deltas[1..])
  {
    forall k | 0 <= k < |boxes| - 1
      ensures ValidDelta(boxes[1..][k].kind, deltas[1..][k])
    {
      assert boxes[1..][k] == boxes[k + 1] && deltas[1..][k] == deltas[k + 1];
    }
  }

  /** The boxes left in the group and the player after `item_box_group.update()`. */
  datatype GroupOutcome = GroupOutcome(boxes: seq<ItemBox>, player: Soldier)

  /** `item_box_group.update()`, box `k` drawing `deltas[k]` if it is picked up. */
  function UpdateItemBoxes(boxes: seq<ItemBox>, player: Soldier, screenScroll: int, deltas: seq<int>): (r: GroupOutcome)
    requires ValidDeltas(boxes, deltas)
    ensures r.boxes == Untouched(boxes, player.rect, screenScroll)
    ensures r.player == player.(health := r.player.health, ammo := r.player.ammo, grenades := r.player.grenades)
    ensures player.health <= player.maxHealth ==> player.health <= r.player.health <= player.maxHealth
    ensures r.player.ammo >= player.ammo && r.player.grenades >= player.grenades
    ensures Inv(player) ==> Inv(r.player)
    decreases |boxes|
  {
    if |boxes| == 0 then GroupOutcome([], player)
    else
      assert ValidDelta(boxes[0].kind, deltas[0]);
      var o := UpdateItemBox(boxes[0], player, screenScroll, deltas[0]);
      ValidDeltasTail(boxes, deltas);
      var rest := UpdateItemBoxes(boxes[1..], o.player, screenScroll, deltas[1..]);
      GroupOutcome((if o.box.Some? then [o.box.value] else []) + rest.boxes, rest.player)
  }

  /** A box that stays in the group does not touch the player. */
  lemma {:induction false} UntouchedMiss(boxes: seq<ItemBox>, r: Rect, screenScroll: int)
    ensures forall b :: b in Untouched(boxes, r, screenScroll) ==> !Overlaps(b.rect, r)
    ensures |Untouched(boxes, r, screenScroll)| <= |boxes|
    decreases |boxes|
  {
    if |boxes| > 0 {
      UntouchedMiss(boxes[1..], r, screenScroll);
    }
  }

  /** No box can be picked up twice: a group whose boxes all miss the player changes nothing. */
  lemma {:induction false} NothingLeftToPick(boxes: seq<ItemBox>, player: Soldier, deltas: seq<int>)
    requires ValidDeltas(boxes, deltas)
    requires forall b :: b in boxes ==> !Overlaps(b.rect, player.rect)
    ensures UpdateItemBoxes(boxes, player, 0, deltas) == GroupOutcome(boxes, player)
    decreases |boxes|
  {
    if |boxes| > 0 {
      assert boxes[0] in boxes;
      assert boxes[0].rect.Shift(0, 0) == boxes[0].rect;
      assert boxes[0].(rect := boxes[0].rect) == boxes[0];
      assert forall b :: b in boxes[1..] ==> b in boxes;
      NothingLeftToPick(boxes[1..], player, deltas[1..]);
      assert [boxes[0]] + boxes[1..] == boxes;
    }
  }

  /** After one update of the group, a second one (in the same place) picks nothing up. */
  lemma PickedOnce(boxes: seq<ItemBox>, player: Soldier, screenScroll: int, deltas: seq<int>, deltas2: seq<int>)
    requires ValidDeltas(boxes, deltas)
    requires ValidDeltas(UpdateItemBoxes(boxes, player, screenScroll, deltas).boxes, deltas2)
    ensures var r := UpdateItemBoxes(boxes, player, screenScroll, deltas);
            UpdateItemBoxes(r.boxes, r.player, 0, deltas2) == r
  {
    var r := UpdateItemBoxes(boxes, player, screenScroll, deltas);
    UntouchedMiss(boxes, player.rect, screenScroll);
    NothingLeftToPick(r.boxes, r.player, deltas2);
  }
}
