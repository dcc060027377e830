/** The sparse tab orders of a placement group, and the one default control a group may have.
    Positions are kept beside the controls: position i belongs to control i. */
module TabOrder {
  import opened FormModel
  import opened Limits
  import opened Optional
  import opened Placement
  import opened Sequences

  /** The control that an ID leads to. */
  function SlotOf(d: Document, id: ObjectId): (slot: Option<nat>)
    ensures slot.Some? ==> slot.value < |d.controls| && d.controls[slot.value].id == id
    ensures slot.Some? <==> Resolves(d, ControlRef(id))
  {
    match Resolve(d, ControlRef(id))
    case None => None
    case Some(o) => Some(o.index)
  }

  function ReadBack(stored: Property<Option<int>>, i: nat): Option<int> {
    match stored case Implicit => Some(i + 1) case Explicit(order) => order
  }

  /** The order a member reads back: its own value, or its place in the group. */
  function OrderAt(d: Document, ps: seq<Position>, ids: seq<ObjectId>, i: nat): Option<int>
    requires |ps| == |d.controls| && i < |ids|
  {
    match SlotOf(d, ids[i])
    case None => None
    case Some(slot) => ReadBack(ps[slot].tabOrder, i)
  }

  /** Orders that number a group from 1 to its size. */
  ghost predicate Numbering(orders: seq<int>) {
    (forall i :: 0 <= i < |orders| ==> 1 <= orders[i] <= |orders|) && Distinct(orders)
  }

  ghost predicate Reads(d: Document, ps: seq<Position>, ids: seq<ObjectId>, orders: seq<int>)
    requires |ps| == |d.controls|
  {
    |orders| == |ids| && forall i :: 0 <= i < |ids| ==> OrderAt(d, ps, ids, i) == Some(orders[i])
  }

  ghost function OrdersOf(d: Document, ps: seq<Position>, ids: seq<ObjectId>): (r: Option<seq<int>>)
    requires |ps| == |d.controls|
    ensures r.Some? ==> Reads(d, ps, ids, r.value) && Numbering(r.value)
    ensures forall orders :: Reads(d, ps, ids, orders) && Numbering(orders) ==> r == Some(orders)
  {
    if forall i :: 0 <= i < |ids| ==> OrderAt(d, ps, ids, i).Some? then
      var orders := seq(|ids|, i requires 0 <= i < |ids| => OrderAt(d, ps, ids, i).value);
      assert forall other :: Reads(d, ps, ids, other) ==> other == orders;
      if Numbering(orders) then Some(orders) else None
    else
      assert forall orders :: !Reads(d, ps, ids, orders);
      None
  }

  datatype TabOrderGroup = TabOrderGroup(ids: seq<ObjectId>, orders: seq<int>, targetIndex: nat)

  ghost function GroupFor(d: Document, ps: seq<Position>, target: ObjectId): (g: Option<TabOrderGroup>)
    requires |ps| == |d.controls|
    ensures g.Some? ==> g.value.targetIndex < |g.value.ids| && g.value.ids[g.value.targetIndex] == target
    ensures g.Some? ==> Reads(d, ps, g.value.ids, g.value.orders) && Numbering(g.value.orders)
    ensures g.Some? ==> PlacementGroup(d, target) == Some(g.value.ids) && |g.value.orders| == |g.value.ids| <= MAX_INT32
  {
    match PlacementGroup(d, target)
    case None => None
    case Some(ids) =>
      if |ids| > MAX_INT32 then None
      else
        match IndexOf(ids, target)
        case None => None
        case Some(t) =>
          match OrdersOf(d, ps, ids)
          case None => None
          case Some(orders) => Some(TabOrderGroup(ids, orders, t))
  }

  method FindGroup(d: Document, ps: seq<Position>, target: ObjectId) returns (g: Option<TabOrderGroup>)
    requires |ps| == |d.controls|
    ensures g == GroupFor(d, ps, target)
  {
    hide PlacementGroup, OrdersOf, IndexOf, OrderAt, Numbering;
    var ids := PlacementControlGroup(d, target);
    if ids.None? || |ids.value| > MAX_INT32 { return None; }
    var found := IndexOf(ids.value, target);
    if found.None? { return None; }
    var orders := ReadOrders(d, ps, ids.value);
    if orders.None? { return None; }
    g := Some(TabOrderGroup(ids.value, orders.value, found.value));
  }

  method ReadOrders(d: Document, ps: seq<Position>, ids: seq<ObjectId>) returns (r: Option<seq<int>>)
    requires |ps| == |d.controls|
    ensures r == OrdersOf(d, ps, ids)
  {
    hide OrdersOf, OrderAt;
    var orders: seq<int>, seen: set<int> := [], {};
    for i := 0 to |ids|
      invariant |orders| == i && seen == set x | x in orders
      invariant forall k :: 0 <= k < i ==> OrderAt(d, ps, ids, k) == Some(orders[k])
      invariant forall k :: 0 <= k < i ==> 1 <= orders[k] <= |ids|
      invariant Distinct(orders)
    {
      var value := OrderAt(d, ps, ids, i);
      if value.None? || value.value <= 0 || value.value > |ids| || value.value in seen {
        ReadFails(d, ps, ids, i, orders);
        return None;
      }
      orders := orders + [value.value];
      seen := seen + {value.value};
    }
    r := Some(orders);
  }

  lemma {:induction false} ReadFails(d: Document, ps: seq<Position>, ids: seq<ObjectId>, i: nat, orders: seq<int>)
    requires |ps| == |d.controls| && i < |ids| && |orders| == i
    requires forall k :: 0 <= k < i ==> OrderAt(d, ps, ids, k) == Some(orders[k])
    requires match OrderAt(d, ps, ids, i) case None => true case Some(v) => v <= 0 || v > |ids| || v in orders
    ensures OrdersOf(d, ps, ids) == None
  {
    hide OrderAt, OrdersOf;
  }

  ghost function ReadTabOrder(d: Document, ps: seq<Position>, id: ObjectId): Option<int>
    requires |ps| == |d.controls|
  {
    match GroupFor(d, ps, id)
    case None => None
    case Some(g) => Some(g.orders[g.targetIndex])
  }

  // ---------- Storing orders ----------

  /** An order equal to the place in the group is stored as the default. */
  function Encoded(order: int, i: nat): Property<Option<int>> {
    if order == i + 1 then Implicit else Explicit(Some(order))
  }

  function StoreAt(d: Document, ps: seq<Position>, id: ObjectId, order: int, i: nat): (ps': seq<Position>)
    requires |ps| == |d.controls|
    ensures |ps'| == |ps|
  {
    match SlotOf(d, id)
    case None => ps
    case Some(slot) => ps[slot := ps[slot].(tabOrder := Encoded(order, i))]
  }

  /** The positions after the first k members of a group received new orders; a member whose order
      stays as it was is not touched when kept says so. */
  ghost function Stored(d: Document, ps: seq<Position>, ids: seq<ObjectId>, orders: seq<int>, kept: set<nat>,
                        k: nat): (ps': seq<Position>)
    requires |ps| == |d.controls| && |orders| == |ids| && k <= |ids|
    ensures |ps'| == |ps|
  {
    if k == 0 then ps
    else
      var before := Stored(d, ps, ids, orders, kept, k - 1);
      if k - 1 in kept then before else StoreAt(d, before, ids[k - 1], orders[k - 1], k - 1)
  }

  /** Storing orders touches nothing but tab orders, and only those of the members. */
  lemma {:induction false} StoredFrame(d: Document, ps: seq<Position>, ids: seq<ObjectId>, orders: seq<int>,
                                       kept: set<nat>, k: nat, slot: nat)
    requires |ps| == |d.controls| && |orders| == |ids| && k <= |ids| && slot < |ps|
    ensures Stored(d, ps, ids, orders, kept, k)[slot].(tabOrder := Implicit) == ps[slot].(tabOrder := Implicit)
    ensures d.controls[slot].id !in ids ==> Stored(d, ps, ids, orders, kept, k)[slot] == ps[slot]
  {
    hide Resolve;
    if k > 0 {
      StoredFrame(d, ps, ids, orders, kept, k - 1, slot);
    }
  }

  lemma {:induction false} StoredStep(d: Document, ps: seq<Position>, ids: seq<ObjectId>, orders: seq<int>,
                                      kept: set<nat>, k: nat)
    requires |ps| == |d.controls| && |orders| == |ids| && k <= |ids|
    ensures Stored(d, ps, ids, orders, kept, 0) == ps
    ensures k < |ids| && k in kept ==> Stored(d, ps, ids, orders, kept, k + 1) == Stored(d, ps, ids, orders, kept, k)
    ensures k < |ids| && k !in kept ==>
              Stored(d, ps, ids, orders, kept, k + 1) == StoreAt(d, Stored(d, ps, ids, orders, kept, k), ids[k], orders[k], k)
  {
  }

  lemma {:induction false} StoredAt(d: Document, ps: seq<Position>, ids: seq<ObjectId>, orders: seq<int>,
                                    kept: set<nat>, k: nat, i: nat)
    requires |ps| == |d.controls| && |orders| == |ids| && k <= |ids| && Distinct(ids) && i < |ids|
    requires SlotOf(d, ids[i]).Some?
    ensures Stored(d, ps, ids, orders, kept, k)[SlotOf(d, ids[i]).value].tabOrder ==
            if i < k && i !in kept then Encoded(orders[i], i) else ps[SlotOf(d, ids[i]).value].tabOrder
  {
    hide Stored, StoreAt, Encoded, SlotOf, Distinct, Resolves, Resolve, NodeRefs, IndexOf;
    StoredStep(d, ps, ids, orders, kept, if k > 0 then k - 1 else 0);
    if k > 0 {
      StoredAt(d, ps, ids, orders, kept, k - 1, i);
      StoreAtSlot(d, Stored(d, ps, ids, orders, kept, k - 1), ids[k - 1], orders[k - 1], k - 1, SlotOf(d, ids[i]).value);
      SlotsDiffer(d, ids, i, k - 1);
    }
  }

  lemma {:induction false} SlotsDiffer(d: Document, ids: seq<ObjectId>, i: nat, k: nat)
    requires Distinct(ids) && i < |ids| && k < |ids| && SlotOf(d, ids[i]).Some?
    ensures SlotOf(d, ids[i]) == SlotOf(d, ids[k]) <==> i == k
  {
    hide SlotOf;
  }

  lemma {:induction false} StoreAtSlot(d: Document, ps: seq<Position>, id: ObjectId, order: int, i: nat, slot: nat)
    requires |ps| == |d.controls| && slot < |ps|
    ensures StoreAt(d, ps, id, order, i)[slot].tabOrder ==
            if SlotOf(d, id) == Some(slot) then Encoded(order, i) else ps[slot].tabOrder
  {
    hide SlotOf, Encoded;
  }

  /** Stored orders are the orders that are read back. */
  lemma {:induction false} StoredReads(d: Document, ps: seq<Position>, ids: seq<ObjectId>, orders: seq<int>,
                                       kept: set<nat>)
    requires |ps| == |d.controls| && |orders| == |ids| && Distinct(ids)
    requires forall i :: 0 <= i < |ids| ==> SlotOf(d, ids[i]).Some?
    requires forall i :: 0 <= i < |ids| && i in kept ==> OrderAt(d, ps, ids, i) == Some(orders[i])
    ensures Reads(d, Stored(d, ps, ids, orders, kept, |ids|), ids, orders)
  {
    hide SlotOf, Stored, OrderAt, Distinct;
    forall i | 0 <= i < |ids| ensures OrderAt(d, Stored(d, ps, ids, orders, kept, |ids|), ids, i) == Some(orders[i]) {
      StoredReadsAt(d, ps, ids, orders, kept, i);
    }
  }

  lemma {:induction false} StoredReadsAt(d: Document, ps: seq<Position>, ids: seq<ObjectId>, orders: seq<int>,
                                         kept: set<nat>, i: nat)
    requires |ps| == |d.controls| && |orders| == |ids| && Distinct(ids) && i < |ids|
    requires SlotOf(d, ids[i]).Some?
    requires i in kept ==> OrderAt(d, ps, ids, i) == Some(orders[i])
    ensures OrderAt(d, Stored(d, ps, ids, orders, kept, |ids|), ids, i) == Some(orders[i])
  {
    hide *;
    var ps' := Stored(d, ps, ids, orders, kept, |ids|);
    StoredAt(d, ps, ids, orders, kept, |ids|, i);
    OrderAtSlot(d, ps, ids, i);
    OrderAtSlot(d, ps', ids, i);
    EncodedReads(orders[i], i);
  }

  lemma {:induction false} OrderAtSlot(d: Document, ps: seq<Position>, ids: seq<ObjectId>, i: nat)
    requires |ps| == |d.controls| && i < |ids| && SlotOf(d, ids[i]).Some?
    ensures OrderAt(d, ps, ids, i) == ReadBack(ps[SlotOf(d, ids[i]).value].tabOrder, i)
  {
    hide SlotOf;
  }

  lemma {:induction false} EncodedReads(order: int, i: nat)
    ensures ReadBack(Encoded(order, i), i) == Some(order)
  {
  }

  /** A group that shares no control with the stored one reads as before. */
  lemma {:induction false} StoredElsewhere(d: Document, ps: seq<Position>, ids: seq<ObjectId>, orders: seq<int>,
                                           kept: set<nat>, others: seq<ObjectId>)
    requires |ps| == |d.controls| && |orders| == |ids| && Distinct(ids)
    requires forall id :: id in others ==> id !in ids
    ensures OrdersOf(d, Stored(d, ps, ids, orders, kept, |ids|), others) == OrdersOf(d, ps, others)
  {
    hide SlotOf, Stored, OrdersOf, Numbering;
    var ps' := Stored(d, ps, ids, orders, kept, |ids|);
    forall i | 0 <= i < |others| ensures OrderAt(d, ps', others, i) == OrderAt(d, ps, others, i) {
      var slot := SlotOf(d, others[i]);
      assert others[i] in others;
      if slot.Some? {
        StoredFrame(d, ps, ids, orders, kept, |ids|, slot.value);
      }
    }
    SameOrders(d, ps, ps', others);
  }

  lemma {:induction false} SameOrders(d: Document, ps: seq<Position>, ps': seq<Position>, ids: seq<ObjectId>)
    requires |ps| == |d.controls| == |ps'|
    requires forall i :: 0 <= i < |ids| ==> OrderAt(d, ps', ids, i) == OrderAt(d, ps, ids, i)
    ensures OrdersOf(d, ps', ids) == OrdersOf(d, ps, ids)
  {
    hide OrderAt, OrdersOf, Numbering;
    if OrdersOf(d, ps, ids).Some? { assert Reads(d, ps', ids, OrdersOf(d, ps, ids).value); }
    if OrdersOf(d, ps', ids).Some? { assert Reads(d, ps, ids, OrdersOf(d, ps', ids).value); }
  }

  lemma {:induction false} GroupResolves(d: Document, target: ObjectId)
    requires PlacementGroup(d, target).Some?
    ensures forall id :: id in PlacementGroup(d, target).value ==> Resolves(d, ControlRef(id))
  {
    hide OwnerOf, Resolve, Collect, CollectPages;
    OwnerOfIsOwner(d, ControlRef(target));
    var o := OwnerOf(d, ControlRef(target)).value;
    forall id | id in PlacementGroup(d, target).value ensures Resolves(d, ControlRef(id)) {
      match ScopeOf(d, o) {
        case OwnList(_) => CollectMembers(d, o, ChildrenOf(d, o), id);
        case SharedPanel(j) => var q := CollectPagesMember(d, j, d.controls[j].children, id);
      }
    }
  }

  // ---------- Setting TabOrder ----------

  /** Moving one order from before to after shifts the orders in between by one. */
  function Shifted(order: int, before: int, after: int): int {
    if order == before then after
    else if before < after && before < order <= after then order - 1
    else if before > after && after <= order < before then order + 1
    else order
  }

  function ShiftedOrders(orders: seq<int>, before: int, after: int): (r: seq<int>)
    ensures |r| == |orders| && forall i :: 0 <= i < |r| ==> r[i] == Shifted(orders[i], before, after)
  {
    seq(|orders|, i requires 0 <= i < |orders| => Shifted(orders[i], before, after))
  }

  ghost function Untouched(orders: seq<int>, orders': seq<int>): set<nat>
    requires |orders| == |orders'|
  {
    set i: nat | i < |orders| && orders[i] == orders'[i]
  }

  ghost function WithTabOrder(d: Document, ps: seq<Position>, g: TabOrderGroup, k: int): (ps': seq<Position>)
    requires |ps| == |d.controls| && |g.orders| == |g.ids| && g.targetIndex < |g.ids|
    ensures |ps'| == |ps|
  {
    if k < 1 || k > |g.ids| then ps
    else
      var orders := ShiftedOrders(g.orders, g.orders[g.targetIndex], k);
      Stored(d, ps, g.ids, orders, Untouched(g.orders, orders), |g.ids|)
  }

  lemma {:induction false} ShiftNumbers(orders: seq<int>, t: nat, k: int)
    requires Numbering(orders) && t < |orders| && 1 <= k <= |orders|
    ensures var orders' := ShiftedOrders(orders, orders[t], k);
            && Numbering(orders')
            && orders'[t] == k
            && forall i, j :: 0 <= i < |orders| && 0 <= j < |orders| && i != t && j != t ==>
                 (orders[i] < orders[j] <==> orders'[i] < orders'[j])
  {
    var orders' := ShiftedOrders(orders, orders[t], k);
    forall i | 0 <= i < |orders| ensures 1 <= orders'[i] <= |orders| && (i != t ==> orders[i] != orders[t]) {
      if i < t { assert orders[i] != orders[t]; } else if t < i { assert orders[t] != orders[i]; }
    }
    forall i, j | 0 <= i < j < |orders| ensures orders'[i] != orders'[j] { assert orders[i] != orders[j]; }
  }

  /** A new order within the group reads back, the group stays numbered from 1 to its size, and the
      other members keep their relative order. */
  lemma {:induction false} TabOrderTakesEffect(d: Document, ps: seq<Position>, target: ObjectId, k: int)
    requires |ps| == |d.controls| && GroupFor(d, ps, target).Some?
    requires 1 <= k <= |GroupFor(d, ps, target).value.ids|
    ensures var g := GroupFor(d, ps, target).value;
            var g' := GroupFor(d, WithTabOrder(d, ps, g, k), target);
            && g'.Some? && g'.value.ids == g.ids && g'.value.targetIndex == g.targetIndex
            && Numbering(g'.value.orders)
            && g'.value.orders[g.targetIndex] == k
            && forall i, j :: 0 <= i < |g.ids| && 0 <= j < |g.ids| && i != g.targetIndex && j != g.targetIndex ==>
                 (g.orders[i] < g.orders[j] <==> g'.value.orders[i] < g'.value.orders[j])
  {
    hide PlacementGroup, OrderAt, Numbering, SlotOf, Stored, OrdersOf, Distinct, IndexOf;
    var g := GroupFor(d, ps, target).value;
    var orders := ShiftedOrders(g.orders, g.orders[g.targetIndex], k);
    ShiftNumbers(g.orders, g.targetIndex, k);
    GroupDistinct(d, target);
    GroupResolves(d, target);
    forall i | 0 <= i < |g.ids| ensures SlotOf(d, g.ids[i]).Some? { assert g.ids[i] in g.ids; }
    StoredReads(d, ps, g.ids, orders, Untouched(g.orders, orders));
  }

  /** Setting a TabOrder changes what no control outside the group reads; an order outside 1..n
      changes nothing. */
  lemma {:induction false} TabOrderElsewhere(d: Document, ps: seq<Position>, target: ObjectId, k: int, other: ObjectId)
    requires |ps| == |d.controls| && GroupFor(d, ps, target).Some?
    requires other !in GroupFor(d, ps, target).value.ids || k < 1 || k > |GroupFor(d, ps, target).value.ids|
    ensures ReadTabOrder(d, WithTabOrder(d, ps, GroupFor(d, ps, target).value, k), other) == ReadTabOrder(d, ps, other)
  {
    hide PlacementGroup, OrderAt, Numbering, SlotOf, Stored, OrdersOf, Distinct, IndexOf;
    var g := GroupFor(d, ps, target).value;
    if 1 <= k <= |g.ids| {
      var others := PlacementGroup(d, other);
      if others.Some? && other in others.value {
        GroupDistinct(d, target);
        forall id | id in others.value ensures id !in g.ids {
          GroupsAgree(d, other, id);
          if id in g.ids { GroupsAgree(d, target, id); }
        }
        var orders := ShiftedOrders(g.orders, g.orders[g.targetIndex], k);
        StoredElsewhere(d, ps, g.ids, orders, Untouched(g.orders, orders), others.value);
      }
    }
  }

  /** What is stored: nothing changes for an order that stays, and an order equal to the place in the group is
      stored as the default. */
  lemma {:induction false} TabOrderStored(d: Document, ps: seq<Position>, target: ObjectId, k: int, i: nat, j: nat)
    requires |ps| == |d.controls| && UniqueIds(d) && GroupFor(d, ps, target).Some? && i < |ps|
    requires 1 <= k <= |GroupFor(d, ps, target).value.ids|
    ensures var g := GroupFor(d, ps, target).value;
            var ps' := WithTabOrder(d, ps, g, k);
            && (d.controls[i].id !in g.ids ==> ps'[i] == ps[i])
            && (j < |g.ids| && g.ids[j] == d.controls[i].id ==>
                  var was, before := g.orders[j], g.orders[g.targetIndex];
                  var now := if j == g.targetIndex then k
                             else if was > before && was <= k then was - 1
                             else if was < before && was >= k then was + 1 else was;
                  ps'[i] == if now == was then ps[i]
                            else ps[i].(tabOrder := if now == j + 1 then Implicit else Explicit(Some(now))))
  {
    hide PlacementGroup, OrderAt, SlotOf, Stored, OrdersOf, Distinct, IndexOf, UniqueIds, GroupFor, Reads, Numbering,
      Shifted, Untouched;
    var g := GroupFor(d, ps, target).value;
    var orders := ShiftedOrders(g.orders, g.orders[g.targetIndex], k);
    var kept := Untouched(g.orders, orders);
    GroupDistinct(d, target);
    SlotByIndex(d, ps, i);
    StoredFrame(d, ps, g.ids, orders, kept, |g.ids|, i);
    if j < |g.ids| && g.ids[j] == d.controls[i].id {
      StoredAt(d, ps, g.ids, orders, kept, |g.ids|, j);
      OtherOrder(g, k, j);
      var ps' := WithTabOrder(d, ps, g, k);
      SamePosition(ps[i], ps'[i]);
    }
  }

  lemma {:induction false} SamePosition(p: Position, p': Position)
    requires p'.(tabOrder := Implicit) == p.(tabOrder := Implicit)
    ensures p' == p.(tabOrder := p'.tabOrder)
  {
  }

  lemma {:induction false} OtherOrder(g: TabOrderGroup, k: int, j: nat)
    requires Numbering(g.orders) && j < |g.orders| && g.targetIndex < |g.orders|
    ensures var was, before := g.orders[j], g.orders[g.targetIndex];
            var orders := ShiftedOrders(g.orders, before, k);
            && orders[j] == (if j == g.targetIndex then k
                             else if was > before && was <= k then was - 1
                             else if was < before && was >= k then was + 1 else was)
            && (j in Untouched(g.orders, orders) <==> orders[j] == was)
  {
    assert j != g.targetIndex ==> g.orders[j] != g.orders[g.targetIndex];
  }

  // ---------- The default control of a group ----------

  predicate IsDefault(d: Document, ps: seq<Position>, id: ObjectId)
    requires |ps| == |d.controls|
  {
    match SlotOf(d, id) case None => false case Some(slot) => ps[slot].defaultControl == Explicit(Some(true))
  }

  function DefaultAt(d: Document, ps: seq<Position>, id: ObjectId, value: Property<Option<bool>>): (ps': seq<Position>)
    requires |ps| == |d.controls|
    ensures |ps'| == |ps|
  {
    match SlotOf(d, id)
    case None => ps
    case Some(slot) => ps[slot := ps[slot].(defaultControl := value)]
  }

  ghost function ClearedDefaults(d: Document, ps: seq<Position>, ids: seq<ObjectId>): (ps': seq<Position>)
    requires |ps| == |d.controls|
    ensures |ps'| == |ps|
  {
    if ids == [] then ps
    else DefaultAt(d, ClearedDefaults(d, ps, ids[..|ids| - 1]), ids[|ids| - 1], Implicit)
  }

  datatype DefaultOp = SelectDefault(id: ObjectId) | DeselectDefault(id: ObjectId)

  /** One assignment of DefaultControl; a reset acts as assigning false. */
  ghost function AfterDefaultOp(d: Document, ps: seq<Position>, op: DefaultOp): (ps': seq<Position>)
    requires |ps| == |d.controls|
    ensures |ps'| == |ps|
  {
    match PlacementGroup(d, op.id)
    case None => ps
    case Some(ids) =>
      match op
      case SelectDefault(id) => DefaultAt(d, ClearedDefaults(d, ps, ids), id, Explicit(Some(true)))
      case DeselectDefault(id) => DefaultAt(d, ps, id, Implicit)
  }

  ghost function AfterDefaultOps(d: Document, ps: seq<Position>, ops: seq<DefaultOp>): (ps': seq<Position>)
    requires |ps| == |d.controls|
    ensures |ps'| == |ps|
  {
    if ops == [] then ps
    else AfterDefaultOp(d, AfterDefaultOps(d, ps, ops[..|ops| - 1]), ops[|ops| - 1])
  }

  /** No group has two default controls. */
  ghost predicate OneDefaultPerGroup(d: Document, ps: seq<Position>)
    requires |ps| == |d.controls|
  {
    forall a, b, c | PlacementGroup(d, a).Some? && b in PlacementGroup(d, a).value && c in PlacementGroup(d, a).value &&
      IsDefault(d, ps, b) && IsDefault(d, ps, c) :: b == c
  }

  lemma {:induction false} DefaultAtReads(d: Document, ps: seq<Position>, id: ObjectId, value: Property<Option<bool>>,
                                          other: ObjectId)
    requires |ps| == |d.controls|
    ensures IsDefault(d, DefaultAt(d, ps, id, value), other) <==>
            if other == id && SlotOf(d, id).Some? then value == Explicit(Some(true)) else IsDefault(d, ps, other)
  {
    hide Resolve;
  }

  lemma {:induction false} ClearedReads(d: Document, ps: seq<Position>, ids: seq<ObjectId>, other: ObjectId)
    requires |ps| == |d.controls|
    ensures IsDefault(d, ClearedDefaults(d, ps, ids), other) <==> IsDefault(d, ps, other) && other !in ids
  {
    hide SlotOf, DefaultAt, IsDefault;
    if ids != [] {
      var front, last := ids[..|ids| - 1], ids[|ids| - 1];
      ClearedReads(d, ps, front, other);
      DefaultAtReads(d, ClearedDefaults(d, ps, front), last, Implicit, other);
      assert ids == front + [last];
      if SlotOf(d, last).None? { NoSlotNoDefault(d, ps, last); }
    }
  }

  lemma {:induction false} NoSlotNoDefault(d: Document, ps: seq<Position>, id: ObjectId)
    requires |ps| == |d.controls| && SlotOf(d, id).None?
    ensures !IsDefault(d, ps, id)
  {
  }

  lemma {:induction false} DefaultAtIndex(d: Document, ps: seq<Position>, id: ObjectId, value: Property<Option<bool>>,
                                          i: nat)
    requires |ps| == |d.controls| && UniqueIds(d) && i < |ps|
    ensures DefaultAt(d, ps, id, value)[i] == if d.controls[i].id == id then ps[i].(defaultControl := value) else ps[i]
  {
    hide SlotOf, UniqueIds, Resolves, Resolve, NodeRefs;
    SlotByIndex(d, ps, i);
  }

  lemma {:induction false} ClearedAt(d: Document, ps: seq<Position>, ids: seq<ObjectId>, i: nat)
    requires |ps| == |d.controls| && UniqueIds(d) && i < |ps|
    ensures ClearedDefaults(d, ps, ids)[i] == if d.controls[i].id in ids then ps[i].(defaultControl := Implicit) else ps[i]
  {
    hide SlotOf, UniqueIds, Resolves, Resolve, NodeRefs, DefaultAt;
    if ids != [] {
      var front, last := ids[..|ids| - 1], ids[|ids| - 1];
      ClearedAt(d, ps, front, i);
      DefaultAtIndex(d, ClearedDefaults(d, ps, front), last, Implicit, i);
      assert ids == front + [last];
    }
  }

  /** What is stored: selecting clears the others of the group, and deselecting clears the one control. */
  lemma {:induction false} DefaultStored(d: Document, ps: seq<Position>, op: DefaultOp, i: nat)
    requires |ps| == |d.controls| && UniqueIds(d) && i < |ps|
    ensures PlacementGroup(d, op.id).None? ==> AfterDefaultOp(d, ps, op) == ps
    ensures PlacementGroup(d, op.id).Some? ==>
              var p, id := AfterDefaultOp(d, ps, op)[i], d.controls[i].id;
              p == if op == SelectDefault(id) then ps[i].(defaultControl := Explicit(Some(true)))
                   else if op == DeselectDefault(id) then ps[i].(defaultControl := Implicit)
                   else if op.SelectDefault? && id in PlacementGroup(d, op.id).value then ps[i].(defaultControl := Implicit)
                   else ps[i]
  {
    hide SlotOf, UniqueIds, PlacementGroup, ClearedDefaults;
    SlotByIndex(d, ps, i);
    if PlacementGroup(d, op.id).Some? { ClearedAt(d, ps, PlacementGroup(d, op.id).value, i); }
  }

  /** What an assignment of DefaultControl does to every control. */
  lemma {:induction false} DefaultOpReads(d: Document, ps: seq<Position>, op: DefaultOp, other: ObjectId)
    requires |ps| == |d.controls| && PlacementGroup(d, op.id).Some? && Resolves(d, ControlRef(op.id))
    ensures IsDefault(d, AfterDefaultOp(d, ps, op), other) <==>
            if other == op.id then op.SelectDefault?
            else IsDefault(d, ps, other) && (op.SelectDefault? ==> other !in PlacementGroup(d, op.id).value)
  {
    hide SlotOf, DefaultAt, IsDefault, PlacementGroup, ClearedDefaults;
    var ids := PlacementGroup(d, op.id).value;
    match op {
      case SelectDefault(id) =>
        ClearedReads(d, ps, ids, other);
        DefaultAtReads(d, ClearedDefaults(d, ps, ids), id, Explicit(Some(true)), other);
      case DeselectDefault(id) =>
        DefaultAtReads(d, ps, id, Implicit, other);
    }
  }

  lemma {:induction false} DefaultOpKeeps(d: Document, ps: seq<Position>, op: DefaultOp)
    requires |ps| == |d.controls| && OneDefaultPerGroup(d, ps) && Resolves(d, ControlRef(op.id))
    ensures OneDefaultPerGroup(d, AfterDefaultOp(d, ps, op))
  {
    hide IsDefault, PlacementGroup, Resolve;
    if PlacementGroup(d, op.id).Some? {
      var ps' := AfterDefaultOp(d, ps, op);
      forall a, b, c | PlacementGroup(d, a).Some? && b in PlacementGroup(d, a).value && c in PlacementGroup(d, a).value &&
        IsDefault(d, ps', b) && IsDefault(d, ps', c)
        ensures b == c
      {
        hide AfterDefaultOp;
        DefaultOpReads(d, ps, op, b);
        DefaultOpReads(d, ps, op, c);
        GroupsAgree(d, a, b);
        GroupsAgree(d, a, c);
      }
    }
  }

  /** Any run of assignments keeps at most one default control in every group. */
  lemma {:induction false} DefaultRunKeeps(d: Document, ps: seq<Position>, ops: seq<DefaultOp>)
    requires |ps| == |d.controls| && OneDefaultPerGroup(d, ps)
    requires forall i :: 0 <= i < |ops| ==> Resolves(d, ControlRef(ops[i].id))
    ensures OneDefaultPerGroup(d, AfterDefaultOps(d, ps, ops))
  {
    hide OneDefaultPerGroup, Resolve, AfterDefaultOp;
    if ops != [] {
      DefaultRunKeeps(d, ps, ops[..|ops| - 1]);
      DefaultOpKeeps(d, AfterDefaultOps(d, ps, ops[..|ops| - 1]), ops[|ops| - 1]);
    }
  }

  ghost predicate Crowded(d: Document, ps: seq<Position>, ids: seq<ObjectId>)
    requires |ps| == |d.controls|
  {
    exists i, j :: 0 <= i < j < |ids| && IsDefault(d, ps, ids[i]) && IsDefault(d, ps, ids[j])
  }

  method CountDefaults(d: Document, ps: seq<Position>, ids: seq<ObjectId>) returns (count: nat)
    requires |ps| == |d.controls|
    ensures count > 1 <==> Crowded(d, ps, ids)
  {
    hide IsDefault;
    count := 0;
    ghost var last := 0;
    for i := 0 to |ids|
      invariant count == 0 ==> forall k :: 0 <= k < i ==> !IsDefault(d, ps, ids[k])
      invariant count == 1 ==> 0 <= last < i && IsDefault(d, ps, ids[last]) && forall k :: 0 <= k < i && k != last ==> !IsDefault(d, ps, ids[k])
      invariant count > 1 ==> Crowded(d, ps, ids)
    {
      if IsDefault(d, ps, ids[i]) {
        if count == 0 { last := i; }
        count := count + 1;
      }
    }
  }

  /** The validation of default controls, which skips the groups it already checked. */
  method CheckDefaults(d: Document, ps: seq<Position>) returns (violations: seq<ObjectId>)
    requires |ps| == |d.controls| && UniqueIds(d)
    ensures violations == [] <==> OneDefaultPerGroup(d, ps)
    ensures forall id :: id in violations ==> IsDefault(d, ps, id) && InCrowdedGroup(d, ps, id)
    ensures forall a :: PlacementGroup(d, a).Some? && Crowded(d, ps, PlacementGroup(d, a).value) ==> Speaks(d, violations, a)
  {
    hide *;
    violations := [];
    var checked: set<ObjectId> := {};
    CheckedStart(d, ps);
    NamedStart(d, ps);
    for i := 0 to |d.controls|
      invariant CheckedSoFar(d, ps, checked, violations != [])
      invariant CoveredSoFar(d, ps, checked, i)
      invariant NamedSoFar(d, ps, checked, violations)
    {
      var id := d.controls[i].id;
      SlotByIndex(d, ps, i);
      if ps[i].defaultControl == Explicit(Some(true)) && id !in checked {
        var group := PlacementControlGroup(d, id);
        if group.Some? {
          var count := CountDefaults(d, ps, group.value);
          CheckedGroup(d, ps, checked, violations != [], id, group.value, i);
          NamedGroup(d, ps, checked, violations, id, group.value);
          checked := checked + set x | x in group.value;
          if count > 1 { violations := violations + [id]; }
        } else {
          CoveredNext(d, ps, checked, i);
        }
      } else {
        CoveredNext(d, ps, checked, i);
      }
    }
    CheckedAll(d, ps, checked, violations != []);
    NamedAll(d, ps, checked, violations);
  }

  ghost predicate InCrowdedGroup(d: Document, ps: seq<Position>, id: ObjectId)
    requires |ps| == |d.controls|
  {
    && PlacementGroup(d, id).Some? && id in PlacementGroup(d, id).value
    && Crowded(d, ps, PlacementGroup(d, id).value)
  }

  /** A violation speaks of the group of a control. */
  ghost predicate Speaks(d: Document, violations: seq<ObjectId>, a: ObjectId) {
    exists id :: id in violations && PlacementGroup(d, id) == PlacementGroup(d, a)
  }

  ghost predicate NamedSoFar(d: Document, ps: seq<Position>, checked: set<ObjectId>, violations: seq<ObjectId>)
    requires |ps| == |d.controls|
  {
    && (forall id :: id in violations ==> IsDefault(d, ps, id) && InCrowdedGroup(d, ps, id))
    && (forall a :: a in checked && PlacementGroup(d, a).Some? && Crowded(d, ps, PlacementGroup(d, a).value) ==>
          Speaks(d, violations, a))
  }

  lemma {:induction false} NamedStart(d: Document, ps: seq<Position>)
    requires |ps| == |d.controls|
    ensures NamedSoFar(d, ps, {}, [])
  {
  }

  lemma {:induction false} SpeaksMore(d: Document, violations: seq<ObjectId>, id: ObjectId, a: ObjectId)
    ensures Speaks(d, violations, a) ==> Speaks(d, violations + [id], a)
    ensures PlacementGroup(d, id) == PlacementGroup(d, a) ==> Speaks(d, violations + [id], a)
  {
    hide PlacementGroup;
    assert id in violations + [id];
    if Speaks(d, violations, a) {
      var b :| b in violations && PlacementGroup(d, b) == PlacementGroup(d, a);
      assert b in violations + [id];
    }
  }

  lemma {:induction false} NamedGroup(d: Document, ps: seq<Position>, checked: set<ObjectId>, violations: seq<ObjectId>,
                                      id: ObjectId, ids: seq<ObjectId>)
    requires |ps| == |d.controls| && UniqueIds(d) && PlacementGroup(d, id) == Some(ids) && IsDefault(d, ps, id)
    requires NamedSoFar(d, ps, checked, violations)
    ensures NamedSoFar(d, ps, checked + (set x | x in ids), if Crowded(d, ps, ids) then violations + [id] else violations)
  {
    hide PlacementGroup, Crowded, UniqueIds, IsDefault, Speaks;
    InOwnGroup(d, id);
    var after := if Crowded(d, ps, ids) then violations + [id] else violations;
    forall x | x in ids ensures PlacementGroup(d, x) == Some(ids) { GroupsAgree(d, id, x); }
    forall a | a in checked + (set x | x in ids) && PlacementGroup(d, a).Some? && Crowded(d, ps, PlacementGroup(d, a).value)
      ensures Speaks(d, after, a)
    {
      SpeaksMore(d, violations, id, a);
    }
  }

  lemma {:induction false} NamedAll(d: Document, ps: seq<Position>, checked: set<ObjectId>, violations: seq<ObjectId>)
    requires |ps| == |d.controls| && UniqueIds(d)
    requires NamedSoFar(d, ps, checked, violations) && CoveredSoFar(d, ps, checked, |d.controls|)
    ensures forall id :: id in violations ==> IsDefault(d, ps, id) && InCrowdedGroup(d, ps, id)
    ensures forall a :: PlacementGroup(d, a).Some? && Crowded(d, ps, PlacementGroup(d, a).value) ==> Speaks(d, violations, a)
  {
    hide PlacementGroup, UniqueIds, IsDefault, InCrowdedGroup, CoveredSoFar;
    forall a | PlacementGroup(d, a).Some? && Crowded(d, ps, PlacementGroup(d, a).value) ensures Speaks(d, violations, a) {
      var ids := PlacementGroup(d, a).value;
      var i, j :| 0 <= i < j < |ids| && IsDefault(d, ps, ids[i]) && IsDefault(d, ps, ids[j]);
      assert ids[i] in ids;
      GroupsAgree(d, a, ids[i]);
      DefaultCovered(d, ps, checked, ids[i]);
      assert Speaks(d, violations, ids[i]);
    }
  }

  /** Every checked control's whole group was checked, and counted when it had two defaults. */
  ghost predicate CheckedSoFar(d: Document, ps: seq<Position>, checked: set<ObjectId>, found: bool)
    requires |ps| == |d.controls|
  {
    && (found ==> exists a :: PlacementGroup(d, a).Some? && Crowded(d, ps, PlacementGroup(d, a).value))
    && (forall a :: a in checked ==> PlacementGroup(d, a).Some? && (Crowded(d, ps, PlacementGroup(d, a).value) ==> found))
  }

  ghost predicate CoveredSoFar(d: Document, ps: seq<Position>, checked: set<ObjectId>, k: nat)
    requires |ps| == |d.controls|
  {
    forall i :: 0 <= i < k && i < |ps| && ps[i].defaultControl == Explicit(Some(true)) && PlacementGroup(d, d.controls[i].id).Some? ==>
      d.controls[i].id in checked
  }

  lemma {:induction false} CheckedStart(d: Document, ps: seq<Position>)
    requires |ps| == |d.controls|
    ensures CheckedSoFar(d, ps, {}, false) && CoveredSoFar(d, ps, {}, 0)
  {
  }

  lemma {:induction false} SlotByIndex(d: Document, ps: seq<Position>, i: nat)
    requires |ps| == |d.controls| && UniqueIds(d) && i < |d.controls|
    ensures SlotOf(d, d.controls[i].id) == Some(i)
    ensures IsDefault(d, ps, d.controls[i].id) <==> ps[i].defaultControl == Explicit(Some(true))
  {
    hide Resolve, NodeRefs;
    ResolveUnique(d, ControlOwner(i));
  }

  lemma {:induction false} CoveredNext(d: Document, ps: seq<Position>, checked: set<ObjectId>, i: nat)
    requires |ps| == |d.controls| && i < |d.controls| && CoveredSoFar(d, ps, checked, i)
    requires ps[i].defaultControl != Explicit(Some(true)) || d.controls[i].id in checked || PlacementGroup(d, d.controls[i].id).None?
    ensures CoveredSoFar(d, ps, checked, i + 1)
  {
    hide PlacementGroup;
  }

  lemma {:induction false} CheckedGroup(d: Document, ps: seq<Position>, checked: set<ObjectId>, found: bool,
                                        id: ObjectId, ids: seq<ObjectId>, i: nat)
    requires |ps| == |d.controls| && UniqueIds(d) && i < |d.controls| && d.controls[i].id == id
    requires CheckedSoFar(d, ps, checked, found) && CoveredSoFar(d, ps, checked, i)
    requires PlacementGroup(d, id) == Some(ids)
    ensures CheckedSoFar(d, ps, checked + (set x | x in ids), found || Crowded(d, ps, ids))
    ensures CoveredSoFar(d, ps, checked + (set x | x in ids), i + 1)
  {
    hide PlacementGroup, Crowded, UniqueIds;
    InOwnGroup(d, id);
    forall x | x in ids ensures PlacementGroup(d, x) == Some(ids) { GroupsAgree(d, id, x); }
  }

  lemma {:induction false} CheckedAll(d: Document, ps: seq<Position>, checked: set<ObjectId>, found: bool)
    requires |ps| == |d.controls| && UniqueIds(d)
    requires CheckedSoFar(d, ps, checked, found) && CoveredSoFar(d, ps, checked, |d.controls|)
    ensures !found <==> OneDefaultPerGroup(d, ps)
  {
    hide PlacementGroup, IsDefault, UniqueIds;
    if found {
      var a :| PlacementGroup(d, a).Some? && Crowded(d, ps, PlacementGroup(d, a).value);
      var ids := PlacementGroup(d, a).value;
      var i, j :| 0 <= i < j < |ids| && IsDefault(d, ps, ids[i]) && IsDefault(d, ps, ids[j]);
      GroupDistinct(d, a);
      assert ids[i] in ids && ids[j] in ids;
    } else {
      forall a, b, c | PlacementGroup(d, a).Some? && b in PlacementGroup(d, a).value && c in PlacementGroup(d, a).value &&
        IsDefault(d, ps, b) && IsDefault(d, ps, c)
        ensures b == c
      {
        GroupsAgree(d, a, b);
        DefaultCovered(d, ps, checked, b);
        TwoDefaults(d, ps, PlacementGroup(d, a).value, b, c);
      }
    }
  }

  lemma {:induction false} DefaultCovered(d: Document, ps: seq<Position>, checked: set<ObjectId>, id: ObjectId)
    requires |ps| == |d.controls| && CoveredSoFar(d, ps, checked, |d.controls|)
    requires IsDefault(d, ps, id) && PlacementGroup(d, id).Some?
    ensures id in checked
  {
    hide PlacementGroup, Resolve;
    var i := SlotOf(d, id).value;
    assert d.controls[i].id == id;
  }

  lemma {:induction false} TwoDefaults(d: Document, ps: seq<Position>, ids: seq<ObjectId>, b: ObjectId, c: ObjectId)
    requires |ps| == |d.controls| && b in ids && c in ids && IsDefault(d, ps, b) && IsDefault(d, ps, c)
    requires !Crowded(d, ps, ids)
    ensures b == c
  {
    hide IsDefault;
    var i :| 0 <= i < |ids| && ids[i] == b;
    var j :| 0 <= j < |ids| && ids[j] == c;
  }
}
