/** The document object: its child lists and positions are fields, and the placement setters update
    them in place. */
module FormDocument {
  import opened FormModel
  import opened Limits
  import opened Optional
  import opened Placement
  import opened Regrouping
  import opened Sequences
  import opened TabOrder
  import opened ZOrder

  /** A property value offered as an order. A decimal is cut to its whole part. */
  datatype NumberArg = Integer(value: int) | Decimal(whole: int) | MalformedDecimal | NotANumber

  predicate IsNumber(arg: NumberArg) {
    arg.Integer? || arg.Decimal?
  }

  function Whole(arg: NumberArg): int
    requires IsNumber(arg)
  {
    match arg case Integer(value) => value case Decimal(whole) => whole
  }

  class OrdinaryFormDocument {
    var formId: ObjectId
    var formChildren: seq<ChildRef>
    var controls: seq<Control>
    var pages: seq<Page>
    var positions: seq<Position>

    function Snapshot(): Document
      reads this
    {
      Document(formId, formChildren, controls, pages)
    }

    ghost predicate Valid()
      reads this
    {
      |positions| == |controls|
    }

    method StoreTabOrder(id: ObjectId, order: int, i: nat)
      requires Valid()
      modifies this`positions
      ensures Valid() && positions == StoreAt(Snapshot(), old(positions), id, order, i)
    {
      var slot := SlotOf(Snapshot(), id);
      if slot.Some? {
        positions := positions[slot.value := positions[slot.value].(tabOrder := Encoded(order, i))];
      }
    }

    /** Moves a control to an order of its group and shifts the orders in between; an order outside
        the group changes nothing. */
    method SetTabOrder(target: ObjectId, arg: NumberArg) returns (status: Status)
      requires Valid()
      modifies this`positions
      ensures Valid()
      ensures match GroupFor(Snapshot(), old(positions), target)
              case None => status == UnsupportedSurface && positions == old(positions)
              case Some(g) =>
                if IsNumber(arg) then status == Applied && positions == WithTabOrder(Snapshot(), old(positions), g, Whole(arg))
                else status == InvalidValue && positions == old(positions)
    {
      hide GroupFor, StoreAt, Numbering, Reads;
      var group := FindGroup(Snapshot(), positions, target);
      if group.None? { return UnsupportedSurface; }
      var g := group.value;
      if !IsNumber(arg) { return InvalidValue; }
      if arg.Decimal? && (arg.whole < MIN_INT64 || arg.whole > MAX_INT64) {
        assert |g.ids| <= MAX_INT32;
        return Applied;
      }
      var requested := Whole(arg);
      if requested < 1 || requested > |g.ids| { return Applied; }
      ShiftTabOrders(g, requested);
      status := Applied;
    }

    method ShiftTabOrders(g: TabOrderGroup, requested: int)
      requires Valid() && |g.orders| == |g.ids| && g.targetIndex < |g.ids| && Numbering(g.orders)
      requires 1 <= requested <= |g.ids|
      modifies this`positions
      ensures Valid() && positions == WithTabOrder(Snapshot(), old(positions), g, requested)
    {
      hide StoreAt, Numbering, Stored;
      var before := g.orders[g.targetIndex];
      ghost var ps, orders := positions, ShiftedOrders(g.orders, before, requested);
      ghost var kept := Untouched(g.orders, orders);
      StoredStep(Snapshot(), ps, g.ids, orders, kept, 0);
      for i := 0 to |g.ids|
        invariant Valid() && positions == Stored(Snapshot(), ps, g.ids, orders, kept, i)
      {
        StoredStep(Snapshot(), ps, g.ids, orders, kept, i);
        OnlyTargetHasOrder(g, i);
        var order := g.orders[i];
        if i == g.targetIndex { order := requested; }
        else if before < requested && order > before && order <= requested { order := order - 1; }
        else if before > requested && order >= requested && order < before { order := order + 1; }
        assert order == orders[i];
        if order == g.orders[i] { continue; }
        StoreTabOrder(g.ids[i], order, i);
      }
    }

    method StoreChildren(o: Owner, refs: seq<ChildRef>)
      requires Valid() && IsOwner(Snapshot(), o)
      modifies this`formChildren, this`controls, this`pages
      ensures Valid() && Snapshot() == WithChildren(old(Snapshot()), o, refs)
    {
      match o {
        case FormOwner => formChildren := refs;
        case ControlOwner(i) => controls := controls[i := controls[i].(children := refs)];
        case PageOwner(i) => pages := pages[i := pages[i].(children := refs)];
      }
    }

    /** Gathers the controls of a shared panel on its first page. */
    method GatherOnFirstPage(owned: seq<nat>)
      requires Valid() && owned != [] && ArePages(Snapshot(), owned)
      modifies this`formChildren, this`controls, this`pages
      ensures Valid() && Snapshot() == Gather(old(Snapshot()), owned)
    {
      hide ContentOf, WithChildren, Emptied;
      var content := ContentOf(Snapshot(), owned);
      WithSameObjects(Snapshot(), PageOwner(owned[0]), content);
      StoreChildren(PageOwner(owned[0]), content);
      EmptyPages(owned[1..]);
    }

    method EmptyPages(owned: seq<nat>)
      requires Valid() && ArePages(Snapshot(), owned)
      modifies this`formChildren, this`controls, this`pages
      ensures Valid() && Snapshot() == Emptied(old(Snapshot()), owned)
    {
      hide WithChildren;
      ghost var first := Snapshot();
      for i := 0 to |owned|
        invariant Valid() && Snapshot() == Emptied(first, owned[..i])
      {
        assert owned[..i + 1][..i] == owned[..i];
        StoreChildren(PageOwner(owned[i]), []);
      }
      assert owned[..|owned|] == owned;
    }

    /** Rotates the list that holds the group and stores the tab orders again; a page among the
        controls stops the storing with an exception. */
    method PermuteSiblings(g: TabOrderGroup, o: Owner, to: nat) returns (status: Status)
      requires Permutable(Snapshot(), positions, g.ids, o) && |g.orders| == |g.ids| && g.targetIndex < |g.ids|
      requires to < |g.ids|
      modifies this`formChildren, this`controls, this`pages, this`positions
      ensures Valid() && Outcome(Snapshot(), positions, status) == Permuted(old(Snapshot()), old(positions), g, o, to)
    {
      hide WithChildren, ControlPrefix, Moved, StoreAt, KeptOrders, Stored, ChildrenOf;
      var refs := Moved(ChildrenOf(Snapshot(), o), g.targetIndex, to);
      MovedMultiset(ChildrenOf(Snapshot(), o), g.targetIndex, to);
      StoreChildren(o, refs);
      var whole := StoreKeptOrders(g, refs);
      status := if whole then Applied else Threw;
    }

    method StoreKeptOrders(g: TabOrderGroup, refs: seq<ChildRef>) returns (whole: bool)
      requires Valid() && |g.orders| == |g.ids| && forall r :: r in refs && r.ControlRef? ==> r.id in g.ids
      modifies this`positions
      ensures forall id :: id in ControlPrefix(refs) ==> id in g.ids
      ensures Valid() && whole == (|ControlPrefix(refs)| == |refs|)
      ensures positions ==
              Stored(Snapshot(), old(positions), ControlPrefix(refs), KeptOrders(g, ControlPrefix(refs)), {}, |ControlPrefix(refs)|)
    {
      hide ControlPrefix, StoreAt, Stored;
      ghost var ps, ids := positions, ControlPrefix(refs);
      ghost var orders := KeptOrders(g, ids);
      StoredStep(Snapshot(), ps, ids, orders, {}, 0);
      for i := 0 to |refs|
        invariant Valid() && i <= |ids| && positions == Stored(Snapshot(), ps, ids, orders, {}, i)
      {
        PrefixAt(refs, i);
        if refs[i].PageRef? { return false; }
        StoredStep(Snapshot(), ps, ids, orders, {}, i);
        var found := IndexOf(g.ids, refs[i].id);
        StoreTabOrder(refs[i].id, g.orders[found.value], i);
      }
      whole := true;
    }

    /** Moves a control to a place in the stacking order of its group. */
    method SetZOrder(target: ObjectId, arg: NumberArg) returns (status: Status)
      requires Valid()
      modifies this`formChildren, this`controls, this`pages, this`positions
      ensures Valid()
      ensures if GroupFor(old(Snapshot()), old(positions), target).Some? && !IsNumber(arg) &&
                 !ExplicitZOrder(old(Snapshot()), old(positions), GroupFor(old(Snapshot()), old(positions), target).value.ids)
              then status == InvalidValue && Snapshot() == old(Snapshot()) && positions == old(positions)
              else Outcome(Snapshot(), positions, status) ==
                   AfterZOrder(old(Snapshot()), old(positions), target, if IsNumber(arg) then Whole(arg) else 0)
    {
      hide GroupFor, PlanFor, Permuted, Gather, ExplicitZOrder, Numbering, Reads, FirstGatherable,
        PlacementGroup, ChildrenOf;
      var group := FindGroup(Snapshot(), positions, target);
      if group.None? { return UnsupportedSurface; }
      var g := group.value;
      var explicitOrder := HasExplicitZOrder(Snapshot(), positions, g.ids);
      if explicitOrder { return UnsupportedSurface; }
      if !IsNumber(arg) { return InvalidValue; }
      var requested := Whole(arg);
      if requested < MIN_INT64 { requested := MIN_INT64; } else if requested > MAX_INT64 { requested := MAX_INT64; }
      var to := Clamped(requested, |g.ids|) - 1;
      assert Clamped(requested, |g.ids|) == Clamped(Whole(arg), |g.ids|);
      if to == g.targetIndex { return Applied; }
      status := MoveSibling(g, target, to);
    }

    method MoveSibling(g: TabOrderGroup, target: ObjectId, to: nat) returns (status: Status)
      requires Valid() && PlacementGroup(Snapshot(), target) == Some(g.ids)
      requires |g.orders| == |g.ids| && g.targetIndex < |g.ids| && g.ids[g.targetIndex] == target && to < |g.ids|
      modifies this`formChildren, this`controls, this`pages, this`positions
      ensures Valid()
      ensures match PlanFor(old(Snapshot()), g.ids, target)
              case NoPlan => status == UnsupportedSurface && Snapshot() == old(Snapshot()) && positions == old(positions)
              case InPlace(o) =>
                && Permutable(old(Snapshot()), old(positions), g.ids, o)
                && Outcome(Snapshot(), positions, status) == Permuted(old(Snapshot()), old(positions), g, o, to)
              case Gathered(owned) =>
                && Permutable(Gather(old(Snapshot()), owned), old(positions), g.ids, PageOwner(owned[0]))
                && Outcome(Snapshot(), positions, status) == Permuted(Gather(old(Snapshot()), owned), old(positions), g, PageOwner(owned[0]), to)
    {
      hide PlanFor, Permuted, Gather, Permutable, FirstGatherable, PlacementGroup, ChildrenOf, IsOwner,
        OwnerOf, ScopeOf, GroupOf;
      PlanMeans(Snapshot(), positions, g.ids, target);
      var siblings := FindSiblings(Snapshot(), target);
      SiblingsAreOwner(Snapshot(), g.ids, target, siblings);
      if siblings.Some? && |ChildrenOf(Snapshot(), siblings.value)| != |g.ids| { siblings := None; }
      if siblings.None? {
        var owned := FindGatherable(Snapshot(), g.ids);
        if owned.None? { return UnsupportedSurface; }
        GatherOnFirstPage(owned.value);
        siblings := Some(PageOwner(owned.value[0]));
      }
      status := PermuteSiblings(g, siblings.value, to);
    }

    method StoreDefault(id: ObjectId, value: Property<Option<bool>>)
      requires Valid()
      modifies this`positions
      ensures Valid() && positions == DefaultAt(Snapshot(), old(positions), id, value)
    {
      var slot := SlotOf(Snapshot(), id);
      if slot.Some? {
        positions := positions[slot.value := positions[slot.value].(defaultControl := value)];
      }
    }

    /** Selects the default control of a group, or deselects a control; resetting acts as deselecting. */
    method SetDefaultControl(target: ObjectId, selected: bool) returns (status: Status)
      requires Valid()
      modifies this`positions
      ensures Valid()
      ensures status == if PlacementGroup(Snapshot(), target).Some? then Applied else UnsupportedSurface
      ensures positions == AfterDefaultOp(Snapshot(), old(positions), if selected then SelectDefault(target) else DeselectDefault(target))
    {
      hide PlacementGroup, DefaultAt;
      var group := PlacementControlGroup(Snapshot(), target);
      if group.None? { return UnsupportedSurface; }
      if selected {
        ghost var ps, ids := positions, group.value;
        for i := 0 to |group.value|
          invariant Valid() && positions == ClearedDefaults(Snapshot(), ps, ids[..i])
        {
          assert ids[..i + 1][..i] == ids[..i];
          StoreDefault(group.value[i], Implicit);
        }
        assert ids[..|ids|] == ids;
        StoreDefault(target, Explicit(Some(true)));
      } else {
        StoreDefault(target, Implicit);
      }
      status := Applied;
    }
  }

  lemma {:induction false} OnlyTargetHasOrder(g: TabOrderGroup, i: nat)
    requires Numbering(g.orders) && i < |g.orders| && g.targetIndex < |g.orders|
    ensures i != g.targetIndex ==> g.orders[i] != g.orders[g.targetIndex]
  {
  }

  lemma {:induction false} PrefixAt(refs: seq<ChildRef>, i: nat)
    requires i <= |ControlPrefix(refs)| && i < |refs|
    ensures if refs[i].PageRef? then |ControlPrefix(refs)| == i else i < |ControlPrefix(refs)| && ControlPrefix(refs)[i] == refs[i].id
  {
    hide ControlPrefix;
    assert i < |ControlPrefix(refs)| ==> refs[i] == ControlRef(ControlPrefix(refs)[i]);
  }

  method HasExplicitZOrder(d: Document, ps: seq<Position>, ids: seq<ObjectId>) returns (found: bool)
    requires |ps| == |d.controls|
    ensures found <==> ExplicitZOrder(d, ps, ids)
  {
    hide ExplicitAt;
    for i := 0 to |ids|
      invariant forall k :: 0 <= k < i ==> !ExplicitAt(d, ps, ids[k])
    {
      if ExplicitAt(d, ps, ids[i]) { return true; }
    }
    found := false;
  }

  /** The last child list, in the order form, pages, controls, that refers to a control. */
  method FindSiblings(d: Document, target: ObjectId) returns (siblings: Option<Owner>)
    ensures siblings.Some? ==> IsOwner(d, siblings.value) && ControlRef(target) in ChildrenOf(d, siblings.value)
    ensures siblings.None? ==> forall o :: IsOwner(d, o) ==> ControlRef(target) !in ChildrenOf(d, o)
  {
    siblings := None;
    var r := ControlRef(target);
    if r in d.formChildren { siblings := Some(FormOwner); }
    for i := 0 to |d.pages|
      invariant siblings.Some? ==> IsOwner(d, siblings.value) && r in ChildrenOf(d, siblings.value)
      invariant siblings.None? ==> r !in d.formChildren && forall k :: 0 <= k < i ==> r !in d.pages[k].children
    {
      if r in d.pages[i].children { siblings := Some(PageOwner(i)); }
    }
    for i := 0 to |d.controls|
      invariant siblings.Some? ==> IsOwner(d, siblings.value) && r in ChildrenOf(d, siblings.value)
      invariant siblings.None? ==> r !in d.formChildren && forall k :: 0 <= k < |d.pages| ==> r !in d.pages[k].children
      invariant siblings.None? ==> forall k :: 0 <= k < i ==> r !in d.controls[k].children
    {
      if r in d.controls[i].children { siblings := Some(ControlOwner(i)); }
    }
  }

  lemma {:induction false} SiblingsAreOwner(d: Document, ids: seq<ObjectId>, target: ObjectId, siblings: Option<Owner>)
    requires PlacementGroup(d, target) == Some(ids)
    requires siblings.Some? ==> IsOwner(d, siblings.value) && ControlRef(target) in ChildrenOf(d, siblings.value)
    requires siblings.None? ==> forall o :: IsOwner(d, o) ==> ControlRef(target) !in ChildrenOf(d, o)
    ensures siblings.Some? && siblings == OwnerOf(d, ControlRef(target))
    ensures PlanFor(d, ids, target) ==
            if |ChildrenOf(d, siblings.value)| == |ids| then InPlace(siblings.value)
            else match FirstGatherable(d, ids, 0) case Some(pages) => Gathered(pages) case None => NoPlan
  {
    hide OwnerOf, IsOwner, ChildrenOf, FirstGatherable, ScopeOf, GroupOf;
    var o := OwnerOf(d, ControlRef(target)).value;
    OwnerOfIff(d, ControlRef(target), o);
    if siblings.Some? { OwnerOfIff(d, ControlRef(target), siblings.value); }
  }

  method FindGatherable(d: Document, ids: seq<ObjectId>) returns (owned: Option<seq<nat>>)
    ensures owned == FirstGatherable(d, ids, 0)
  {
    hide Gatherable;
    for i := 0 to |d.controls|
      invariant FirstGatherable(d, ids, 0) == FirstGatherable(d, ids, i)
    {
      var pages := Gatherable(d, i, ids);
      if pages.Some? { return pages; }
    }
    owned := None;
  }
}
