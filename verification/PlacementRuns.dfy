/** Runs that mix the three placement setters. Whatever the order of the assignments, a document that
    passes validation still does, and what one setter stores is not disturbed by the others. */
module PlacementRuns {
  import opened FormGraph
  import opened FormModel
  import opened Optional
  import opened Placement
  import opened Regrouping
  import opened Sequences
  import opened TabOrder
  import opened ZOrder

  // ---------- What a ZOrder assignment makes of the ownership tree ----------

  /** Every list holds what it held, in any order. */
  ghost predicate SameLists(d: Document, d': Document) {
    forall o, r :: IsOwner(d, o) && IsOwner(d', o) ==> (r in ChildrenOf(d', o) <==> r in ChildrenOf(d, o))
  }

  /** The owners are pages of one control. */
  ghost predicate PagesOfOne(d: Document, t: set<Owner>, parent: nat) {
    forall o :: o in t ==> IsOwner(d, o) && o.PageOwner? && OwnerOf(d, RefOf(d, o)) == Some(ControlOwner(parent))
  }

  /** Some pages of one control gave their controls to one of them. */
  ghost predicate Collapsed(d: Document, d': Document, t: set<Owner>, keeper: Owner, refs: seq<ChildRef>, parent: nat) {
    Regrouped(d, d', t, keeper, refs) && PagesOfOne(d, t, parent)
  }

  ghost predicate Reshuffled(d: Document, d': Document) {
    && SameObjects(d, d') && SameCounts(d, d')
    && (SameLists(d, d') || exists t, keeper, refs, parent :: Collapsed(d, d', t, keeper, refs, parent))
  }

  lemma {:induction false} NothingReshuffled(d: Document)
    ensures Reshuffled(d, d)
  {
    hide Occurrences, ChildrenOf, IsOwner;
    assert SameLists(d, d);
  }

  lemma {:induction false} PermutedReshuffles(d: Document, ps: seq<Position>, g: TabOrderGroup, o: Owner, to: nat)
    requires Permutable(d, ps, g.ids, o) && |g.orders| == |g.ids| && g.targetIndex < |g.ids| && to < |g.ids|
    ensures Reshuffled(d, Permuted(d, ps, g, o, to).d)
  {
    hide Occurrences, ChildrenOf, Moved, Stored, KeptOrders, ControlPrefix, SameObjects, SameCounts;
    var refs := Moved(ChildrenOf(d, o), g.targetIndex, to);
    MovedMultiset(ChildrenOf(d, o), g.targetIndex, to);
    WithSameObjects(d, o, refs);
    CountsInPlace(d, o, refs);
    ListsInPlace(d, o, refs);
  }

  lemma {:induction false} ListsInPlace(d: Document, o: Owner, refs: seq<ChildRef>)
    requires IsOwner(d, o) && forall r :: r in refs <==> r in ChildrenOf(d, o)
    ensures SameLists(d, WithChildren(d, o, refs))
  {
    hide WithChildren, ChildrenOf, IsOwner;
  }

  lemma {:induction false} GatheredReshuffles(d: Document, ps: seq<Position>, g: TabOrderGroup, target: ObjectId,
                                              pages: seq<nat>, to: nat)
    requires |ps| == |d.controls| && UniqueIds(d) && PlacementGroup(d, target) == Some(g.ids) && |g.orders| == |g.ids|
    requires PlanFor(d, g.ids, target) == Gathered(pages) && g.targetIndex < |g.ids| && to < |g.ids|
    requires pages != [] && ArePages(d, pages) && Permutable(Gather(d, pages), ps, g.ids, PageOwner(pages[0]))
    ensures Reshuffled(d, Permuted(Gather(d, pages), ps, g, PageOwner(pages[0]), to).d)
  {
    hide OwnerOf, ScopeOf, GroupOf, UniqueIds, PlacementGroup, PlanFor, Occurrences, Resolve, Moved, RefsTo, Gather,
      Stored, KeptOrders, WithChildren, ContentOf, ControlPrefix, SameObjects, SameCounts, Relisted, Gathers;
    InOwnGroup(d, target);
    var j := PlanGathers(d, g.ids, target);
    GatheredList(d, j, pages, g.ids);
    GatheredRegroups(d, j, pages, g.ids, g.targetIndex, to);
    var moved, keeper := Moved(RefsTo(g.ids), g.targetIndex, to), PageOwner(pages[0]);
    GatheredPagesOfOne(d, j, pages, g.ids);
    assert Collapsed(d, WithChildren(Gather(d, pages), keeper, moved), PageOwners(pages), keeper, moved, j);
  }

  lemma {:induction false} GatheredPagesOfOne(d: Document, j: nat, pages: seq<nat>, ids: seq<ObjectId>)
    requires GathersGroup(d, j, pages, ids)
    ensures PagesOfOne(d, PageOwners(pages), j)
  {
    hide OwnerOf, ScopeOf, GroupOf, ContentOf, RefsTo;
    forall o | o in PageOwners(pages)
      ensures IsOwner(d, o) && o.PageOwner? && OwnerOf(d, RefOf(d, o)) == Some(ControlOwner(j))
    {
      var k :| 0 <= k < |pages| && PageOwner(pages[k]) == o;
      PanelOfScope(d, o, j);
    }
  }

  /** However it ends, an assignment of ZOrder keeps all objects and every object's number of places, and
      either every list keeps its members or pages of one panel give theirs to the first of them. */
  lemma {:induction false} ZOrderReshuffles(d: Document, ps: seq<Position>, target: ObjectId, k: int)
    requires |ps| == |d.controls| && UniqueIds(d)
    ensures Reshuffled(d, AfterZOrder(d, ps, target, k).d)
  {
    hide UniqueIds, GroupFor, PlanFor, ExplicitZOrder, Permuted, Permutable, Reshuffled, Gather, PlacementGroup,
      Numbering, Reads, ChildrenOf, IsOwner;
    NothingReshuffled(d);
    var found := GroupFor(d, ps, target);
    if found.Some? && !ExplicitZOrder(d, ps, found.value.ids) && Clamped(k, |found.value.ids|) - 1 != found.value.targetIndex {
      var g, to := found.value, Clamped(k, |found.value.ids|) - 1;
      PlanMeans(d, ps, g.ids, target);
      match PlanFor(d, g.ids, target) {
        case NoPlan =>
        case InPlace(o) => PermutedReshuffles(d, ps, g, o, to);
        case Gathered(pages) => GatheredReshuffles(d, ps, g, target, pages, to);
      }
    }
  }

  // ---------- Validation still passes ----------

  lemma {:induction false} SameNodeRefs(d: Document, d': Document)
    requires SameObjects(d, d')
    ensures NodeRefs(d') == NodeRefs(d) && (UniqueIds(d) ==> UniqueIds(d'))
  {
    SameObjectsResolve(d, d');
    hide Owners;
    forall i | 0 <= i < |NodeRefs(d)| ensures NodeRefs(d')[i] == NodeRefs(d)[i] { }
  }

  /** What remains to be shown of a document with the same objects and places. */
  lemma {:induction false} SoundAgain(d: Document, d': Document)
    requires Sound(d) && SameObjects(d, d') && SameCounts(d, d') && !HasCycle(d')
    requires forall o :: IsOwner(d', o) ==> !IllegalChildren(d', o)
    ensures Sound(d')
  {
    hide Sound, HasCycle, IllegalChildren, NodeRefs, RefsIn, Owners, ChildrenOf, Resolve;
    SoundMeans(d);
    SameNodeRefs(d, d');
    SameObjectsResolve(d, d');
    forall o, r | Lists(d', o, r) ensures Resolves(d', r) {
      OwnerRefs(d', Owners(d'), o, r);
      assert Occurrences(d', r) == Occurrences(d, r);
      var q := SomeOwner(d, Owners(d), r);
      assert Lists(d, q, r);
    }
    SoundBy(d');
  }

  lemma {:induction false} SoundBy(d: Document)
    requires d.formId != NULL_ID && UniqueIds(d) && !HasCycle(d)
    requires forall r :: r in NodeRefs(d) ==> r.id != NULL_ID && Occurrences(d, r) == 1
    requires forall o, r :: Lists(d, o, r) ==> Resolves(d, r)
    requires forall o :: IsOwner(d, o) ==> !IllegalChildren(d, o)
    ensures Sound(d)
  {
    hide HasCycle, IllegalChildren, NodeRefs, Occurrences, UniqueIds, Resolve, IsOwner, MisplacesByKind;
    MisplacedByKind(d);
    forall code ensures !Defect(d, code) { }
  }

  lemma {:induction false} SameListsSound(d: Document, d': Document)
    requires Sound(d) && SameObjects(d, d') && SameCounts(d, d') && SameLists(d, d')
    ensures Sound(d')
  {
    hide Sound, HasCycle, IllegalChildren, SameObjects, SameCounts, SameLists;
    SoundMeans(d);
    SameObjectsResolve(d, d');
    forall o | IsOwner(d', o) ensures !IllegalChildren(d', o) { SameListLegal(d, d', o); }
    SameListsAcyclic(d, d');
    SoundAgain(d, d');
  }

  lemma {:induction false} SameListLegal(d: Document, d': Document, o: Owner)
    requires SameObjects(d, d') && SameLists(d, d') && IsOwner(d, o) && IsOwner(d', o) && !IllegalChildren(d, o)
    ensures !IllegalChildren(d', o)
  {
    hide ChildrenOf;
    SamePolicy(d, d', o);
    if ChildrenOf(d', o) != [] { assert ChildrenOf(d', o)[0] in ChildrenOf(d, o); }
  }

  lemma {:induction false} SamePolicy(d: Document, d': Document, o: Owner)
    requires SameObjects(d, d') && IsOwner(d, o) && IsOwner(d', o)
    ensures PolicyAt(d', o) == PolicyAt(d, o)
  {
  }

  lemma {:induction false} SameListsAcyclic(d: Document, d': Document)
    requires SameObjects(d, d') && SameLists(d, d') && !HasCycle(d)
    ensures !HasCycle(d')
  {
    hide IsCycle, SameObjects, SameLists;
    if HasCycle(d') {
      var p :| IsCycle(d', p);
      SameCycle(d, d', p);
    }
  }

  lemma {:induction false} SameCycle(d: Document, d': Document, p: seq<ChildRef>)
    requires SameObjects(d, d') && SameLists(d, d') && IsCycle(d', p)
    ensures IsCycle(d, p)
  {
    hide ChildrenOf, Resolve, IsOwner, SameObjects;
    SameObjectsResolve(d, d');
    forall q, r ensures Edge(d', q, r) <==> Edge(d, q, r) { }
  }

  // ---------- Gathering makes no cycle ----------

  lemma {:induction false} CycleParents(d: Document, p: seq<ChildRef>)
    requires IsCycle(d, p)
    ensures Elements(p) != {} && forall r :: r in Elements(p) ==> HasParentIn(d, Elements(p), r)
  {
    hide Edge;
    assert p[0] in Elements(p);
    forall r | r in Elements(p) ensures HasParentIn(d, Elements(p), r) {
      var i :| 0 <= i < |p| && p[i] == r;
      var k := if i == 0 then |p| - 2 else i - 1;
      assert Edge(d, p[k], p[k + 1]) && p[k] in Elements(p);
    }
  }

  /** An edge after the gathering: it was there before, or leads from the keeper to a gathered control. */
  lemma {:induction false} CollapsedEdge(d: Document, d': Document, t: set<Owner>, keeper: Owner, refs: seq<ChildRef>,
                                         parent: nat, q: ChildRef, r: ChildRef)
    requires Collapsed(d, d', t, keeper, refs, parent) && Edge(d', q, r)
    ensures Edge(d, q, r) || (q == RefOf(d, keeper) && r in refs)
  {
    hide SameCounts, Gathers, OwnerOf, SameObjects, NodeRefs, PagesOfOne, Relisted, ChildrenOf, IsOwner, Owners,
      Resolve;
    SameObjectsResolve(d, d');
    RelistedAt(d, d', t, keeper, refs, Resolve(d, q).value);
  }

  /** A gathered control was on one of the pages. */
  lemma {:induction false} GatheredFrom(d: Document, d': Document, t: set<Owner>, keeper: Owner, refs: seq<ChildRef>,
                                        parent: nat, r: ChildRef) returns (o: Owner)
    requires Collapsed(d, d', t, keeper, refs, parent) && r in refs && UniqueIds(d)
    ensures o in t && IsOwner(d, o) && o.PageOwner? && Edge(d, RefOf(d, o), r)
  {
    hide SameCounts, Relisted, SameObjects, OwnerOf, NodeRefs, UniqueIds, Resolve;
    o := OwnerOf(d, r).value;
    OwnerOfIff(d, r, o);
    ResolveUnique(d, o);
  }

  /** Every gathered page is a child of the one control. */
  lemma {:induction false} ParentEdge(d: Document, t: set<Owner>, parent: nat, o: Owner)
    requires PagesOfOne(d, t, parent) && o in t && UniqueIds(d)
    ensures parent < |d.controls| && IsOwner(d, o) && o != FormOwner
    ensures Edge(d, ControlRef(d.controls[parent].id), RefOf(d, o))
  {
    hide OwnerOf, NodeRefs, UniqueIds, Resolve;
    OwnerOfIff(d, RefOf(d, o), ControlOwner(parent));
    ResolveUnique(d, ControlOwner(parent));
    ResolveUnique(d, o);
  }

  lemma {:induction false} OnlyParent(d: Document, t: set<Owner>, parent: nat, o: Owner, q: ChildRef)
    requires PagesOfOne(d, t, parent) && o in t && IsOwner(d, o) && o != FormOwner && Edge(d, q, RefOf(d, o))
    ensures parent < |d.controls| && q == ControlRef(d.controls[parent].id)
  {
    hide OwnerOf;
    OwnerOfIff(d, RefOf(d, o), ControlOwner(parent));
    OwnerOfIff(d, RefOf(d, o), Resolve(d, q).value);
  }

  /** The pages as references. */
  ghost function PageRefs(d: Document, t: set<Owner>): set<ChildRef>
    requires forall o :: o in t ==> IsOwner(d, o) && o.PageOwner?
  {
    set o | o in t :: RefOf(d, o)
  }

  lemma {:induction false} CollapsedAcyclic(d: Document, d': Document, t: set<Owner>, keeper: Owner,
                                            refs: seq<ChildRef>, parent: nat)
    requires Collapsed(d, d', t, keeper, refs, parent) && UniqueIds(d) && !HasCycle(d)
    ensures !HasCycle(d')
  {
    hide Collapsed, UniqueIds, Edge, IsPath;
    if HasCycle(d') {
      var p :| IsCycle(d', p);
      CycleParents(d', p);
      CollapsedParents(d, d', t, keeper, refs, parent, Elements(p));
    }
  }

  /** A parent of a member of u: one in u, or one of the gathered pages if the keeper is in u. */
  lemma {:induction false} EarlierParent(d: Document, d': Document, t: set<Owner>, keeper: Owner, refs: seq<ChildRef>,
                                         parent: nat, u: set<ChildRef>, wider: set<ChildRef>, r: ChildRef)
    requires Collapsed(d, d', t, keeper, refs, parent) && UniqueIds(d) && HasParentIn(d', u, r) && u <= wider
    requires RefOf(d, keeper) in u ==> PageRefs(d, t) <= wider
    ensures HasParentIn(d, wider, r)
  {
    hide Regrouped, Edge, UniqueIds, RefOf, OwnerOf;
    var q := ParentIn(d', u, r);
    CollapsedEdge(d, d', t, keeper, refs, parent, q, r);
    if !Edge(d, q, r) {
      var o := GatheredFrom(d, d', t, keeper, refs, parent, r);
      assert RefOf(d, o) in PageRefs(d, t);
    }
  }

  /** A gathered page has the keeper's parent. */
  lemma {:induction false} EarlierPanel(d: Document, d': Document, t: set<Owner>, keeper: Owner, refs: seq<ChildRef>,
                                        parent: nat, u: set<ChildRef>, wider: set<ChildRef>, o: Owner)
    requires Collapsed(d, d', t, keeper, refs, parent) && UniqueIds(d) && u <= wider && o in t
    requires HasParentIn(d', u, RefOf(d, keeper))
    ensures HasParentIn(d, wider, RefOf(d, o))
  {
    hide Regrouped, Edge, UniqueIds, RefOf, OwnerOf;
    KeeperPage(d, d', t, keeper, refs, parent);
    ParentEdge(d, t, parent, o);
    var q := ParentIn(d', u, RefOf(d, keeper));
    CollapsedEdge(d, d', t, keeper, refs, parent, q, RefOf(d, keeper));
    OnlyParent(d, t, parent, keeper, q);
  }

  /** A set closed under parents after the gathering gives one before it. */
  lemma {:induction false} CollapsedParents(d: Document, d': Document, t: set<Owner>, keeper: Owner,
                                            refs: seq<ChildRef>, parent: nat, u: set<ChildRef>)
    requires Collapsed(d, d', t, keeper, refs, parent) && UniqueIds(d) && u != {}
    requires forall r :: r in u ==> HasParentIn(d', u, r)
    ensures HasCycle(d)
  {
    hide Regrouped, HasParentIn, UniqueIds, HasCycle, RefOf, OwnerOf;
    KeeperPage(d, d', t, keeper, refs, parent);
    var top := RefOf(d, keeper);
    var wider := if top in u then u + PageRefs(d, t) else u;
    forall r | r in wider ensures HasParentIn(d, wider, r) {
      if r in u {
        EarlierParent(d, d', t, keeper, refs, parent, u, wider, r);
      } else {
        var o :| o in t && RefOf(d, o) == r;
        EarlierPanel(d, d', t, keeper, refs, parent, u, wider, o);
      }
    }
    ParentsMakeCycle(d, wider);
  }

  lemma {:induction false} KeeperPage(d: Document, d': Document, t: set<Owner>, keeper: Owner, refs: seq<ChildRef>,
                                      parent: nat)
    requires Collapsed(d, d', t, keeper, refs, parent)
    ensures keeper in t && IsOwner(d, keeper) && keeper.PageOwner? && RefOf(d, keeper) !in refs
  {
    hide SameCounts, SameObjects, OwnerOf, Resolve;
  }

  lemma {:induction false} CollapsedLegal(d: Document, d': Document, t: set<Owner>, keeper: Owner, refs: seq<ChildRef>,
                                          parent: nat, o: Owner)
    requires Collapsed(d, d', t, keeper, refs, parent) && IsOwner(d, o) && IsOwner(d', o) && !IllegalChildren(d, o)
    ensures !IllegalChildren(d', o)
  {
    hide SameCounts, OwnerOf, Resolve, ChildrenOf, SameObjects;
    SamePolicy(d, d', o);
  }

  lemma {:induction false} CollapsedSound(d: Document, d': Document, t: set<Owner>, keeper: Owner, refs: seq<ChildRef>,
                                          parent: nat)
    requires Collapsed(d, d', t, keeper, refs, parent) && Sound(d)
    ensures Sound(d')
  {
    hide Sound, IllegalChildren, SameCounts, SameObjects, Relisted, Gathers, PagesOfOne, HasCycle, UniqueIds;
    SoundMeans(d);
    SameObjectsResolve(d, d');
    forall o | IsOwner(d', o) ensures !IllegalChildren(d', o) { CollapsedLegal(d, d', t, keeper, refs, parent, o); }
    CollapsedAcyclic(d, d', t, keeper, refs, parent);
    SoundAgain(d, d');
  }

  /** However an assignment of ZOrder ends, a document that passes validation passes it afterwards. */
  lemma {:induction false} ZOrderKeepsSound(d: Document, ps: seq<Position>, target: ObjectId, k: int)
    requires |ps| == |d.controls| && UniqueIds(d) && Sound(d)
    ensures Sound(AfterZOrder(d, ps, target, k).d)
  {
    hide Sound, AfterZOrder, SameLists, SameObjects, SameCounts, Collapsed;
    var d' := AfterZOrder(d, ps, target, k).d;
    ZOrderReshuffles(d, ps, target, k);
    if SameLists(d, d') {
      SameListsSound(d, d');
    } else {
      var t, keeper, refs, parent :| Collapsed(d, d', t, keeper, refs, parent);
      CollapsedSound(d, d', t, keeper, refs, parent);
    }
  }

  // ---------- The other values of a position ----------

  lemma {:induction false} StoredDefaults(d: Document, d': Document, ps: seq<Position>, ids: seq<ObjectId>,
                                          orders: seq<int>, kept: set<nat>, id: ObjectId)
    requires |ps| == |d.controls| == |d'.controls| && |orders| == |ids| && SlotOf(d', id) == SlotOf(d, id)
    ensures IsDefault(d', Stored(d', ps, ids, orders, kept, |ids|), id) <==> IsDefault(d, ps, id)
  {
    hide SlotOf, Stored;
    var slot := SlotOf(d', id);
    if slot.Some? { StoredFrame(d', ps, ids, orders, kept, |ids|, slot.value); }
  }

  lemma {:induction false} TabOrderDefaults(d: Document, ps: seq<Position>, g: TabOrderGroup, k: int, id: ObjectId)
    requires |ps| == |d.controls| && |g.orders| == |g.ids| && g.targetIndex < |g.ids|
    ensures IsDefault(d, WithTabOrder(d, ps, g, k), id) <==> IsDefault(d, ps, id)
  {
    hide Stored, IsDefault, SlotOf, Untouched;
    if 1 <= k <= |g.ids| {
      var orders := ShiftedOrders(g.orders, g.orders[g.targetIndex], k);
      StoredDefaults(d, d, ps, g.ids, orders, Untouched(g.orders, orders), id);
    }
  }

  /** A successful assignment of ZOrder changes no default control. */
  lemma {:induction false} ZOrderDefaults(d: Document, ps: seq<Position>, target: ObjectId, k: int, id: ObjectId)
    requires |ps| == |d.controls| && UniqueIds(d) && AfterZOrder(d, ps, target, k).status != Threw
    ensures var r := AfterZOrder(d, ps, target, k);
            IsDefault(r.d, r.ps, id) <==> IsDefault(d, ps, id)
  {
    hide *;
    ZOrderMovesOrNot(d, ps, target, k);
    var r := AfterZOrder(d, ps, target, k);
    if r.d != d || r.ps != ps {
      var g := GroupFor(d, ps, target).value;
      var to := Clamped(k, |g.ids|) - 1;
      MoveTakenMeans(d, ps, g, to, r);
      SameObjectsResolve(d, r.d);
      StoredDefaults(d, r.d, ps, Moved(g.ids, g.targetIndex, to), KeptOrders(g, Moved(g.ids, g.targetIndex, to)), {}, id);
    }
  }

  /** Without an exception, an assignment of ZOrder moves the group, or changes nothing. */
  lemma {:induction false} ZOrderMovesOrNot(d: Document, ps: seq<Position>, target: ObjectId, k: int)
    requires |ps| == |d.controls| && UniqueIds(d) && AfterZOrder(d, ps, target, k).status != Threw
    ensures var r := AfterZOrder(d, ps, target, k);
            (r.d == d && r.ps == ps) ||
            (GroupFor(d, ps, target).Some? && r.status == Applied &&
             var g := GroupFor(d, ps, target).value;
             |g.orders| == |g.ids| && g.targetIndex < |g.ids| && 1 <= Clamped(k, |g.ids|) <= |g.ids| &&
             MoveTaken(d, ps, g, Clamped(k, |g.ids|) - 1, r))
  {
    hide UniqueIds, GroupFor, PlanFor, ExplicitZOrder, Permutable, Gather, PlacementGroup, Numbering, Reads,
      ChildrenOf, IsOwner, MoveTaken, WithChildren, Stored, KeptOrders, ControlPrefix, Moved;
    var r, found := AfterZOrder(d, ps, target, k), GroupFor(d, ps, target);
    if found.Some? && r.status == Applied && Clamped(k, |found.value.ids|) - 1 != found.value.targetIndex {
      AppliedMoves(d, ps, target, k, found.value);
    }
  }

  lemma {:induction false} ZOrderKeepsDefaults(d: Document, ps: seq<Position>, target: ObjectId, k: int)
    requires |ps| == |d.controls| && UniqueIds(d) && AfterZOrder(d, ps, target, k).status != Threw
    requires OneDefaultPerGroup(d, ps)
    ensures OneDefaultPerGroup(AfterZOrder(d, ps, target, k).d, AfterZOrder(d, ps, target, k).ps)
  {
    hide AfterZOrder, IsDefault, PlacementGroup, GroupFor, UniqueIds;
    var r := AfterZOrder(d, ps, target, k);
    forall a, b, c | PlacementGroup(r.d, a).Some? && b in PlacementGroup(r.d, a).value && c in PlacementGroup(r.d, a).value &&
      IsDefault(r.d, r.ps, b) && IsDefault(r.d, r.ps, c)
      ensures b == c
    {
      ZOrderDefaults(d, ps, target, k, b);
      ZOrderDefaults(d, ps, target, k, c);
      SameMembersAfter(d, ps, target, k, a);
    }
  }

  /** A group has the same members after a successful assignment of ZOrder, if in another order. */
  lemma {:induction false} SameMembersAfter(d: Document, ps: seq<Position>, target: ObjectId, k: int, a: ObjectId)
    requires |ps| == |d.controls| && UniqueIds(d) && AfterZOrder(d, ps, target, k).status != Threw
    ensures var before, after := PlacementGroup(d, a), PlacementGroup(AfterZOrder(d, ps, target, k).d, a);
            (before.Some? <==> after.Some?) &&
            (before.Some? ==> forall id :: id in after.value <==> id in before.value)
  {
    hide AfterZOrder, PlacementGroup, GroupFor, UniqueIds, Moved, Stored, KeptOrders, SameObjects, Occurrences;
    ZOrderMovesOrNot(d, ps, target, k);
  }

  // ---------- What an assignment of DefaultControl leaves alone ----------

  /** Only the default of a control differs. */
  ghost predicate SameOrdersStored(ps: seq<Position>, ps': seq<Position>) {
    |ps'| == |ps| && forall i :: 0 <= i < |ps| ==> ps'[i].tabOrder == ps[i].tabOrder && ps'[i].zOrder == ps[i].zOrder
  }

  lemma {:induction false} DefaultAtFrame(d: Document, ps: seq<Position>, id: ObjectId, value: Property<Option<bool>>)
    requires |ps| == |d.controls|
    ensures SameOrdersStored(ps, DefaultAt(d, ps, id, value))
  {
    hide SlotOf;
  }

  lemma {:induction false} ClearedFrame(d: Document, ps: seq<Position>, ids: seq<ObjectId>)
    requires |ps| == |d.controls|
    ensures SameOrdersStored(ps, ClearedDefaults(d, ps, ids))
  {
    hide DefaultAt;
    if ids != [] {
      ClearedFrame(d, ps, ids[..|ids| - 1]);
      DefaultAtFrame(d, ClearedDefaults(d, ps, ids[..|ids| - 1]), ids[|ids| - 1], Implicit);
    }
  }

  lemma {:induction false} DefaultOpFrame(d: Document, ps: seq<Position>, op: DefaultOp)
    requires |ps| == |d.controls|
    ensures SameOrdersStored(ps, AfterDefaultOp(d, ps, op))
  {
    hide DefaultAt, ClearedDefaults, PlacementGroup;
    match PlacementGroup(d, op.id)
    case None =>
    case Some(ids) =>
      match op
      case SelectDefault(id) =>
        ClearedFrame(d, ps, ids);
        DefaultAtFrame(d, ClearedDefaults(d, ps, ids), id, Explicit(Some(true)));
      case DeselectDefault(id) =>
        DefaultAtFrame(d, ps, id, Implicit);
  }

  lemma {:induction false} SameTabOrder(d: Document, ps: seq<Position>, ps': seq<Position>, c: ObjectId)
    requires |ps| == |d.controls| && SameOrdersStored(ps, ps')
    ensures ReadTabOrder(d, ps', c) == ReadTabOrder(d, ps, c)
  {
    hide PlacementGroup, OrdersOf, SlotOf, IndexOf;
    var group := PlacementGroup(d, c);
    if group.Some? {
      forall i | 0 <= i < |group.value| ensures OrderAt(d, ps', group.value, i) == OrderAt(d, ps, group.value, i) { }
      SameOrders(d, ps, ps', group.value);
    }
  }

  // ---------- Runs ----------

  datatype PlacementOp = SetTabOrder(id: ObjectId, k: int) | SetZOrder(id: ObjectId, k: int) | SetDefault(op: DefaultOp)

  function OpId(op: PlacementOp): ObjectId {
    if op.SetDefault? then op.op.id else op.id
  }

  ghost function Step(d: Document, ps: seq<Position>, op: PlacementOp): (r: Outcome)
    requires |ps| == |d.controls| && UniqueIds(d)
    ensures |r.ps| == |r.d.controls|
  {
    match op
    case SetTabOrder(id, k) =>
      (match GroupFor(d, ps, id)
       case None => Outcome(d, ps, UnsupportedSurface)
       case Some(g) => Outcome(d, WithTabOrder(d, ps, g, k), Applied))
    case SetZOrder(id, k) => AfterZOrder(d, ps, id, k)
    case SetDefault(dop) =>
      Outcome(d, AfterDefaultOp(d, ps, dop), if PlacementGroup(d, dop.id).Some? then Applied else UnsupportedSurface)
  }

  /** A run of assignments, which an exception ends. */
  ghost function Run(d: Document, ps: seq<Position>, ops: seq<PlacementOp>): (r: Outcome)
    requires |ps| == |d.controls| && UniqueIds(d)
    ensures |r.ps| == |r.d.controls| && UniqueIds(r.d) && SameObjects(d, r.d)
  {
    if ops == [] then Outcome(d, ps, Applied)
    else
      var m := Run(d, ps, ops[..|ops| - 1]);
      if m.status == Threw then m
      else
        StepObjects(m.d, m.ps, ops[|ops| - 1]);
        SameObjectsTransitive(d, m.d, Step(m.d, m.ps, ops[|ops| - 1]).d);
        Step(m.d, m.ps, ops[|ops| - 1])
  }

  lemma {:induction false} StepObjects(d: Document, ps: seq<Position>, op: PlacementOp)
    requires |ps| == |d.controls| && UniqueIds(d)
    ensures var d' := Step(d, ps, op).d;
            SameObjects(d, d') && SameCounts(d, d') && UniqueIds(d')
  {
    hide AfterZOrder, GroupFor, WithTabOrder, AfterDefaultOp, PlacementGroup, UniqueIds, SameLists, Collapsed,
      SameObjects, SameCounts;
    NothingReshuffled(d);
    if op.SetZOrder? { ZOrderReshuffles(d, ps, op.id, op.k); }
    SameNodeRefs(d, Step(d, ps, op).d);
  }

  lemma {:induction false} StepSound(d: Document, ps: seq<Position>, op: PlacementOp)
    requires |ps| == |d.controls| && UniqueIds(d) && Sound(d)
    ensures Sound(Step(d, ps, op).d)
  {
    hide AfterZOrder, GroupFor, WithTabOrder, AfterDefaultOp, PlacementGroup, UniqueIds, Sound;
    if op.SetZOrder? { ZOrderKeepsSound(d, ps, op.id, op.k); }
  }

  /** Any run of assignments, even one that ends in an exception, leaves a document that passes validation. */
  lemma {:induction false} RunSound(d: Document, ps: seq<Position>, ops: seq<PlacementOp>)
    requires |ps| == |d.controls| && UniqueIds(d) && Sound(d)
    ensures Sound(Run(d, ps, ops).d)
  {
    hide Step, Sound, UniqueIds;
    if ops != [] {
      var m := Run(d, ps, ops[..|ops| - 1]);
      RunSound(d, ps, ops[..|ops| - 1]);
      if m.status != Threw { StepSound(m.d, m.ps, ops[|ops| - 1]); }
    }
  }

  lemma {:induction false} StepDefaults(d: Document, ps: seq<Position>, op: PlacementOp)
    requires |ps| == |d.controls| && UniqueIds(d) && OneDefaultPerGroup(d, ps) && Resolves(d, ControlRef(OpId(op)))
    requires Step(d, ps, op).status != Threw
    ensures OneDefaultPerGroup(Step(d, ps, op).d, Step(d, ps, op).ps)
  {
    hide AfterZOrder, GroupFor, WithTabOrder, AfterDefaultOp, PlacementGroup, UniqueIds, Resolve, IsDefault;
    match op {
      case SetTabOrder(id, k) =>
        var found := GroupFor(d, ps, id);
        if found.Some? {
          forall c ensures IsDefault(d, WithTabOrder(d, ps, found.value, k), c) <==> IsDefault(d, ps, c) {
            TabOrderDefaults(d, ps, found.value, k, c);
          }
        }
      case SetZOrder(id, k) => ZOrderKeepsDefaults(d, ps, id, k);
      case SetDefault(dop) => DefaultOpKeeps(d, ps, dop);
    }
  }

  /** Any run without an exception keeps at most one default control in every group. */
  lemma {:induction false} RunKeepsDefaults(d: Document, ps: seq<Position>, ops: seq<PlacementOp>)
    requires |ps| == |d.controls| && UniqueIds(d) && OneDefaultPerGroup(d, ps) && Run(d, ps, ops).status != Threw
    requires forall i :: 0 <= i < |ops| ==> Resolves(d, ControlRef(OpId(ops[i])))
    ensures OneDefaultPerGroup(Run(d, ps, ops).d, Run(d, ps, ops).ps)
  {
    hide Step, OneDefaultPerGroup, UniqueIds, Resolve;
    if ops != [] {
      var m := Run(d, ps, ops[..|ops| - 1]);
      RunKeepsDefaults(d, ps, ops[..|ops| - 1]);
      SameObjectsResolve(d, m.d);
      StepDefaults(m.d, m.ps, ops[|ops| - 1]);
    }
  }

  lemma {:induction false} StepTabOrder(d: Document, ps: seq<Position>, op: PlacementOp, c: ObjectId)
    requires |ps| == |d.controls| && UniqueIds(d) && !op.SetTabOrder? && Step(d, ps, op).status != Threw
    ensures ReadTabOrder(Step(d, ps, op).d, Step(d, ps, op).ps, c) == ReadTabOrder(d, ps, c)
  {
    hide AfterZOrder, GroupFor, AfterDefaultOp, PlacementGroup, UniqueIds, ReadTabOrder;
    match op {
      case SetTabOrder(_, _) =>
      case SetZOrder(id, k) =>
        var r := AfterZOrder(d, ps, id, k);
        ZOrderMovesOrNot(d, ps, id, k);
        if r.d != d || r.ps != ps { ZOrderKeepsTabOrders(d, ps, id, k, GroupFor(d, ps, id).value, c); }
      case SetDefault(dop) =>
        DefaultOpFrame(d, ps, dop);
        SameTabOrder(d, ps, AfterDefaultOp(d, ps, dop), c);
    }
  }

  /** Assignments of ZOrder and DefaultControl, in any number and order, change no readable TabOrder. */
  lemma {:induction false} RunKeepsTabOrders(d: Document, ps: seq<Position>, ops: seq<PlacementOp>, c: ObjectId)
    requires |ps| == |d.controls| && UniqueIds(d) && Run(d, ps, ops).status != Threw
    requires forall i :: 0 <= i < |ops| ==> !ops[i].SetTabOrder?
    ensures ReadTabOrder(Run(d, ps, ops).d, Run(d, ps, ops).ps, c) == ReadTabOrder(d, ps, c)
  {
    hide Step, UniqueIds, ReadTabOrder;
    if ops != [] {
      var m := Run(d, ps, ops[..|ops| - 1]);
      RunKeepsTabOrders(d, ps, ops[..|ops| - 1], c);
      StepTabOrder(m.d, m.ps, ops[|ops| - 1], c);
    }
  }
}
