/** Which controls a placement group holds, said by kinds and child lists alone: the group of a control in a
    sound document is its own list, or a panel whose pages share one area; and only a SeparateByPage of
    a wrong type leaves a control without a group. */
module PlacementGroups {
  import opened FormGraph
  import opened FormModel
  import opened Limits
  import opened Optional
  import opened Placement
  import opened Sequences
  import opened TabOrder

  /** The list of a panel, or of a page that the panel lists. */
  ghost predicate InPanel(d: Document, j: nat, o: Owner) {
    && j < |d.controls| && d.controls[j].kind == Panel
    && match o
       case FormOwner => false
       case ControlOwner(i) => i == j
       case PageOwner(i) => i < |d.pages| && PageRef(d.pages[i].id) in d.controls[j].children
  }

  /** The controls among some references, in their order. */
  function ControlIds(refs: seq<ChildRef>): seq<ObjectId> {
    if refs == [] then []
    else
      var last := refs[|refs| - 1];
      ControlIds(refs[..|refs| - 1]) + if last.ControlRef? then [last.id] else []
  }

  lemma {:induction false} ControlIdsMembers(refs: seq<ChildRef>, id: ObjectId)
    ensures id in ControlIds(refs) <==> ControlRef(id) in refs
  {
    if refs != [] {
      ControlIdsMembers(refs[..|refs| - 1], id);
      assert refs == refs[..|refs| - 1] + [refs[|refs| - 1]];
    }
  }

  lemma {:induction false} ControlIdsSnoc(front: seq<ChildRef>, last: ChildRef)
    ensures ControlIds(front + [last]) == if last.ControlRef? then ControlIds(front) + [last.id] else ControlIds(front)
    ensures ControlIds([]) == []
  {
    assert (front + [last])[..|front|] == front;
  }

  /** The controls of the pages among some references, page by page. */
  ghost function PageControlIds(d: Document, refs: seq<ChildRef>): seq<ObjectId> {
    if refs == [] then []
    else
      var last := refs[|refs| - 1];
      PageControlIds(d, refs[..|refs| - 1]) +
      if last.PageRef? && Resolves(d, last) then ControlIds(Kids(d, last)) else []
  }

  lemma {:induction false} PageControlIdsSnoc(d: Document, front: seq<ChildRef>, last: ChildRef)
    ensures PageControlIds(d, front + [last]) ==
            if last.PageRef? && Resolves(d, last) then PageControlIds(d, front) + ControlIds(Kids(d, last))
            else PageControlIds(d, front)
    ensures PageControlIds(d, []) == []
  {
    hide Resolve, ControlIds;
    assert (front + [last])[..|front|] == front;
  }

  ghost predicate OnPage(d: Document, r: ChildRef, id: ObjectId) {
    r.PageRef? && Resolves(d, r) && ControlRef(id) in Kids(d, r)
  }

  lemma {:induction false} PageControlIdsMembers(d: Document, refs: seq<ChildRef>, id: ObjectId)
    ensures id in PageControlIds(d, refs) <==> exists r :: r in refs && OnPage(d, r, id)
  {
    hide Resolve, ControlIds, PageControlIds;
    if refs == [] {
      PageControlIdsSnoc(d, [], ControlRef(0));
    } else {
      var front, last := refs[..|refs| - 1], refs[|refs| - 1];
      PageControlIdsMembers(d, front, id);
      assert refs == front + [last];
      PageControlIdsSnoc(d, front, last);
      if last.PageRef? && Resolves(d, last) { ControlIdsMembers(Kids(d, last), id); }
      assert OnPage(d, last, id) <==> last.PageRef? && Resolves(d, last) && id in ControlIds(Kids(d, last));
      hide OnPage;
      assert forall r :: r in refs <==> r in front || r == last;
    }
  }

  // ---------- Collecting succeeds on a sound document ----------

  lemma {:induction false} SoundOwner(d: Document, o: Owner, r: ChildRef)
    requires Sound(d) && IsOwner(d, o) && r in ChildrenOf(d, o)
    ensures Resolves(d, r) && OwnerOf(d, r) == Some(o)
  {
    hide Sound, OwnerOf, Occurrences, NodeRefs, Resolve, HasCycle, UniqueIds, IllegalChildren, IsOwner, ChildrenOf;
    SoundMeans(d);
    assert Lists(d, o, r);
    OwnerOfIff(d, r, o);
  }

  lemma {:induction false} CollectAll(d: Document, o: Owner, refs: seq<ChildRef>)
    requires Sound(d) && IsOwner(d, o) && forall r :: r in refs ==> r in ChildrenOf(d, o)
    ensures Collect(d, o, refs) == Some(ControlIds(refs))
  {
    hide Sound, OwnerOf, Resolve, Collect, IsOwner, ChildrenOf, ControlIds;
    if refs == [] {
      CollectNil(d, o);
      ControlIdsSnoc([], ControlRef(0));
    } else {
      var front, last := refs[..|refs| - 1], refs[|refs| - 1];
      assert refs == front + [last];
      CollectSnoc(d, o, front, last);
      ControlIdsSnoc(front, last);
      assert last in refs;
      CollectAll(d, o, front);
      SoundOwner(d, o, last);
    }
  }

  lemma {:induction false} CollectKids(d: Document, r: ChildRef)
    requires Sound(d) && Resolves(d, r)
    ensures Collect(d, Resolve(d, r).value, Kids(d, r)) == Some(ControlIds(Kids(d, r)))
  {
    hide Sound, Resolve, Collect, ControlIds;
    CollectAll(d, Resolve(d, r).value, Kids(d, r));
  }

  lemma {:induction false} CollectAllPages(d: Document, j: nat, refs: seq<ChildRef>)
    requires Sound(d) && j < |d.controls| && forall r :: r in refs ==> r in d.controls[j].children
    ensures CollectPages(d, j, refs) == Some(ControlIds(d.controls[j].children) + PageControlIds(d, refs))
  {
    hide Sound, OwnerOf, Resolve, Collect, CollectPages, ControlIds, PageControlIds, Kids, Resolves;
    if refs == [] {
      PageControlIdsSnoc(d, [], ControlRef(0));
      CollectPagesNil(d, j);
      CollectAll(d, ControlOwner(j), d.controls[j].children);
      assert ControlIds(d.controls[j].children) + [] == ControlIds(d.controls[j].children);
    } else {
      var front, last := refs[..|refs| - 1], refs[|refs| - 1];
      assert refs == front + [last];
      CollectPagesSnoc(d, j, front, last);
      PageControlIdsSnoc(d, front, last);
      CollectAllPages(d, j, front);
      assert last in refs;
      SoundOwner(d, ControlOwner(j), last);
      if last.PageRef? {
        CollectKids(d, last);
        var own := ControlIds(d.controls[j].children);
        assert (own + PageControlIds(d, front)) + ControlIds(Kids(d, last)) ==
               own + (PageControlIds(d, front) + ControlIds(Kids(d, last)));
      }
    }
  }

  // ---------- The scope of a list ----------

  lemma {:induction false} OwnScopeOf(d: Document, o: Owner)
    requires Sound(d) && IsOwner(d, o) && ChildrenOf(d, o) != [] && forall j: nat :: !InPanel(d, j, o)
    ensures ScopeOf(d, o) == OwnList(o)
  {
    hide Sound, OwnerOf, Occurrences, Resolve, HasCycle, UniqueIds;
    match o {
      case FormOwner =>
      case ControlOwner(i) =>
        LeafIsEmpty(d, i);
        assert !InPanel(d, i, o);
      case PageOwner(i) =>
        var q := PageParent(d, i);
        assert q.ControlOwner? ==> !InPanel(d, q.index, o);
    }
  }

  lemma {:induction false} LeafIsEmpty(d: Document, i: nat)
    requires Sound(d) && i < |d.controls|
    ensures d.controls[i].kind == LeafKind ==> d.controls[i].children == []
  {
    assert !Defect(d, IllegalChild);
    assert !MisplacesByKind(d, ControlOwner(i));
  }

  /** The owner of a page is the form or a panel. */
  lemma {:induction false} PageParent(d: Document, i: nat) returns (q: Owner)
    requires Sound(d) && i < |d.pages|
    ensures IsOwner(d, q) && OwnerOf(d, PageRef(d.pages[i].id)) == Some(q)
    ensures q == FormOwner || (q.ControlOwner? && InPanel(d, q.index, PageOwner(i)))
  {
    hide Sound, OwnerOf, HasCycle, UniqueIds, RefsIn, Owners, NodeRefs;
    SoundMeans(d);
    var r := PageRef(d.pages[i].id);
    PageInRefs(d, i);
    q := SomeOwner(d, Owners(d), r);
    OwnerOfIff(d, r, q);
    PageHolder(d, q, r);
  }

  lemma {:induction false} PageInRefs(d: Document, i: nat)
    requires i < |d.pages|
    ensures PageRef(d.pages[i].id) in NodeRefs(d)
  {
    assert NodeRefs(d)[|d.controls| + i] == RefOf(d, Owners(d)[|d.controls| + i + 1]);
  }

  lemma {:induction false} PageHolder(d: Document, q: Owner, r: ChildRef)
    requires Sound(d) && IsOwner(d, q) && r in ChildrenOf(d, q) && r.PageRef?
    ensures q == FormOwner || (q.ControlOwner? && d.controls[q.index].kind == Panel)
  {
    assert !Defect(d, IllegalChild);
    assert !MisplacesByKind(d, q);
  }

  lemma {:induction false} PanelScope(d: Document, j: nat, o: Owner)
    requires Sound(d) && IsOwner(d, o) && InPanel(d, j, o)
    ensures ScopeOf(d, o) == match d.controls[j].separateByPage
                             case None => OwnList(o)
                             case Some(OtherValue) => NoScope
                             case Some(Boolean(separate)) => if separate then OwnList(o) else SharedPanel(j)
  {
    hide Sound, OwnerOf, Resolve;
    if o.PageOwner? { SoundOwner(d, ControlOwner(j), PageRef(d.pages[o.index].id)); }
  }

  // ---------- The groups ----------

  /** The placement group of every control of a sound document. */
  lemma {:induction false} GroupByPlace(d: Document, o: Owner, a: ObjectId)
    requires Sound(d) && IsOwner(d, o) && ControlRef(a) in ChildrenOf(d, o)
    ensures (forall j: nat :: !InPanel(d, j, o)) ==> PlacementGroup(d, a) == Some(ControlIds(ChildrenOf(d, o)))
    ensures forall j: nat :: InPanel(d, j, o) ==>
              PlacementGroup(d, a) ==
              match d.controls[j].separateByPage
              case None => Some(ControlIds(ChildrenOf(d, o)))
              case Some(OtherValue) => None
              case Some(Boolean(separate)) =>
                var refs := d.controls[j].children;
                Some(if separate then ControlIds(ChildrenOf(d, o)) else ControlIds(refs) + PageControlIds(d, refs))
  {
    hide Sound, OwnerOf, Resolve, Collect, CollectPages, ScopeOf, ControlIds, PageControlIds, ChildrenOf;
    SoundOwner(d, o, ControlRef(a));
    CollectAll(d, o, ChildrenOf(d, o));
    if forall j: nat :: !InPanel(d, j, o) {
      OwnScopeOf(d, o);
    }
    forall j: nat | InPanel(d, j, o)
      ensures PlacementGroup(d, a) ==
              match d.controls[j].separateByPage
              case None => Some(ControlIds(ChildrenOf(d, o)))
              case Some(OtherValue) => None
              case Some(Boolean(separate)) =>
                var refs := d.controls[j].children;
                Some(if separate then ControlIds(ChildrenOf(d, o)) else ControlIds(refs) + PageControlIds(d, refs))
    {
      PanelScope(d, j, o);
      CollectAllPages(d, j, d.controls[j].children);
    }
  }

  /** A control of a sound document is in some list. */
  lemma {:induction false} SomePlace(d: Document, i: nat) returns (o: Owner)
    requires Sound(d) && i < |d.controls|
    ensures IsOwner(d, o) && ControlRef(d.controls[i].id) in ChildrenOf(d, o)
  {
    hide Sound, HasCycle, UniqueIds, RefsIn, Owners;
    SoundMeans(d);
    assert NodeRefs(d)[i] == RefOf(d, Owners(d)[i + 1]) && Owners(d)[1 + i] == ControlOwner(i);
    o := SomeOwner(d, Owners(d), ControlRef(d.controls[i].id));
  }

  /** A control has no group exactly if it is in a panel, or on a page of one, whose SeparateByPage has a
      wrong type. */
  lemma {:induction false} NoGroupIff(d: Document, o: Owner, a: ObjectId)
    requires Sound(d) && IsOwner(d, o) && ControlRef(a) in ChildrenOf(d, o)
    ensures PlacementGroup(d, a).None? <==>
            exists j: nat :: InPanel(d, j, o) && d.controls[j].separateByPage == Some(OtherValue)
  {
    hide Sound, PlacementGroup, ControlIds, PageControlIds, ChildrenOf;
    GroupByPlace(d, o, a);
    hide InPanel;
    if j: nat :| InPanel(d, j, o) {
      OnePanel(d, o, j);
    }
  }

  /** A list is in one panel at most. */
  lemma {:induction false} OnePanel(d: Document, o: Owner, j: nat)
    requires Sound(d) && IsOwner(d, o) && InPanel(d, j, o)
    ensures j < |d.controls| && d.controls[j].kind == Panel
    ensures forall k: nat :: InPanel(d, k, o) ==> k == j
  {
    hide Sound, OwnerOf, Resolve;
    forall k: nat | InPanel(d, k, o) ensures k == j {
      if o.PageOwner? {
        SoundOwner(d, ControlOwner(j), PageRef(d.pages[o.index].id));
        SoundOwner(d, ControlOwner(k), PageRef(d.pages[o.index].id));
      }
    }
  }

  /** The members of a group: the controls of the same list, or of a list of the same shared area. */
  lemma {:induction false} GroupMembersIff(d: Document, o: Owner, a: ObjectId, q: Owner, b: ObjectId)
    requires Sound(d) && IsOwner(d, o) && ControlRef(a) in ChildrenOf(d, o) && PlacementGroup(d, a).Some?
    requires IsOwner(d, q) && ControlRef(b) in ChildrenOf(d, q)
    ensures b in PlacementGroup(d, a).value <==> o == q || exists j: nat :: OneArea(d, j) && InPanel(d, j, o) && InPanel(d, j, q)
  {
    hide Sound, PlacementGroup, InPanel, ControlIds, PageControlIds, ChildrenOf, OwnerOf;
    GroupByPlace(d, o, a);
    ControlIdsMembers(ChildrenOf(d, o), b);
    SoundOwner(d, q, ControlRef(b));
    if ControlRef(b) in ChildrenOf(d, o) { SoundOwner(d, o, ControlRef(b)); }
    if j: nat :| InPanel(d, j, o) {
      OnePanel(d, o, j);
      AreaMembers(d, j, q, b);
    }
  }

  ghost predicate OneArea(d: Document, j: nat) {
    j < |d.controls| && d.controls[j].separateByPage == Some(Boolean(false))
  }

  lemma {:induction false} AreaMembers(d: Document, j: nat, q: Owner, b: ObjectId)
    requires Sound(d) && j < |d.controls| && d.controls[j].kind == Panel
    requires IsOwner(d, q) && ControlRef(b) in ChildrenOf(d, q)
    ensures var refs := d.controls[j].children;
            b in ControlIds(refs) + PageControlIds(d, refs) <==> InPanel(d, j, q)
  {
    hide Sound, ControlIds, PageControlIds, OwnerOf, Resolve, UniqueIds, HasCycle;
    SoundMeans(d);
    var refs := d.controls[j].children;
    ControlIdsMembers(refs, b);
    PageControlIdsMembers(d, refs, b);
    SoundOwner(d, q, ControlRef(b));
    if ControlRef(b) in refs { SoundOwner(d, ControlOwner(j), ControlRef(b)); }
    if r :| r in refs && OnPage(d, r, b) {
      SoundOwner(d, Resolve(d, r).value, ControlRef(b));
    }
    if InPanel(d, j, q) && q.PageOwner? {
      ResolveUnique(d, q);
      assert RefOf(d, q) in refs && OnPage(d, RefOf(d, q), b);
    }
  }

  // ---------- The setters apply ----------

  /** The orders of a group whose members all have the default order. */
  function Counting(n: nat): (r: seq<int>)
    ensures |r| == n && forall i :: 0 <= i < n ==> r[i] == i + 1
  {
    seq(n, i => i + 1)
  }

  /** Untouched orders number a group from 1 in the order of its list. */
  lemma {:induction false} UntouchedReads(d: Document, ps: seq<Position>, ids: seq<ObjectId>, a: ObjectId)
    requires |ps| == |d.controls| && PlacementGroup(d, a) == Some(ids) && a in ids && |ids| <= MAX_INT32
    requires forall id :: id in ids && SlotOf(d, id).Some? ==> ps[SlotOf(d, id).value].tabOrder == Implicit
    ensures GroupFor(d, ps, a) == Some(TabOrderGroup(ids, Counting(|ids|), IndexOf(ids, a).value))
  {
    hide PlacementGroup, SlotOf, OrdersOf, IndexOf;
    GroupResolves(d, a);
    forall i | 0 <= i < |ids| ensures OrderAt(d, ps, ids, i) == Some(i + 1) {
      assert ids[i] in ids;
    }
    assert Reads(d, ps, ids, Counting(|ids|)) && Numbering(Counting(|ids|));
  }

  /** On a sound document whose positions were never set, the orders of every control outside a panel with a
      wrong SeparateByPage read back as its place in its group; so none of its setters is refused. */
  lemma {:induction false} UntouchedSupported(d: Document, ps: seq<Position>, o: Owner, a: ObjectId)
    requires Sound(d) && |ps| == |d.controls| && IsOwner(d, o) && ControlRef(a) in ChildrenOf(d, o)
    requires forall j: nat :: InPanel(d, j, o) ==> d.controls[j].separateByPage != Some(OtherValue)
    requires forall i :: 0 <= i < |ps| ==> ps[i].tabOrder == Implicit
    ensures PlacementGroup(d, a).Some?
    ensures |PlacementGroup(d, a).value| <= MAX_INT32 ==>
              GroupFor(d, ps, a).Some? && ReadTabOrder(d, ps, a) == Some(GroupFor(d, ps, a).value.targetIndex + 1)
  {
    hide Sound, PlacementGroup, InPanel, SlotOf, GroupFor, UniqueIds, HasCycle, ChildrenOf;
    SoundMeans(d);
    NoGroupIff(d, o, a);
    var ids := PlacementGroup(d, a).value;
    if |ids| <= MAX_INT32 {
      InOwnGroup(d, a);
      UntouchedReads(d, ps, ids, a);
    }
  }
}
