/** What becomes of the placement groups when the controls of one group are put into a single list:
    that group takes the order of the list, and no other group changes. */
module Regrouping {
  import opened FormModel
  import opened Optional
  import opened Placement
  import opened TabOrder

  /** The same objects with the same IDs and settings; only child lists may differ. */
  ghost predicate SameObjects(d: Document, d': Document) {
    && d.formId == d'.formId && |d.controls| == |d'.controls| && |d.pages| == |d'.pages|
    && (forall i :: 0 <= i < |d.controls| ==> d'.controls[i] == d.controls[i].(children := d'.controls[i].children))
    && (forall i :: 0 <= i < |d.pages| ==> d'.pages[i].id == d.pages[i].id)
  }

  lemma {:induction false} SameObjectsResolve(d: Document, d': Document)
    requires SameObjects(d, d')
    ensures Owners(d') == Owners(d)
    ensures forall o :: IsOwner(d', o) <==> IsOwner(d, o)
    ensures forall o :: IsOwner(d, o) && o != FormOwner ==> RefOf(d', o) == RefOf(d, o)
    ensures forall r :: Resolve(d', r) == Resolve(d, r)
    ensures forall id :: SlotOf(d', id) == SlotOf(d, id)
  {
    assert NodeRefs(d') == NodeRefs(d) by {
      forall i | 0 <= i < |NodeRefs(d)| ensures NodeRefs(d')[i] == NodeRefs(d)[i] { }
    }
  }

  /** The leading control references: storing tab orders stops with an exception at a page. */
  function ControlPrefix(refs: seq<ChildRef>): (ids: seq<ObjectId>)
    ensures |ids| <= |refs| && forall i :: 0 <= i < |ids| ==> refs[i] == ControlRef(ids[i])
    ensures forall id :: id in ids ==> ControlRef(id) in refs
    ensures |ids| < |refs| ==> refs[|ids|].PageRef?
  {
    if refs == [] || refs[0].PageRef? then [] else [refs[0].id] + ControlPrefix(refs[1..])
  }

  /** Within t only the keeper lists anything, and outside t no list changed. */
  ghost predicate Relisted(d: Document, d': Document, t: set<Owner>, keeper: Owner, refs: seq<ChildRef>) {
    && keeper in t
    && (forall o :: o in t ==> IsOwner(d, o) && IsOwner(d', o))
    && (forall o :: IsOwner(d, o) && o !in t ==> IsOwner(d', o) && ChildrenOf(d', o) == ChildrenOf(d, o))
    && (forall o :: o in t ==> ChildrenOf(d', o) == if o == keeper then refs else [])
  }

  ghost predicate SameCounts(d: Document, d': Document) {
    forall r :: Occurrences(d', r) == Occurrences(d, r)
  }

  /** The references are exactly the children of t, all of them controls with their only place there. */
  ghost predicate Gathers(d: Document, t: set<Owner>, refs: seq<ChildRef>) {
    && (forall o, r :: o in t && IsOwner(d, o) && r in ChildrenOf(d, o) ==> r in refs)
    && (forall r :: r in refs ==> r.ControlRef? && Resolves(d, r) && OwnerOf(d, r).Some? && OwnerOf(d, r).value in t)
  }

  /** The owners in t gave up their children, and the keeper, one of them, now lists refs. */
  ghost predicate Regrouped(d: Document, d': Document, t: set<Owner>, keeper: Owner, refs: seq<ChildRef>) {
    SameObjects(d, d') && Relisted(d, d', t, keeper, refs) && SameCounts(d, d') && Gathers(d, t, refs)
  }

  lemma {:induction false} OwnerAfter(d: Document, d': Document, t: set<Owner>, keeper: Owner, refs: seq<ChildRef>,
                                      r: ChildRef)
    requires Regrouped(d, d', t, keeper, refs)
    ensures OwnerOf(d', r) == if r in refs then Some(keeper) else OwnerOf(d, r)
  {
    hide Occurrences, OwnerOf, Resolve, ChildrenOf, IsOwner, SameObjects;
    if r in refs {
      OwnerOfIff(d, r, OwnerOf(d, r).value);
      OwnerOfIff(d', r, keeper);
    } else {
      if OwnerOf(d, r).Some? {
        var q := OwnerOf(d, r).value;
        OwnerOfIff(d, r, q);
        OwnerOfIff(d', r, q);
      }
      if OwnerOf(d', r).Some? {
        var q := OwnerOf(d', r).value;
        OwnerOfIff(d', r, q);
        SameOwners(d, d', q);
        OwnerOfIff(d, r, q);
      }
    }
  }

  lemma {:induction false} SameOwners(d: Document, d': Document, o: Owner)
    requires SameObjects(d, d')
    ensures IsOwner(d', o) <==> IsOwner(d, o)
  {
  }

  lemma {:induction false} ScopeAfter(d: Document, d': Document, t: set<Owner>, keeper: Owner, refs: seq<ChildRef>,
                                      o: Owner)
    requires Regrouped(d, d', t, keeper, refs) && IsOwner(d, o) && IsOwner(d', o)
    ensures ScopeOf(d', o) == ScopeOf(d, o)
  {
    hide *;
    EnclosingAfter(d, d', t, keeper, refs, o);
    ScopeByEnclosing(d, d', o);
  }

  lemma {:induction false} EnclosingAfter(d: Document, d': Document, t: set<Owner>, keeper: Owner, refs: seq<ChildRef>,
                                          o: Owner)
    requires Regrouped(d, d', t, keeper, refs) && IsOwner(d, o) && IsOwner(d', o)
    ensures Enclosing(d', o) == Enclosing(d, o) && SameObjects(d, d')
  {
    hide OwnerOf, Relisted, SameCounts, Gathers, SameObjects, RefOf, IsOwner, Resolve, Owners;
    SameObjectsResolve(d, d');
    SameKinds(d, d');
    if o.PageOwner? {
      var r := RefOf(d, o);
      PageRefOfPage(d, o);
      OwnerAfter(d, d', t, keeper, refs, r);
      RegroupedMeans(d, d', t, keeper, refs, r);
      OwnerOfIsOwner(d, r);
    }
  }

  lemma {:induction false} SameKinds(d: Document, d': Document)
    requires SameObjects(d, d')
    ensures |d'.controls| == |d.controls|
    ensures forall i :: 0 <= i < |d.controls| ==> d'.controls[i].kind == d.controls[i].kind
  {
  }

  lemma {:induction false} ScopeByEnclosing(d: Document, d': Document, o: Owner)
    requires IsOwner(d, o) && IsOwner(d', o) && SameObjects(d, d') && Enclosing(d', o) == Enclosing(d, o)
    ensures ScopeOf(d', o) == ScopeOf(d, o)
  {
    hide Enclosing;
  }

  lemma {:induction false} CollectAfter(d: Document, d': Document, t: set<Owner>, keeper: Owner, refs: seq<ChildRef>,
                                        o: Owner, kids: seq<ChildRef>)
    requires Regrouped(d, d', t, keeper, refs) && o !in t
    ensures Collect(d', o, kids) == Collect(d, o, kids)
  {
    hide Regrouped, OwnerOf, Resolve, IsOwner, ChildrenOf, Collect;
    if kids == [] {
      CollectNil(d, o);
      CollectNil(d', o);
    } else {
      var front, last := kids[..|kids| - 1], kids[|kids| - 1];
      assert kids == front + [last];
      CollectSnoc(d, o, front, last);
      CollectSnoc(d', o, front, last);
      CollectAfter(d, d', t, keeper, refs, o, front);
      OwnerAfter(d, d', t, keeper, refs, last);
      RegroupedMeans(d, d', t, keeper, refs, last);
    }
  }

  lemma {:induction false} RelistedAt(d: Document, d': Document, t: set<Owner>, keeper: Owner, refs: seq<ChildRef>,
                                      o: Owner)
    requires Relisted(d, d', t, keeper, refs) && IsOwner(d, o)
    ensures IsOwner(d', o)
    ensures ChildrenOf(d', o) == if o == keeper then refs else if o in t then [] else ChildrenOf(d, o)
  {
    hide IsOwner, ChildrenOf;
  }

  lemma {:induction false} RegroupedMeans(d: Document, d': Document, t: set<Owner>, keeper: Owner, refs: seq<ChildRef>,
                                          r: ChildRef)
    requires Regrouped(d, d', t, keeper, refs)
    ensures Resolve(d', r) == Resolve(d, r) && keeper in t && IsOwner(d', keeper) && ChildrenOf(d', keeper) == refs
    ensures r in refs ==> r.ControlRef? && Resolves(d, r) && OwnerOf(d, r).Some? && OwnerOf(d, r).value in t
  {
    hide OwnerOf;
    SameObjectsResolve(d, d');
  }

  lemma {:induction false} KeeperCollects(d: Document, d': Document, t: set<Owner>, keeper: Owner, refs: seq<ChildRef>,
                                          k: nat)
    requires Regrouped(d, d', t, keeper, refs) && k <= |refs|
    ensures |ControlPrefix(refs)| == |refs|
    ensures Collect(d', keeper, refs[..k]) == Some(ControlPrefix(refs)[..k])
  {
    hide *;
    var ids := ControlPrefix(refs);
    if |ids| < |refs| { RegroupedMeans(d, d', t, keeper, refs, refs[|ids|]); }
    if k > 0 {
      KeeperCollects(d, d', t, keeper, refs, k - 1);
      assert refs[..k] == refs[..k - 1] + [refs[k - 1]];
      RegroupedMeans(d, d', t, keeper, refs, refs[k - 1]);
      OwnerAfter(d, d', t, keeper, refs, refs[k - 1]);
      ResolvesAfter(d, d', t, keeper, refs, refs[k - 1]);
      CollectSnoc(d', keeper, refs[..k - 1], refs[k - 1]);
      assert ids[..k] == ids[..k - 1] + [ids[k - 1]];
    } else {
      CollectNil(d', keeper);
      assert refs[..k] == [] && ids[..k] == [];
    }
  }

  lemma {:induction false} ResolvesAfter(d: Document, d': Document, t: set<Owner>, keeper: Owner, refs: seq<ChildRef>,
                                         r: ChildRef)
    requires Regrouped(d, d', t, keeper, refs)
    ensures Resolves(d', r) <==> Resolves(d, r)
  {
    hide Regrouped, Resolve;
    RegroupedMeans(d, d', t, keeper, refs, r);
  }

  // ---------- A scope that keeps its lists ----------

  /** The lists of a scope: its own list, or the panel's and those of the panel's pages. */
  ghost predicate Within(d: Document, s: Scope, o: Owner)
    requires IsOwner(d, o)
  {
    match s
    case NoScope => false
    case OwnList(q) => o == q
    case SharedPanel(j) => o == ControlOwner(j) || (o.PageOwner? && OwnerOf(d, RefOf(d, o)) == Some(ControlOwner(j)))
  }

  lemma {:induction false} CollectPagesAfter(d: Document, d': Document, t: set<Owner>, keeper: Owner,
                                             refs: seq<ChildRef>, j: nat, rs: seq<ChildRef>)
    requires Regrouped(d, d', t, keeper, refs) && j < |d.controls| && j < |d'.controls|
    requires forall o :: o in t ==> IsOwner(d, o) && !Within(d, SharedPanel(j), o)
    requires d'.controls[j].children == d.controls[j].children
    ensures CollectPages(d', j, rs) == CollectPages(d, j, rs)
  {
    hide *;
    PanelWithin(d, j);
    if rs == [] {
      CollectPagesNil(d, j);
      CollectPagesNil(d', j);
      CollectAfter(d, d', t, keeper, refs, ControlOwner(j), d.controls[j].children);
    } else {
      var front, last := rs[..|rs| - 1], rs[|rs| - 1];
      assert rs == front + [last];
      CollectPagesAfter(d, d', t, keeper, refs, j, front);
      CollectPagesSnoc(d, j, front, last);
      CollectPagesSnoc(d', j, front, last);
      RegroupedMeans(d, d', t, keeper, refs, last);
      ResolvesAfter(d, d', t, keeper, refs, last);
      OwnerAfter(d, d', t, keeper, refs, last);
      if last.PageRef? && Resolves(d, last) && OwnerOf(d, last) == Some(ControlOwner(j)) {
        PageWithin(d, j, last);
        PageAfter(d, d', t, keeper, refs, last);
      }
    }
  }

  lemma {:induction false} PageAfter(d: Document, d': Document, t: set<Owner>, keeper: Owner, refs: seq<ChildRef>,
                                     r: ChildRef)
    requires Regrouped(d, d', t, keeper, refs) && Resolves(d, r) && Resolves(d', r) && Resolve(d, r).value !in t
    ensures Collect(d', Resolve(d', r).value, Kids(d', r)) == Collect(d, Resolve(d, r).value, Kids(d, r))
  {
    hide Regrouped, Resolve, Collect, OwnerOf;
    var q := Resolve(d, r).value;
    RegroupedMeans(d, d', t, keeper, refs, r);
    CollectAfter(d, d', t, keeper, refs, q, ChildrenOf(d, q));
    KeptChildren(d, d', t, keeper, refs, q);
  }

  lemma {:induction false} PanelWithin(d: Document, j: nat)
    requires j < |d.controls|
    ensures Within(d, SharedPanel(j), ControlOwner(j))
  {
  }

  lemma {:induction false} PageWithin(d: Document, j: nat, r: ChildRef)
    requires r.PageRef? && Resolves(d, r) && OwnerOf(d, r) == Some(ControlOwner(j))
    ensures Within(d, SharedPanel(j), Resolve(d, r).value)
  {
    hide OwnerOf;
  }

  lemma {:induction false} KeptChildren(d: Document, d': Document, t: set<Owner>, keeper: Owner, refs: seq<ChildRef>,
                                        q: Owner)
    requires Regrouped(d, d', t, keeper, refs) && IsOwner(d, q) && q !in t
    ensures IsOwner(d', q) && ChildrenOf(d', q) == ChildrenOf(d, q)
  {
    hide OwnerOf, Occurrences, Resolve;
  }

  lemma {:induction false} OtherScope(d: Document, d': Document, t: set<Owner>, keeper: Owner, refs: seq<ChildRef>,
                                      o: Owner)
    requires Regrouped(d, d', t, keeper, refs) && IsOwner(d, o) && IsOwner(d', o)
    requires forall q :: q in t ==> IsOwner(d, q) && !Within(d, ScopeOf(d, o), q)
    ensures GroupOf(d', ScopeOf(d', o)) == GroupOf(d, ScopeOf(d, o))
  {
    hide Regrouped, OwnerOf, Resolve, Collect, CollectPages, ScopeOf, Within;
    ScopeAfter(d, d', t, keeper, refs, o);
    match ScopeOf(d, o) {
      case NoScope =>
      case OwnList(q) =>
        assert q !in t by { OwnListWithin(d, q); }
        CollectAfter(d, d', t, keeper, refs, q, ChildrenOf(d, q));
        KeptChildren(d, d', t, keeper, refs, q);
      case SharedPanel(j) =>
        assert ControlOwner(j) !in t by { PanelWithin(d, j); }
        KeptChildren(d, d', t, keeper, refs, ControlOwner(j));
        CollectPagesAfter(d, d', t, keeper, refs, j, d.controls[j].children);
    }
  }

  lemma {:induction false} OwnListWithin(d: Document, q: Owner)
    requires IsOwner(d, q)
    ensures Within(d, OwnList(q), q)
  {
  }

  /** A list within a scope has that scope. */
  lemma {:induction false} WithinScope(d: Document, o: Owner, q: Owner)
    requires IsOwner(d, o) && IsOwner(d, q) && Within(d, ScopeOf(d, o), q)
    ensures ScopeOf(d, q) == ScopeOf(d, o)
  {
    hide OwnerOf, Resolve;
    match ScopeOf(d, o) {
      case OwnList(_) =>
      case SharedPanel(j) => SharedScope(d, o, j, q);
    }
  }

  // ---------- The scope of the regrouped controls ----------

  lemma {:induction false} PanelOfScope(d: Document, o: Owner, j: nat)
    requires IsOwner(d, o) && ScopeOf(d, o) == SharedPanel(j)
    ensures Within(d, SharedPanel(j), o)
  {
    hide OwnerOf;
  }

  /** The pages of a shared panel, once only the keeper still lists controls. */
  lemma {:induction false} GatheredPages(d: Document, d': Document, t: set<Owner>, keeper: Owner, refs: seq<ChildRef>,
                                         j: nat, rs: seq<ChildRef>)
    requires Regrouped(d, d', t, keeper, refs) && j < |d.controls| && j < |d'.controls| && ControlOwner(j) !in t
    requires d'.controls[j].children == d.controls[j].children && rs <= d.controls[j].children
    requires keeper.PageOwner? && IsOwner(d, keeper) && Resolve(d, RefOf(d, keeper)) == Some(keeper)
    requires CollectPages(d, j, rs).Some? && forall id :: id in CollectPages(d, j, rs).value ==> ControlRef(id) in refs
    ensures CollectPages(d', j, rs) == Some(if RefOf(d, keeper) in rs then ControlPrefix(refs) else [])
  {
    hide *;
    if rs == [] {
      CollectPagesNil(d, j);
      CollectPagesNil(d', j);
      CollectAfter(d, d', t, keeper, refs, ControlOwner(j), d.controls[j].children);
      OutsiderCollectsNone(d, d', t, keeper, refs, ControlOwner(j), d.controls[j].children);
    } else {
      var front, last := rs[..|rs| - 1], rs[|rs| - 1];
      assert rs == front + [last];
      CollectPagesSnoc(d, j, front, last);
      CollectPagesSnoc(d', j, front, last);
      GatheredPages(d, d', t, keeper, refs, j, front);
      RegroupedMeans(d, d', t, keeper, refs, last);
      OwnerAfter(d, d', t, keeper, refs, last);
      ResolvesAfter(d, d', t, keeper, refs, last);
      if last.PageRef? {
        NotRepeated(d, j, front, last);
        GatheredPage(d, d', t, keeper, refs, j, last);
        ResolveNames(d', last);
        var before, more := CollectPages(d', j, front).value, Collect(d', Resolve(d', last).value, Kids(d', last)).value;
        assert before + more == if last == RefOf(d, keeper) then more else before;
      } else {
        PageRefOfPage(d, keeper);
      }
    }
  }

  lemma {:induction false} PageRefOfPage(d: Document, o: Owner)
    requires o.PageOwner? && IsOwner(d, o)
    ensures RefOf(d, o).PageRef?
  {
  }

  lemma {:induction false} NotRepeated(d: Document, j: nat, front: seq<ChildRef>, last: ChildRef)
    requires j < |d.controls| && front + [last] <= d.controls[j].children && OwnerOf(d, last).Some?
    ensures last !in front
  {
    hide OwnerOf;
    if last in front { RepeatedInList(d, ControlOwner(j), front, last); }
  }

  lemma {:induction false} OutsiderCollectsNone(d: Document, d': Document, t: set<Owner>, keeper: Owner,
                                                refs: seq<ChildRef>, o: Owner, kids: seq<ChildRef>)
    requires Regrouped(d, d', t, keeper, refs) && o !in t
    requires Collect(d, o, kids).Some? && forall id :: id in Collect(d, o, kids).value ==> ControlRef(id) in refs
    ensures Collect(d, o, kids) == Some([])
  {
    hide Regrouped, OwnerOf, Resolve, Collect;
    var ids := Collect(d, o, kids).value;
    if ids != [] {
      var id := ids[0];
      assert id in ids;
      CollectMembers(d, o, kids, id);
      RegroupedMeans(d, d', t, keeper, refs, ControlRef(id));
    }
  }

  lemma {:induction false} GatheredPage(d: Document, d': Document, t: set<Owner>, keeper: Owner, refs: seq<ChildRef>,
                                        j: nat, r: ChildRef)
    requires Regrouped(d, d', t, keeper, refs)
    requires keeper.PageOwner? && IsOwner(d, keeper) && Resolve(d, RefOf(d, keeper)) == Some(keeper)
    requires r.PageRef? && Resolves(d, r) && Resolves(d', r) && Collect(d, Resolve(d, r).value, Kids(d, r)).Some?
    requires forall id :: id in Collect(d, Resolve(d, r).value, Kids(d, r)).value ==> ControlRef(id) in refs
    ensures Collect(d', Resolve(d', r).value, Kids(d', r)) == Some(if r == RefOf(d, keeper) then ControlPrefix(refs) else [])
  {
    hide *;
    RegroupedMeans(d, d', t, keeper, refs, r);
    KidsAfter(d, d', t, keeper, refs, r);
    ResolveNames(d, r);
    var q := Resolve(d, r).value;
    if q == keeper {
      KeeperCollects(d, d', t, keeper, refs, |refs|);
      assert refs[..|refs|] == refs;
      assert ControlPrefix(refs)[..|refs|] == ControlPrefix(refs);
    } else if q in t {
      CollectNil(d', q);
    } else {
      OutsiderCollectsNone(d, d', t, keeper, refs, q, Kids(d, r));
      CollectAfter(d, d', t, keeper, refs, q, Kids(d, r));
    }
  }

  lemma {:induction false} ResolveNames(d: Document, r: ChildRef)
    requires Resolves(d, r)
    ensures Resolve(d, r).Some? && IsOwner(d, Resolve(d, r).value) && Resolve(d, r).value != FormOwner
    ensures RefOf(d, Resolve(d, r).value) == r
  {
  }

  lemma {:induction false} KidsAfter(d: Document, d': Document, t: set<Owner>, keeper: Owner, refs: seq<ChildRef>,
                                     r: ChildRef)
    requires Regrouped(d, d', t, keeper, refs) && Resolves(d, r) && Resolves(d', r)
    ensures Kids(d', r) == if Resolve(d, r) == Some(keeper) then refs else if Resolve(d, r).value in t then [] else Kids(d, r)
  {
    hide OwnerOf, Resolve, SameCounts, SameObjects, Gathers, Relisted, ChildrenOf, IsOwner, Owners;
    SameObjectsResolve(d, d');
    RelistedAt(d, d', t, keeper, refs, Resolve(d, r).value);
  }

  lemma {:induction false} ControlsOnly(d: Document, j: nat, rs: seq<ChildRef>)
    requires j < |d.controls| && forall r :: r in rs ==> r.ControlRef?
    ensures CollectPages(d, j, rs) == Collect(d, ControlOwner(j), d.controls[j].children)
  {
    hide OwnerOf, Resolve, Collect;
    if rs != [] {
      assert rs[|rs| - 1] in rs;
      ControlsOnly(d, j, rs[..|rs| - 1]);
    }
  }

  lemma {:induction false} OwnScope(d: Document, d': Document, t: set<Owner>, keeper: Owner, refs: seq<ChildRef>)
    requires UniqueIds(d) && Regrouped(d, d', t, keeper, refs) && IsOwner(d, keeper) && IsOwner(d', keeper)
    requires forall o :: o in t ==> IsOwner(d, o) && ScopeOf(d, o) == ScopeOf(d, keeper)
    requires GroupOf(d, ScopeOf(d, keeper)).Some?
    requires forall id :: id in GroupOf(d, ScopeOf(d, keeper)).value ==> ControlRef(id) in refs
    ensures GroupOf(d', ScopeOf(d', keeper)) == Some(ControlPrefix(refs))
  {
    hide OwnerOf, Resolve, Collect, CollectPages, ScopeOf, ControlPrefix, SameObjects, Occurrences, UniqueIds, Within;
    ScopeAfter(d, d', t, keeper, refs, keeper);
    KeeperCollects(d, d', t, keeper, refs, |refs|);
    assert refs[..|refs|] == refs && ControlPrefix(refs)[..|refs|] == ControlPrefix(refs);
    match ScopeOf(d, keeper) {
      case OwnList(_) =>
      case SharedPanel(j) =>
        if keeper == ControlOwner(j) {
          ControlsOnly(d', j, refs);
        } else {
          PanelKept(d, d', t, keeper, refs, j);
          ResolveUnique(d, keeper);
          GatheredPages(d, d', t, keeper, refs, j, d.controls[j].children);
        }
    }
  }

  /** When a page keeps the controls, its panel keeps its own list. */
  lemma {:induction false} PanelKept(d: Document, d': Document, t: set<Owner>, keeper: Owner, refs: seq<ChildRef>,
                                     j: nat)
    requires Regrouped(d, d', t, keeper, refs) && IsOwner(d, keeper) && j < |d.controls|
    requires ScopeOf(d, keeper) == SharedPanel(j) && keeper != ControlOwner(j)
    ensures keeper.PageOwner? && RefOf(d, keeper) in d.controls[j].children
    ensures ControlOwner(j) !in t && j < |d'.controls| && d'.controls[j].children == d.controls[j].children
  {
    hide OwnerOf, Resolve, ScopeOf, SameObjects, Occurrences;
    PanelOfScope(d, keeper, j);
    OwnerOfIff(d, RefOf(d, keeper), ControlOwner(j));
    assert RefOf(d, keeper) in ChildrenOf(d, ControlOwner(j));
    if ControlOwner(j) !in t {
      KeptChildren(d, d', t, keeper, refs, ControlOwner(j));
    }
  }

  // ---------- The theorem ----------

  /** Regrouping one whole placement group gives it the order of the new list, and leaves the group
      of every other control as it was. */
  lemma {:induction false} GroupsAfter(d: Document, d': Document, t: set<Owner>, keeper: Owner, refs: seq<ChildRef>,
                                       ids: seq<ObjectId>, c: ObjectId)
    requires UniqueIds(d) && Regrouped(d, d', t, keeper, refs) && IsOwner(d, keeper)
    requires forall o :: o in t ==> IsOwner(d, o) && ScopeOf(d, o) == ScopeOf(d, keeper)
    requires GroupOf(d, ScopeOf(d, keeper)) == Some(ids) && forall id :: id in ids ==> ControlRef(id) in refs
    ensures PlacementGroup(d', c) == if ControlRef(c) in refs then Some(ControlPrefix(refs)) else PlacementGroup(d, c)
    ensures ControlRef(c) in refs ==> PlacementGroup(d, c) == Some(ids)
  {
    hide OwnerOf, Resolve, ScopeOf, GroupOf, ControlPrefix, Regrouped, UniqueIds, Within, IsOwner;
    OwnerAfter(d, d', t, keeper, refs, ControlRef(c));
    RegroupedMeans(d, d', t, keeper, refs, ControlRef(c));
    OwnerOfIsOwner(d, ControlRef(c));
    if ControlRef(c) in refs {
      OwnScope(d, d', t, keeper, refs);
    } else if OwnerOf(d, ControlRef(c)).Some? {
      var o := OwnerOf(d, ControlRef(c)).value;
      OwnerStays(d, d', t, keeper, refs, o);
      forall q | q in t ensures IsOwner(d, q) && !Within(d, ScopeOf(d, o), q) {
        if Within(d, ScopeOf(d, o), q) {
          WithinScope(d, o, q);
          InOwnGroup(d, c);
        }
      }
      OtherScope(d, d', t, keeper, refs, o);
    }
  }

  lemma {:induction false} OwnerStays(d: Document, d': Document, t: set<Owner>, keeper: Owner, refs: seq<ChildRef>,
                                      o: Owner)
    requires Regrouped(d, d', t, keeper, refs) && IsOwner(d, o)
    ensures IsOwner(d', o)
  {
    SameOwners(d, d', o);
  }
}
