/** Moving a control in the stacking order of its placement group. The move permutes child
    references, may gather the controls of a shared panel on its first page, and stores every
    tab order again so that none reads differently. */
module ZOrder {
  import opened FormGraph
  import opened FormModel
  import opened Limits
  import opened Optional
  import opened Placement
  import opened Regrouping
  import opened Sequences
  import opened TabOrder

  // ---------- Changing child lists ----------

  function WithChildren(d: Document, o: Owner, refs: seq<ChildRef>): (d': Document)
    requires IsOwner(d, o)
    ensures forall q :: IsOwner(d', q) <==> IsOwner(d, q)
    ensures forall q :: IsOwner(d, q) ==> ChildrenOf(d', q) == if q == o then refs else ChildrenOf(d, q)
  {
    match o
    case FormOwner => d.(formChildren := refs)
    case ControlOwner(i) => d.(controls := d.controls[i := d.controls[i].(children := refs)])
    case PageOwner(i) => d.(pages := d.pages[i := d.pages[i].(children := refs)])
  }

  lemma {:induction false} RefsInWith(d: Document, o: Owner, refs: seq<ChildRef>, os: seq<Owner>, r: ChildRef)
    requires IsOwner(d, o) && Distinct(os) && forall q :: q in os ==> IsOwner(d, q)
    ensures RefsIn(WithChildren(d, o, refs), os)[r] + (if o in os then multiset(ChildrenOf(d, o))[r] else 0) ==
            RefsIn(d, os)[r] + (if o in os then multiset(refs)[r] else 0)
  {
    hide WithChildren, IsOwner, ChildrenOf;
    if os != [] {
      var front, last := os[..|os| - 1], os[|os| - 1];
      var d' := WithChildren(d, o, refs);
      RefsInWith(d, o, refs, front, r);
      assert os == front + [last];
      assert last in os;
      assert ChildrenOf(d', last) == if last == o then refs else ChildrenOf(d, last);
      assert RefsIn(d', os)[r] == RefsIn(d', front)[r] + multiset(ChildrenOf(d', last))[r];
    }
  }

  // ---------- The lists that hold a group ----------

  /** Where the members of a group are kept: in one list, or spread over the pages of a panel. */
  datatype Plan = NoPlan | InPlace(owner: Owner) | Gathered(pages: seq<nat>)

  predicate ArePages(d: Document, pages: seq<nat>) {
    forall i :: 0 <= i < |pages| ==> pages[i] < |d.pages|
  }

  /** The pages behind a list of references that are all pages. */
  function PagesOf(d: Document, refs: seq<ChildRef>): (pages: Option<seq<nat>>)
    ensures pages.Some? ==> |pages.value| == |refs| && ArePages(d, pages.value)
  {
    if refs == [] then Some([])
    else
      var last := refs[|refs| - 1];
      match PagesOf(d, refs[..|refs| - 1])
      case None => None
      case Some(pages) =>
        match PageIndex(d, last) case None => None case Some(p) => Some(pages + [p])
  }

  function PageIndex(d: Document, r: ChildRef): (p: Option<nat>)
    ensures p.Some? ==> p.value < |d.pages| && r.PageRef? && Resolve(d, r) == Some(PageOwner(p.value))
    ensures p.None? ==> r.ControlRef? || !Resolves(d, r)
  {
    if r.ControlRef? then None else match Resolve(d, r) case None => None case Some(o) => Some(o.index)
  }

  function ContentOf(d: Document, pages: seq<nat>): seq<ChildRef>
    requires ArePages(d, pages)
  {
    if pages == [] then [] else ContentOf(d, pages[..|pages| - 1]) + d.pages[pages[|pages| - 1]].children
  }

  function RefsTo(ids: seq<ObjectId>): (refs: seq<ChildRef>)
    ensures |refs| == |ids| && forall i :: 0 <= i < |ids| ==> refs[i] == ControlRef(ids[i])
  {
    seq(|ids|, i requires 0 <= i < |ids| => ControlRef(ids[i]))
  }

  /** A panel whose pages share one area, hold exactly the group, and are all it holds. */
  function Gatherable(d: Document, i: nat, ids: seq<ObjectId>): (pages: Option<seq<nat>>)
    requires i < |d.controls|
    ensures pages.Some? ==> pages.value != [] && ArePages(d, pages.value)
  {
    var panel := d.controls[i];
    if panel.kind != Panel || panel.separateByPage != Some(Boolean(false)) then None
    else
      match PagesOf(d, panel.children)
      case None => None
      case Some(pages) => if pages != [] && ContentOf(d, pages) == RefsTo(ids) then Some(pages) else None
  }

  function FirstGatherable(d: Document, ids: seq<ObjectId>, from: nat): (pages: Option<seq<nat>>)
    requires from <= |d.controls|
    ensures pages.Some? ==> pages.value != [] && ArePages(d, pages.value)
    decreases |d.controls| - from
  {
    if from == |d.controls| then None
    else if Gatherable(d, from, ids).Some? then Gatherable(d, from, ids)
    else FirstGatherable(d, ids, from + 1)
  }

  ghost function PlanFor(d: Document, ids: seq<ObjectId>, target: ObjectId): (p: Plan)
    ensures p.InPlace? ==> IsOwner(d, p.owner)
    ensures p.Gathered? ==> p.pages != [] && ArePages(d, p.pages)
  {
    OwnerOfIsOwner(d, ControlRef(target));
    match OwnerOf(d, ControlRef(target))
    case Some(o) =>
      if |ChildrenOf(d, o)| == |ids| then InPlace(o)
      else (match FirstGatherable(d, ids, 0) case Some(pages) => Gathered(pages) case None => NoPlan)
    case None => NoPlan
  }

  function Emptied(d: Document, pages: seq<nat>): (d': Document)
    requires ArePages(d, pages)
    ensures |d'.pages| == |d.pages| && d'.controls == d.controls && d'.formChildren == d.formChildren
    ensures d'.formId == d.formId
    ensures forall i :: 0 <= i < |d.pages| ==> d'.pages[i] == if i in pages then d.pages[i].(children := []) else d.pages[i]
  {
    if pages == [] then d
    else
      var last := pages[|pages| - 1];
      assert pages == pages[..|pages| - 1] + [last];
      WithChildren(Emptied(d, pages[..|pages| - 1]), PageOwner(last), [])
  }

  /** The list to permute, in a document where it holds the whole group. */
  function Gather(d: Document, pages: seq<nat>): Document
    requires pages != [] && ArePages(d, pages)
  {
    var first := WithChildren(d, PageOwner(pages[0]), ContentOf(d, pages));
    Emptied(first, pages[1..])
  }

  // ---------- Setting ZOrder ----------

  /** Moving one element, as the two rotations do. */
  function Moved<T>(s: seq<T>, from: nat, to: nat): (r: seq<T>)
    requires from < |s| && to < |s|
    ensures |r| == |s|
  {
    if to < from then s[..to] + [s[from]] + s[to..from] + s[from + 1..]
    else s[..from] + s[from + 1..to + 1] + [s[from]] + s[to + 1..]
  }

  /** The place that an element has after a move. */
  function PlaceAfter(i: nat, from: nat, to: nat): nat {
    if i == from then to else if from < i <= to then i - 1 else if to <= i < from then i + 1 else i
  }

  lemma {:induction false} MovedAt<T>(s: seq<T>, from: nat, to: nat, i: nat)
    requires from < |s| && to < |s| && i < |s|
    ensures Moved(s, from, to)[PlaceAfter(i, from, to)] == s[i]
  {
    if to < from {
      var a, b := s[..to] + [s[from]], s[to..from];
      assert Moved(s, from, to) == a + b + s[from + 1..];
    } else {
      var a, b := s[..from] + s[from + 1..to + 1], [s[from]];
      assert Moved(s, from, to) == a + b + s[to + 1..];
    }
  }

  lemma {:induction false} SwappedMiddle<T>(a: seq<T>, b: seq<T>, c: seq<T>, d: seq<T>)
    ensures multiset(a + b + c + d) == multiset(a + c + b + d)
  {
  }

  lemma {:induction false} MovedMultiset<T>(s: seq<T>, from: nat, to: nat)
    requires from < |s| && to < |s|
    ensures multiset(Moved(s, from, to)) == multiset(s)
    ensures forall x :: x in Moved(s, from, to) <==> x in s
  {
    MovedPieces(s, from, to);
    hide Moved;
    if to < from {
      SwappedMiddle(s[..to], [s[from]], s[to..from], s[from + 1..]);
    } else {
      SwappedMiddle(s[..from], s[from + 1..to + 1], [s[from]], s[to + 1..]);
    }
    SameMembers(Moved(s, from, to), s);
  }

  lemma {:induction false} MovedPieces<T>(s: seq<T>, from: nat, to: nat)
    requires from < |s| && to < |s|
    ensures to < from ==> s == s[..to] + s[to..from] + [s[from]] + s[from + 1..]
    ensures to < from ==> Moved(s, from, to) == s[..to] + [s[from]] + s[to..from] + s[from + 1..]
    ensures to >= from ==> s == s[..from] + [s[from]] + s[from + 1..to + 1] + s[to + 1..]
    ensures to >= from ==> Moved(s, from, to) == s[..from] + s[from + 1..to + 1] + [s[from]] + s[to + 1..]
  {
  }

  lemma {:induction false} SameMembers<T>(a: seq<T>, b: seq<T>)
    requires multiset(a) == multiset(b)
    ensures forall x :: x in a <==> x in b
  {
    forall x ensures x in a <==> x in b {
      assert x in multiset(a) <==> x in a;
      assert x in multiset(b) <==> x in b;
    }
  }

  datatype Status = Applied | UnsupportedSurface | InvalidValue | Threw

  /** The tab orders of a permuted list: every control keeps the order it read before. */
  ghost function KeptOrders(g: TabOrderGroup, ids: seq<ObjectId>): (orders: seq<int>)
    requires |g.orders| == |g.ids| && forall id :: id in ids ==> id in g.ids
    ensures |orders| == |ids| && forall i :: 0 <= i < |ids| ==> orders[i] == g.orders[IndexOf(g.ids, ids[i]).value]
  {
    seq(|ids|, i requires 0 <= i < |ids| => assert ids[i] in ids; g.orders[IndexOf(g.ids, ids[i]).value])
  }

  datatype Outcome = Outcome(d: Document, ps: seq<Position>, status: Status)

  predicate ExplicitAt(d: Document, ps: seq<Position>, id: ObjectId)
    requires |ps| == |d.controls|
  {
    match SlotOf(d, id) case None => false case Some(slot) => ps[slot].zOrder.Explicit?
  }

  ghost predicate ExplicitZOrder(d: Document, ps: seq<Position>, ids: seq<ObjectId>)
    requires |ps| == |d.controls|
  {
    exists i :: 0 <= i < |ids| && ExplicitAt(d, ps, ids[i])
  }

  ghost function ReadZOrder(d: Document, ps: seq<Position>, id: ObjectId): Option<int>
    requires |ps| == |d.controls|
  {
    match GroupFor(d, ps, id)
    case None => None
    case Some(g) => if ExplicitZOrder(d, ps, g.ids) then None else Some(g.targetIndex + 1)
  }

  /** The nearest place. */
  lemma {:induction false} ClampedNearest(k: int, n: nat, i: int)
    requires 1 <= i <= n
    ensures 1 <= Clamped(k, n) <= n
    ensures (if Clamped(k, n) > k then Clamped(k, n) - k else k - Clamped(k, n)) <= (if i > k then i - k else k - i)
  {
  }

  function Clamped(k: int, n: nat): (c: int)
    ensures n >= 1 ==> 1 <= c <= n
  {
    if k < 1 then 1 else if k > n then n else k
  }

  /** The list that a plan permutes is as long as the group and holds no foreign control. */
  ghost predicate Permutable(d: Document, ps: seq<Position>, ids: seq<ObjectId>, o: Owner) {
    && IsOwner(d, o) && |ps| == |d.controls| && |ChildrenOf(d, o)| == |ids|
    && forall r :: r in ChildrenOf(d, o) && r.ControlRef? ==> r.id in ids
  }

  /** Permuting the list of an owner and storing the tab orders again. */
  ghost function Permuted(d: Document, ps: seq<Position>, g: TabOrderGroup, o: Owner, to: nat): (r: Outcome)
    requires Permutable(d, ps, g.ids, o) && |g.orders| == |g.ids| && g.targetIndex < |g.ids| && to < |g.ids|
    ensures |r.ps| == |r.d.controls|
  {
    var refs := Moved(ChildrenOf(d, o), g.targetIndex, to);
    var d' := WithChildren(d, o, refs);
    var ids := ControlPrefix(refs);
    MovedMultiset(ChildrenOf(d, o), g.targetIndex, to);
    assert forall id :: id in ids ==> ControlRef(id) in refs;
    Outcome(d', Stored(d', ps, ids, KeptOrders(g, ids), {}, |ids|), if |ids| == |refs| then Applied else Threw)
  }


  // ---------- The plan holds the whole group ----------

  lemma {:induction false} GroupMeans(d: Document, ids: seq<ObjectId>, target: ObjectId) returns (o: Owner)
    requires PlacementGroup(d, target) == Some(ids)
    ensures IsOwner(d, o) && OwnerOf(d, ControlRef(target)) == Some(o) && GroupOf(d, ScopeOf(d, o)) == Some(ids)
  {
    hide OwnerOf, ScopeOf, GroupOf;
    OwnerOfIsOwner(d, ControlRef(target));
    o := OwnerOf(d, ControlRef(target)).value;
  }

  /** The list that holds a control of its own group holds no control of another, even when IDs repeat. */
  lemma {:induction false} OwnListInGroup(d: Document, ids: seq<ObjectId>, target: ObjectId, o: Owner, r: ChildRef)
    requires IsOwner(d, o) && OwnerOf(d, ControlRef(target)) == Some(o) && GroupOf(d, ScopeOf(d, o)) == Some(ids)
    requires target in ids && r in ChildrenOf(d, o) && r.ControlRef?
    ensures r.id in ids
  {
    hide OwnerOf, Resolve, Collect, CollectPages, ScopeOf;
    match ScopeOf(d, o) {
      case OwnList(_) =>
        CollectMembers(d, o, ChildrenOf(d, o), r.id);
      case SharedPanel(j) =>
        var q := CollectPagesMember(d, j, d.controls[j].children, target);
        CollectPagesCovers(d, j, d.controls[j].children, o, r.id);
    }
  }

  /** Every control of a list within the group's scope belongs to the group, and only there. */
  lemma {:induction false} ListInGroup(d: Document, o: Owner, ids: seq<ObjectId>, r: ChildRef)
    requires UniqueIds(d) && IsOwner(d, o) && GroupOf(d, ScopeOf(d, o)) == Some(ids)
    requires r in ChildrenOf(d, o) && r.ControlRef?
    ensures r.id in ids && Resolves(d, r) && OwnerOf(d, r) == Some(o)
  {
    hide OwnerOf, Resolve, Collect, CollectPages, UniqueIds, Occurrences, ScopeOf;
    match ScopeOf(d, o) {
      case OwnList(_) =>
        CollectMembers(d, o, ChildrenOf(d, o), r.id);
      case SharedPanel(j) =>
        PanelOfScope(d, o, j);
        if o.PageOwner? {
          OwnerOfIff(d, RefOf(d, o), ControlOwner(j));
          ResolveUnique(d, o);
        }
        CollectPagesCovers(d, j, d.controls[j].children, o, r.id);
        var q := CollectPagesMember(d, j, d.controls[j].children, r.id);
        OwnerOfIff(d, r, q);
        OwnerOfIff(d, r, o);
    }
  }

  /** A list of controls that is as long as its group is the group. */
  lemma {:induction false} ListIsGroup(d: Document, o: Owner, ids: seq<ObjectId>)
    requires UniqueIds(d) && IsOwner(d, o) && GroupOf(d, ScopeOf(d, o)) == Some(ids)
    requires Distinct(ids) && |ChildrenOf(d, o)| == |ids| && forall r :: r in ChildrenOf(d, o) ==> r.ControlRef?
    ensures ChildrenOf(d, o) == RefsTo(ids)
    ensures Regrouped(d, d, {o}, o, ChildrenOf(d, o))
  {
    hide OwnerOf, Resolve, ScopeOf, GroupOf, UniqueIds, Occurrences, ControlPrefix;
    var refs := ChildrenOf(d, o);
    forall r | r in refs ensures r.id in ids && Resolves(d, r) && OwnerOf(d, r) == Some(o) { ListInGroup(d, o, ids, r); }
    ReflexiveObjects(d);
    assert Regrouped(d, d, {o}, o, refs);
    AllListed(d, o, ids);
    OwnScope(d, d, {o}, o, refs);
    assert forall i :: 0 <= i < |refs| ==> refs[i] == RefsTo(ids)[i];
  }

  lemma {:induction false} ReflexiveObjects(d: Document)
    ensures SameObjects(d, d)
  {
  }

  lemma {:induction false} OnlyOnce(d: Document, o: Owner, r: ChildRef)
    requires IsOwner(d, o) && OwnerOf(d, r) == Some(o)
    ensures multiset(ChildrenOf(d, o))[r] == 1
  {
    hide RefsIn, ChildrenOf, IsOwner, Owners, LastOwner;
    OwnerOfIff(d, r, o);
    OwnerRefs(d, Owners(d), o, r);
  }

  lemma {:induction false} RepeatCounts<T>(s: seq<T>, i: nat, j: nat)
    requires i < j < |s|
    ensures s[i] == s[j] ==> multiset(s)[s[i]] >= 2
  {
    assert s == s[..j] + [s[j]] + s[j + 1..];
    assert s[i] in s[..j];
  }

  lemma {:induction false} CountsDistinct<T>(s: seq<T>)
    requires forall x :: x in s ==> multiset(s)[x] == 1
    ensures Distinct(s)
  {
    forall i, j | 0 <= i < j < |s| ensures s[i] != s[j] { RepeatCounts(s, i, j); }
  }

  /** A list of the group's controls, as long as the group, has them all. */
  lemma {:induction false} AllListed(d: Document, o: Owner, ids: seq<ObjectId>)
    requires IsOwner(d, o) && Distinct(ids) && |ChildrenOf(d, o)| == |ids|
    requires forall r :: r in ChildrenOf(d, o) ==> r.ControlRef? && r.id in ids && OwnerOf(d, r) == Some(o)
    ensures forall id :: id in ids ==> ControlRef(id) in ChildrenOf(d, o)
  {
    hide OwnerOf;
    var refs, all := ChildrenOf(d, o), RefsTo(ids);
    forall r | r in refs ensures multiset(refs)[r] == 1 { OnlyOnce(d, o, r); }
    CountsDistinct(refs);
    ElementsSize(refs);
    ElementsSize(all);
    forall r | r in refs ensures r in all {
      var k :| 0 <= k < |ids| && ids[k] == r.id;
      assert all[k] == r;
    }
    SubsetSize(Elements(refs), Elements(all));
    forall id | id in ids ensures ControlRef(id) in refs {
      var k :| 0 <= k < |ids| && ids[k] == id;
      assert all[k] == ControlRef(id);
      assert ControlRef(id) in Elements(all);
    }
  }

  // ---------- Gathering the pages of a panel ----------

  lemma {:induction false} PagesOfAt(d: Document, refs: seq<ChildRef>, i: nat)
    requires PagesOf(d, refs).Some? && i < |refs|
    ensures PageIndex(d, refs[i]) == Some(PagesOf(d, refs).value[i])
  {
    hide PageIndex, Resolves, ArePages;
    if i < |refs| - 1 {
      var front := refs[..|refs| - 1];
      assert front[i] == refs[i];
      PagesOfAt(d, front, i);
    }
  }

  lemma {:induction false} ContentMember(d: Document, pages: seq<nat>, r: ChildRef) returns (k: nat)
    requires ArePages(d, pages) && r in ContentOf(d, pages)
    ensures k < |pages| && r in d.pages[pages[k]].children
  {
    var last := |pages| - 1;
    if r in d.pages[pages[last]].children {
      k := last;
    } else {
      k := ContentMember(d, pages[..last], r);
    }
  }

  lemma {:induction false} ContentHas(d: Document, pages: seq<nat>, k: nat, r: ChildRef)
    requires ArePages(d, pages) && k < |pages| && r in d.pages[pages[k]].children
    ensures r in ContentOf(d, pages)
  {
    if k < |pages| - 1 {
      ContentHas(d, pages[..|pages| - 1], k, r);
    }
  }

  lemma {:induction false} FirstGatherableFound(d: Document, ids: seq<ObjectId>, from: nat) returns (i: nat)
    requires from <= |d.controls| && FirstGatherable(d, ids, from).Some?
    ensures i < |d.controls| && Gatherable(d, i, ids) == FirstGatherable(d, ids, from)
    decreases |d.controls| - from
  {
    hide Gatherable;
    if Gatherable(d, from, ids).Some? { i := from; } else { i := FirstGatherableFound(d, ids, from + 1); }
  }

  /** Every listed page of a shared panel with a group has its only place there. */
  lemma {:induction false} PagesOwned(d: Document, j: nat, refs: seq<ChildRef>, r: ChildRef)
    requires j < |d.controls| && CollectPages(d, j, refs).Some? && r in refs && r.PageRef?
    ensures Resolves(d, r) && OwnerOf(d, r) == Some(ControlOwner(j))
  {
    hide *;
    var front, last := refs[..|refs| - 1], refs[|refs| - 1];
    assert refs == front + [last];
    CollectPagesSnoc(d, j, front, last);
    if r != last {
      PagesOwned(d, j, front, r);
    }
  }

  /** What a gatherable panel is: the shared panel of the group, with distinct pages. */
  ghost predicate GathersGroup(d: Document, j: nat, pages: seq<nat>, ids: seq<ObjectId>) {
    && j < |d.controls| && ArePages(d, pages) && pages != [] && Distinct(pages)
    && ContentOf(d, pages) == RefsTo(ids)
    && (forall k :: 0 <= k < |pages| ==> ScopeOf(d, PageOwner(pages[k])) == SharedPanel(j))
    && GroupOf(d, SharedPanel(j)) == Some(ids)
  }

  lemma {:induction false} PageScope(d: Document, j: nat, p: nat)
    requires j < |d.controls| && p < |d.pages| && d.controls[j].kind == Panel
    requires d.controls[j].separateByPage == Some(Boolean(false))
    requires OwnerOf(d, PageRef(d.pages[p].id)) == Some(ControlOwner(j))
    ensures ScopeOf(d, PageOwner(p)) == SharedPanel(j)
  {
    hide OwnerOf;
  }

  lemma {:induction false} PagesDistinct(d: Document, j: nat, pages: seq<nat>)
    requires j < |d.controls| && PagesOf(d, d.controls[j].children) == Some(pages)
    requires CollectPages(d, j, d.controls[j].children).Some?
    ensures Distinct(pages)
  {
    hide OwnerOf, CollectPages, PagesOf, PageIndex, Resolve;
    forall i, k | 0 <= i < k < |pages| ensures pages[i] != pages[k] {
      PagesDiffer(d, j, pages, i, k);
    }
  }

  lemma {:induction false} PagesDiffer(d: Document, j: nat, pages: seq<nat>, i: nat, k: nat)
    requires j < |d.controls| && PagesOf(d, d.controls[j].children) == Some(pages)
    requires CollectPages(d, j, d.controls[j].children).Some? && i < k < |pages|
    ensures pages[i] != pages[k]
  {
    hide *;
    var refs := d.controls[j].children;
    PagesOfLength(d, refs);
    PagesOfAt(d, refs, i);
    PagesOfAt(d, refs, k);
    PageIndexNames(d, refs[i]);
    PageIndexNames(d, refs[k]);
    PagesOwned(d, j, refs, refs[k]);
    assert refs[..k] + [refs[k]] <= refs;
    NotRepeated(d, j, refs[..k], refs[k]);
    assert refs[i] in refs[..k];
  }

  lemma {:induction false} PagesOfLength(d: Document, refs: seq<ChildRef>)
    requires PagesOf(d, refs).Some?
    ensures |PagesOf(d, refs).value| == |refs| && ArePages(d, PagesOf(d, refs).value)
    ensures forall i :: 0 <= i < |refs| ==> PagesOf(d, refs).value[i] < |d.pages|
  {
  }

  lemma {:induction false} PageIndexNames(d: Document, r: ChildRef)
    requires PageIndex(d, r).Some?
    ensures r == PageRef(d.pages[PageIndex(d, r).value].id)
  {
  }

  lemma {:induction false} GatherableMeans(d: Document, i: nat, ids: seq<ObjectId>, target: ObjectId)
    requires PlacementGroup(d, target) == Some(ids) && target in ids
    requires i < |d.controls| && Gatherable(d, i, ids).Some?
    ensures GathersGroup(d, i, Gatherable(d, i, ids).value, ids)
  {
    hide OwnerOf, PagesOf, PageIndex, ContentOf, ScopeOf, Collect, CollectPages, Resolve;
    var pages, refs := Gatherable(d, i, ids).value, d.controls[i].children;
    var o := GroupMeans(d, ids, target);
    TargetPage(d, i, pages, ids, target, o);
    GroupOfShared(d, i);
    PagesDistinct(d, i, pages);
    forall k | 0 <= k < |pages| ensures ScopeOf(d, PageOwner(pages[k])) == SharedPanel(i) {
      PagesOfAt(d, refs, k);
      PageIndexNames(d, refs[k]);
      PagesOwned(d, i, refs, refs[k]);
      PageScope(d, i, pages[k]);
    }
  }

  lemma {:induction false} GroupOfShared(d: Document, j: nat)
    requires j < |d.controls|
    ensures GroupOf(d, SharedPanel(j)) == CollectPages(d, j, d.controls[j].children)
  {
  }

  /** The target sits on one of the gathered pages, so the panel is the one its group shares. */
  lemma {:induction false} TargetPage(d: Document, i: nat, pages: seq<nat>, ids: seq<ObjectId>, target: ObjectId,
                                      o: Owner)
    requires i < |d.controls| && d.controls[i].kind == Panel && d.controls[i].separateByPage == Some(Boolean(false))
    requires PagesOf(d, d.controls[i].children) == Some(pages) && ContentOf(d, pages) == RefsTo(ids)
    requires target in ids && IsOwner(d, o) && OwnerOf(d, ControlRef(target)) == Some(o)
    requires GroupOf(d, ScopeOf(d, o)) == Some(ids)
    ensures GroupOf(d, SharedPanel(i)) == Some(ids)
  {
    hide OwnerOf, PagesOf, PageIndex, ContentOf, ScopeOf, GroupOf, Resolve;
    var refs := d.controls[i].children;
    var m :| 0 <= m < |ids| && ids[m] == target;
    assert RefsTo(ids)[m] == ControlRef(target);
    var k := ContentMember(d, pages, ControlRef(target));
    OwnerOfIff(d, ControlRef(target), o);
    OwnerOfIff(d, ControlRef(target), PageOwner(pages[k]));
    PagesOfAt(d, refs, k);
    PageIndexNames(d, refs[k]);
    EnclosedPage(d, i, pages[k]);
  }

  lemma {:induction false} EnclosedPage(d: Document, i: nat, p: nat)
    requires i < |d.controls| && p < |d.pages| && PageRef(d.pages[p].id) in d.controls[i].children
    requires d.controls[i].kind == Panel && d.controls[i].separateByPage == Some(Boolean(false))
    requires GroupOf(d, ScopeOf(d, PageOwner(p))).Some?
    ensures ScopeOf(d, PageOwner(p)) == SharedPanel(i)
  {
    hide OwnerOf;
    var r := PageRef(d.pages[p].id);
    assert RefOf(d, PageOwner(p)) == r;
    if OwnerOf(d, r).Some? {
      OwnerOfIff(d, r, OwnerOf(d, r).value);
      OwnerOfIff(d, r, ControlOwner(i));
    }
  }

  // ---------- Counting references ----------

  lemma {:induction false} EmptiedCounts(d: Document, pages: seq<nat>, r: ChildRef)
    requires ArePages(d, pages) && Distinct(pages)
    ensures Occurrences(Emptied(d, pages), r) + multiset(ContentOf(d, pages))[r] == Occurrences(d, r)
  {
    hide RefsIn, Owners;
    if pages != [] {
      var front, last := pages[..|pages| - 1], pages[|pages| - 1];
      assert pages == front + [last];
      EmptiedCounts(d, front, r);
      var before := Emptied(d, front);
      assert before.pages[last] == d.pages[last];
      WithCounts(before, PageOwner(last), [], r);
    }
  }

  lemma {:induction false} WithCounts(d: Document, o: Owner, refs: seq<ChildRef>, r: ChildRef)
    requires IsOwner(d, o)
    ensures Occurrences(WithChildren(d, o, refs), r) + multiset(ChildrenOf(d, o))[r] == Occurrences(d, r) + multiset(refs)[r]
  {
    hide RefsIn, Owners;
    RefsInWith(d, o, refs, Owners(d), r);
    WithSameObjects(d, o, refs);
    SameObjectsResolve(d, WithChildren(d, o, refs));
  }

  lemma {:induction false} WithSameObjects(d: Document, o: Owner, refs: seq<ChildRef>)
    requires IsOwner(d, o)
    ensures SameObjects(d, WithChildren(d, o, refs))
  {
  }

  lemma {:induction false} ContentHead(d: Document, pages: seq<nat>, r: ChildRef)
    requires ArePages(d, pages) && pages != []
    ensures multiset(ContentOf(d, pages))[r] == multiset(d.pages[pages[0]].children)[r] + multiset(ContentOf(d, pages[1..]))[r]
  {
    if |pages| == 1 {
      assert pages[..0] == [];
      assert ContentOf(d, pages) == [] + d.pages[pages[0]].children;
    } else {
      var front := pages[..|pages| - 1];
      ContentHead(d, front, r);
      assert pages[1..][..|pages| - 2] == front[1..];
      assert pages[1..][|pages| - 2] == pages[|pages| - 1];
    }
  }

  lemma {:induction false} ContentFrame(d: Document, d': Document, pages: seq<nat>)
    requires ArePages(d, pages) && ArePages(d', pages)
    requires forall i :: 0 <= i < |pages| ==> d'.pages[pages[i]].children == d.pages[pages[i]].children
    ensures ContentOf(d', pages) == ContentOf(d, pages)
  {
    if pages != [] { ContentFrame(d, d', pages[..|pages| - 1]); }
  }

  lemma {:induction false} GatherCounts(d: Document, pages: seq<nat>, r: ChildRef)
    requires ArePages(d, pages) && pages != [] && Distinct(pages)
    ensures Occurrences(Gather(d, pages), r) == Occurrences(d, r)
  {
    hide Occurrences, ContentOf, Emptied;
    var first := WithChildren(d, PageOwner(pages[0]), ContentOf(d, pages));
    WithCounts(d, PageOwner(pages[0]), ContentOf(d, pages), r);
    EmptiedCounts(first, pages[1..], r);
    ContentFrame(d, first, pages[1..]);
    ContentHead(d, pages, r);
  }

  /** Gathering leaves the whole content on the first page and nothing on the others. */
  lemma {:induction false} GatherLists(d: Document, pages: seq<nat>)
    requires ArePages(d, pages) && pages != [] && Distinct(pages)
    ensures SameObjects(d, Gather(d, pages))
    ensures forall i :: 0 <= i < |d.pages| ==>
              Gather(d, pages).pages[i].children ==
              (if i == pages[0] then ContentOf(d, pages) else if i in pages then [] else d.pages[i].children)
    ensures Gather(d, pages).formChildren == d.formChildren && Gather(d, pages).controls == d.controls
  {
    hide ContentOf;
    assert forall x :: x in pages <==> x == pages[0] || x in pages[1..];
  }

  // ---------- Setting ZOrder to a number ----------

  lemma {:induction false} RefsToMembers(ids: seq<ObjectId>)
    ensures forall r: ChildRef :: r in RefsTo(ids) <==> r.ControlRef? && r.id in ids
  {
    forall r: ChildRef | r.ControlRef? && r.id in ids ensures r in RefsTo(ids) {
      var k :| 0 <= k < |ids| && ids[k] == r.id;
      assert RefsTo(ids)[k] == r;
    }
  }

  /** The list to permute after gathering: the group, in its order. */
  lemma {:induction false} GatheredList(d: Document, j: nat, pages: seq<nat>, ids: seq<ObjectId>)
    requires GathersGroup(d, j, pages, ids)
    ensures IsOwner(Gather(d, pages), PageOwner(pages[0]))
    ensures ChildrenOf(Gather(d, pages), PageOwner(pages[0])) == RefsTo(ids)
    ensures SameObjects(d, Gather(d, pages))
  {
    hide ContentOf, ScopeOf, GroupOf, Gather;
    GatherLists(d, pages);
  }

  lemma {:induction false} PlanGathers(d: Document, ids: seq<ObjectId>, target: ObjectId) returns (j: nat)
    requires PlacementGroup(d, target) == Some(ids) && target in ids && PlanFor(d, ids, target).Gathered?
    ensures GathersGroup(d, j, PlanFor(d, ids, target).pages, ids)
  {
    hide OwnerOf, ScopeOf, GroupOf, Gatherable, GathersGroup, ChildrenOf, PlacementGroup;
    j := FirstGatherableFound(d, ids, 0);
    GatherableMeans(d, j, ids, target);
  }

  lemma {:induction false} PlanMeans(d: Document, ps: seq<Position>, ids: seq<ObjectId>, target: ObjectId)
    requires PlacementGroup(d, target) == Some(ids) && target in ids && |ps| == |d.controls|
    ensures match PlanFor(d, ids, target)
            case NoPlan => true
            case InPlace(o) =>
              Permutable(d, ps, ids, o) && OwnerOf(d, ControlRef(target)) == Some(o) && GroupOf(d, ScopeOf(d, o)) == Some(ids)
            case Gathered(pages) => Permutable(Gather(d, pages), ps, ids, PageOwner(pages[0]))
  {
    hide OwnerOf, ScopeOf, GroupOf, FirstGatherable, GathersGroup, ChildrenOf, PlacementGroup, Gather,
      SameObjects;
    var o := GroupMeans(d, ids, target);
    match PlanFor(d, ids, target) {
      case NoPlan =>
      case InPlace(_) =>
        forall r | r in ChildrenOf(d, o) && r.ControlRef? ensures r.id in ids { OwnListInGroup(d, ids, target, o, r); }
      case Gathered(pages) =>
        var j := PlanGathers(d, ids, target);
        GatheredList(d, j, pages, ids);
        RefsToMembers(ids);
        SameControls(d, Gather(d, pages));
    }
  }

  lemma {:induction false} SameControls(d: Document, d': Document)
    requires SameObjects(d, d')
    ensures |d'.controls| == |d.controls|
  {
  }

  /** What setting ZOrder to a number does: nothing to a group with no readable or an explicit order,
      nothing when the control is already there, otherwise one move within the group's list. */
  ghost function AfterZOrder(d: Document, ps: seq<Position>, target: ObjectId, k: int): (r: Outcome)
    requires |ps| == |d.controls|
    ensures |r.ps| == |r.d.controls|
  {
    match GroupFor(d, ps, target)
    case None => Outcome(d, ps, UnsupportedSurface)
    case Some(g) =>
      if ExplicitZOrder(d, ps, g.ids) then Outcome(d, ps, UnsupportedSurface)
      else if Clamped(k, |g.ids|) - 1 == g.targetIndex then Outcome(d, ps, Applied)
      else
        assert target in g.ids;
        PlanMeans(d, ps, g.ids, target);
        match PlanFor(d, g.ids, target)
        case NoPlan => Outcome(d, ps, UnsupportedSurface)
        case InPlace(o) => Permuted(d, ps, g, o, Clamped(k, |g.ids|) - 1)
        case Gathered(pages) => Permuted(Gather(d, pages), ps, g, PageOwner(pages[0]), Clamped(k, |g.ids|) - 1)
  }

  // ---------- The move regroups the group's list ----------

  lemma {:induction false} InPlaceRegroups(d: Document, ps: seq<Position>, ids: seq<ObjectId>, target: ObjectId,
                                           o: Owner, from: nat, to: nat)
    requires UniqueIds(d) && PlacementGroup(d, target) == Some(ids) && PlanFor(d, ids, target) == InPlace(o)
    requires |ps| == |d.controls| && IsOwner(d, o) && from < |ids| && to < |ids|
    requires forall r :: r in ChildrenOf(d, o) ==> r.ControlRef?
    ensures ChildrenOf(d, o) == RefsTo(ids)
    ensures Regrouped(d, WithChildren(d, o, Moved(RefsTo(ids), from, to)), {o}, o, Moved(RefsTo(ids), from, to))
  {
    hide OwnerOf, ScopeOf, GroupOf, UniqueIds, PlacementGroup, PlanFor, Occurrences, Moved, RefsTo, WithChildren,
      Gathers, Relisted, SameCounts, SameObjects, Resolve;
    InOwnGroup(d, target);
    PlanMeans(d, ps, ids, target);
    GroupDistinct(d, target);
    ListIsGroup(d, o, ids);
    var refs, moved := ChildrenOf(d, o), Moved(RefsTo(ids), from, to);
    MovedMultiset(refs, from, to);
    WithSameObjects(d, o, moved);
    RelistedInPlace(d, o, moved);
    CountsInPlace(d, o, moved);
    GathersPermuted(d, {o}, refs, moved);
  }

  lemma {:induction false} RelistedInPlace(d: Document, o: Owner, refs: seq<ChildRef>)
    requires IsOwner(d, o)
    ensures Relisted(d, WithChildren(d, o, refs), {o}, o, refs)
  {
    hide WithChildren;
  }

  lemma {:induction false} CountsInPlace(d: Document, o: Owner, refs: seq<ChildRef>)
    requires IsOwner(d, o) && multiset(refs) == multiset(ChildrenOf(d, o))
    ensures SameCounts(d, WithChildren(d, o, refs))
  {
    hide Occurrences, WithChildren, ChildrenOf, IsOwner;
    forall r ensures Occurrences(WithChildren(d, o, refs), r) == Occurrences(d, r) { WithCounts(d, o, refs, r); }
  }

  lemma {:induction false} GathersPermuted(d: Document, t: set<Owner>, refs: seq<ChildRef>, refs': seq<ChildRef>)
    requires Gathers(d, t, refs) && forall r :: r in refs' <==> r in refs
    ensures Gathers(d, t, refs')
  {
    hide OwnerOf, Resolve, ChildrenOf, IsOwner;
  }

  ghost function PageOwners(pages: seq<nat>): set<Owner> {
    set p | p in pages :: PageOwner(p)
  }

  lemma {:induction false} GatheredRegroups(d: Document, j: nat, pages: seq<nat>, ids: seq<ObjectId>, from: nat,
                                            to: nat)
    requires UniqueIds(d) && GathersGroup(d, j, pages, ids) && from < |ids| && to < |ids|
    ensures IsOwner(Gather(d, pages), PageOwner(pages[0]))
    ensures var moved := Moved(RefsTo(ids), from, to);
            Regrouped(d, WithChildren(Gather(d, pages), PageOwner(pages[0]), moved), PageOwners(pages), PageOwner(pages[0]), moved)
  {
    hide OwnerOf, ScopeOf, GroupOf, UniqueIds, Occurrences, Resolve, Moved, ContentOf, Gather, SameObjects, RefsTo,
      WithChildren, Gathers, Relisted, SameCounts, PageOwners;
    GatheredList(d, j, pages, ids);
    var moved, keeper, mid := Moved(RefsTo(ids), from, to), PageOwner(pages[0]), Gather(d, pages);
    MovedMultiset(RefsTo(ids), from, to);
    WithSameObjects(mid, keeper, moved);
    SameObjectsTransitive(d, mid, WithChildren(mid, keeper, moved));
    CountsGathered(d, pages, ids, moved);
    RelistedGathered(d, pages, moved);
    GathersGathered(d, j, pages, ids);
    GathersPermuted(d, PageOwners(pages), RefsTo(ids), moved);
  }

  lemma {:induction false} CountsGathered(d: Document, pages: seq<nat>, ids: seq<ObjectId>, refs: seq<ChildRef>)
    requires ArePages(d, pages) && pages != [] && Distinct(pages) && IsOwner(Gather(d, pages), PageOwner(pages[0]))
    requires ChildrenOf(Gather(d, pages), PageOwner(pages[0])) == RefsTo(ids) && multiset(refs) == multiset(RefsTo(ids))
    ensures SameCounts(d, WithChildren(Gather(d, pages), PageOwner(pages[0]), refs))
  {
    hide Occurrences, WithChildren, Gather, RefsTo, ArePages, Distinct, IsOwner, ChildrenOf;
    var mid, keeper := Gather(d, pages), PageOwner(pages[0]);
    forall r ensures Occurrences(WithChildren(mid, keeper, refs), r) == Occurrences(d, r) {
      WithCounts(mid, keeper, refs, r);
      GatherCounts(d, pages, r);
    }
  }

  lemma {:induction false} RelistedGathered(d: Document, pages: seq<nat>, refs: seq<ChildRef>)
    requires ArePages(d, pages) && pages != [] && Distinct(pages) && IsOwner(Gather(d, pages), PageOwner(pages[0]))
    ensures Relisted(d, WithChildren(Gather(d, pages), PageOwner(pages[0]), refs), PageOwners(pages), PageOwner(pages[0]), refs)
  {
    hide Gather, WithChildren, ContentOf, Distinct;
    GatherLists(d, pages);
    var mid, keeper := Gather(d, pages), PageOwner(pages[0]);
    forall o | IsOwner(d, o)
      ensures IsOwner(mid, o)
      ensures ChildrenOf(mid, o) == (if o == keeper then ContentOf(d, pages) else if o in PageOwners(pages) then [] else ChildrenOf(d, o))
    {
      assert o.PageOwner? ==> (o in PageOwners(pages) <==> o.index in pages);
    }
    forall o | o in PageOwners(pages) ensures IsOwner(d, o) { }
    assert pages[0] in pages;
  }

  lemma {:induction false} GathersGathered(d: Document, j: nat, pages: seq<nat>, ids: seq<ObjectId>)
    requires UniqueIds(d) && GathersGroup(d, j, pages, ids)
    ensures Gathers(d, PageOwners(pages), RefsTo(ids))
  {
    hide OwnerOf, ScopeOf, GroupOf, UniqueIds, Resolve, ContentOf, RefsTo;
    forall o, r | o in PageOwners(pages) && IsOwner(d, o) && r in ChildrenOf(d, o) ensures r in RefsTo(ids) {
      var k :| 0 <= k < |pages| && PageOwner(pages[k]) == o;
      ContentHas(d, pages, k, r);
    }
    forall r | r in RefsTo(ids)
      ensures r.ControlRef? && Resolves(d, r) && OwnerOf(d, r).Some? && OwnerOf(d, r).value in PageOwners(pages)
    {
      GatheredMember(d, j, pages, ids, r);
    }
  }

  lemma {:induction false} SameObjectsTransitive(a: Document, b: Document, c: Document)
    requires SameObjects(a, b) && SameObjects(b, c)
    ensures SameObjects(a, c)
  {
  }

  lemma {:induction false} GatheredMember(d: Document, j: nat, pages: seq<nat>, ids: seq<ObjectId>, r: ChildRef)
    requires UniqueIds(d) && GathersGroup(d, j, pages, ids) && r in RefsTo(ids)
    ensures r.ControlRef? && Resolves(d, r) && OwnerOf(d, r).Some? && OwnerOf(d, r).value in PageOwners(pages)
  {
    hide OwnerOf, ScopeOf, GroupOf, UniqueIds, Resolve, ContentOf, RefsTo;
    RefsToMembers(ids);
    var k := ContentMember(d, pages, r);
    ListInGroup(d, PageOwner(pages[k]), ids, r);
  }

  // ---------- What a move keeps ----------

  /** A permuted list of references is the list of permuted IDs. */
  lemma {:induction false} MovedRefs(ids: seq<ObjectId>, from: nat, to: nat)
    requires from < |ids| && to < |ids|
    ensures Moved(RefsTo(ids), from, to) == RefsTo(Moved(ids, from, to))
    ensures ControlPrefix(RefsTo(Moved(ids, from, to))) == Moved(ids, from, to)
  {
    hide Moved, ControlPrefix, RefsTo;
    var ids' := Moved(ids, from, to);
    forall k | 0 <= k < |ids| ensures Moved(RefsTo(ids), from, to)[k] == RefsTo(ids')[k] {
      var i := PlaceAfter(k, to, from);
      assert PlaceAfter(i, from, to) == k;
      MovedAt(ids, from, to, i);
      MovedAt(RefsTo(ids), from, to, i);
    }
    PrefixOfRefs(ids');
  }

  lemma {:induction false} PrefixOfRefs(ids: seq<ObjectId>)
    ensures ControlPrefix(RefsTo(ids)) == ids
  {
    hide ControlPrefix;
    var p := ControlPrefix(RefsTo(ids));
    assert |p| == |ids|;
    assert forall i :: 0 <= i < |ids| ==> RefsTo(ids)[i] == ControlRef(p[i]);
  }

  /** Both documents after a move, seen alike: the group took the new order and nothing else changed. */
  ghost predicate MovedGroup(d: Document, d': Document, ids: seq<ObjectId>, ids': seq<ObjectId>) {
    && SameObjects(d, d')
    && (forall r :: Occurrences(d', r) == Occurrences(d, r))
    && (forall c :: PlacementGroup(d', c) == if c in ids then Some(ids') else PlacementGroup(d, c))
    && (forall c :: c in ids ==> PlacementGroup(d, c) == Some(ids))
  }

  lemma {:induction false} RegroupedMoves(d: Document, d': Document, t: set<Owner>, keeper: Owner, ids: seq<ObjectId>,
                                          from: nat, to: nat)
    requires UniqueIds(d) && IsOwner(d, keeper) && from < |ids| && to < |ids|
    requires Regrouped(d, d', t, keeper, Moved(RefsTo(ids), from, to))
    requires forall o :: o in t ==> IsOwner(d, o) && ScopeOf(d, o) == ScopeOf(d, keeper)
    requires GroupOf(d, ScopeOf(d, keeper)) == Some(ids)
    ensures MovedGroup(d, d', ids, Moved(ids, from, to))
  {
    hide ScopeOf, GroupOf, UniqueIds, Occurrences, Moved, PlacementGroup, SameObjects, RefsTo, IsOwner, ControlPrefix,
      Relisted, Gathers;
    var refs := Moved(RefsTo(ids), from, to);
    MovedRefs(ids, from, to);
    MovedMultiset(RefsTo(ids), from, to);
    RefsToMembers(ids);
    forall id | id in ids ensures ControlRef(id) in refs { }
    forall c ensures PlacementGroup(d', c) == if c in ids then Some(Moved(ids, from, to)) else PlacementGroup(d, c)
      ensures c in ids ==> PlacementGroup(d, c) == Some(ids)
    {
      GroupsAfter(d, d', t, keeper, refs, ids, c);
    }
  }

  /** What a successful move leaves: a group moved as a whole, with every tab order stored again. */
  ghost predicate MoveTaken(d: Document, ps: seq<Position>, g: TabOrderGroup, to: nat, r: Outcome)
    requires |g.orders| == |g.ids| && g.targetIndex < |g.ids| && to < |g.ids|
  {
    var ids' := Moved(g.ids, g.targetIndex, to);
    && MovedGroup(d, r.d, g.ids, ids')
    && |ps| == |d.controls| == |r.d.controls|
    && (forall id :: id in ids' <==> id in g.ids)
    && r.ps == Stored(r.d, ps, ids', KeptOrders(g, ids'), {}, |ids'|)
  }

  /** A successful move in place or by gathering moves the group and nothing else. */
  lemma {:induction false} AppliedMoves(d: Document, ps: seq<Position>, target: ObjectId, k: int, g: TabOrderGroup)
    requires |ps| == |d.controls| && UniqueIds(d) && GroupFor(d, ps, target) == Some(g)
    requires AfterZOrder(d, ps, target, k).status == Applied
    requires Clamped(k, |g.ids|) - 1 != g.targetIndex
    ensures MoveTaken(d, ps, g, Clamped(k, |g.ids|) - 1, AfterZOrder(d, ps, target, k))
  {
    hide OwnerOf, ScopeOf, GroupOf, UniqueIds, PlacementGroup, PlanFor, Occurrences, Resolve, Moved, RefsTo,
      ControlPrefix, MovedGroup, Gather, Stored, KeptOrders, Permutable, ExplicitZOrder, Numbering, Reads, Permuted,
      MoveTaken;
    var to := Clamped(k, |g.ids|) - 1;
    PlanMeans(d, ps, g.ids, target);
    match PlanFor(d, g.ids, target) {
      case InPlace(o) => InPlaceApplied(d, ps, g, target, o, to);
      case Gathered(pages) => GatheredApplied(d, ps, g, target, pages, to);
    }
  }

  lemma {:induction false} MoveTakenBy(d: Document, base: Document, ps: seq<Position>, g: TabOrderGroup, o: Owner,
                                       to: nat)
    requires |ps| == |d.controls| && |g.orders| == |g.ids| && g.targetIndex < |g.ids| && to < |g.ids|
    requires Permutable(base, ps, g.ids, o) && ChildrenOf(base, o) == RefsTo(g.ids)
    requires MovedGroup(d, WithChildren(base, o, Moved(RefsTo(g.ids), g.targetIndex, to)), g.ids, Moved(g.ids, g.targetIndex, to))
    ensures MoveTaken(d, ps, g, to, Permuted(base, ps, g, o, to))
  {
    hide Occurrences, Moved, RefsTo, ControlPrefix, MovedGroup, Stored, KeptOrders;
    MovedMultiset(g.ids, g.targetIndex, to);
    MovedRefs(g.ids, g.targetIndex, to);
  }

  lemma {:induction false} InPlaceApplied(d: Document, ps: seq<Position>, g: TabOrderGroup, target: ObjectId, o: Owner,
                                          to: nat)
    requires |ps| == |d.controls| && UniqueIds(d) && PlacementGroup(d, target) == Some(g.ids) && |g.orders| == |g.ids|
    requires PlanFor(d, g.ids, target) == InPlace(o) && g.targetIndex < |g.ids| && to < |g.ids|
    requires Permutable(d, ps, g.ids, o) && Permuted(d, ps, g, o, to).status == Applied
    ensures MoveTaken(d, ps, g, to, Permuted(d, ps, g, o, to))
  {
    hide OwnerOf, ScopeOf, GroupOf, UniqueIds, PlacementGroup, PlanFor, Occurrences, Resolve, Moved, RefsTo,
      MovedGroup, Gather, Stored, KeptOrders, WithChildren, Regrouped, MoveTaken, ControlPrefix, ChildrenOf, IsOwner;
    var refs := ChildrenOf(d, o);
    MovedMultiset(refs, g.targetIndex, to);
    PrefixWhole(Moved(refs, g.targetIndex, to));
    InPlaceRegroups(d, ps, g.ids, target, o, g.targetIndex, to);
    InOwnGroup(d, target);
    PlanMeans(d, ps, g.ids, target);
    RegroupedMoves(d, WithChildren(d, o, Moved(RefsTo(g.ids), g.targetIndex, to)), {o}, o, g.ids, g.targetIndex, to);
    MoveTakenBy(d, d, ps, g, o, to);
  }

  lemma {:induction false} PrefixWhole(refs: seq<ChildRef>)
    ensures |ControlPrefix(refs)| == |refs| <==> forall r :: r in refs ==> r.ControlRef?
  {
    hide ControlPrefix;
    var p := ControlPrefix(refs);
    if |p| == |refs| {
      forall r | r in refs ensures r.ControlRef? { var i :| 0 <= i < |refs| && refs[i] == r; assert refs[i] == ControlRef(p[i]); }
    } else {
      assert refs[|p|] in refs;
    }
  }

  lemma {:induction false} GatheredApplied(d: Document, ps: seq<Position>, g: TabOrderGroup, target: ObjectId,
                                           pages: seq<nat>, to: nat)
    requires |ps| == |d.controls| && UniqueIds(d) && PlacementGroup(d, target) == Some(g.ids) && |g.orders| == |g.ids|
    requires PlanFor(d, g.ids, target) == Gathered(pages) && g.targetIndex < |g.ids| && to < |g.ids|
    requires pages != [] && ArePages(d, pages) && Permutable(Gather(d, pages), ps, g.ids, PageOwner(pages[0]))
    ensures MoveTaken(d, ps, g, to, Permuted(Gather(d, pages), ps, g, PageOwner(pages[0]), to))
  {
    hide OwnerOf, ScopeOf, GroupOf, UniqueIds, PlacementGroup, PlanFor, Occurrences, Resolve, Moved, RefsTo,
      MovedGroup, Gather, Stored, KeptOrders, WithChildren, Regrouped, ContentOf, MoveTaken;
    InOwnGroup(d, target);
    var j := PlanGathers(d, g.ids, target);
    GatheredList(d, j, pages, g.ids);
    GroupDistinct(d, target);
    GatheredRegroups(d, j, pages, g.ids, g.targetIndex, to);
    var keeper := PageOwner(pages[0]);
    var d' := WithChildren(Gather(d, pages), keeper, Moved(RefsTo(g.ids), g.targetIndex, to));
    forall o | o in PageOwners(pages) ensures IsOwner(d, o) && ScopeOf(d, o) == ScopeOf(d, keeper) {
      var k :| 0 <= k < |pages| && PageOwner(pages[k]) == o;
    }
    RegroupedMoves(d, d', PageOwners(pages), keeper, g.ids, g.targetIndex, to);
    MoveTakenBy(d, Gather(d, pages), ps, g, keeper, to);
  }

  // ---------- The theorem ----------

  lemma {:induction false} KeptNumbering(g: TabOrderGroup, ids': seq<ObjectId>)
    requires |g.orders| == |g.ids| && Numbering(g.orders) && Distinct(ids') && |ids'| == |g.ids|
    requires forall id :: id in ids' ==> id in g.ids
    ensures Numbering(KeptOrders(g, ids'))
  {
    hide IndexOf;
    var orders := KeptOrders(g, ids');
    forall i | 0 <= i < |orders| ensures 1 <= orders[i] <= |orders| { assert ids'[i] in ids'; }
    forall i, j | 0 <= i < j < |orders| ensures orders[i] != orders[j] {
      assert ids'[i] in ids' && ids'[j] in ids' && ids'[i] != ids'[j];
      var a, b := IndexOf(g.ids, ids'[i]).value, IndexOf(g.ids, ids'[j]).value;
      assert a != b;
      if a < b { assert g.orders[a] != g.orders[b]; } else { assert g.orders[b] != g.orders[a]; }
    }
  }

  lemma {:induction false} MovedDistinct(ids: seq<ObjectId>, from: nat, to: nat)
    requires Distinct(ids) && from < |ids| && to < |ids|
    ensures Distinct(Moved(ids, from, to))
  {
    hide Moved;
    MovedMultiset(ids, from, to);
    forall x | x in Moved(ids, from, to) ensures multiset(Moved(ids, from, to))[x] == 1 { DistinctCounts(ids, x); }
    CountsDistinct(Moved(ids, from, to));
  }

  /** The group of a member after the move: the permuted list, with the orders the members had. */
  lemma {:induction false} MovedReads(d: Document, d': Document, ps: seq<Position>, g: TabOrderGroup,
                                      ids': seq<ObjectId>, c: ObjectId)
    requires |ps| == |d.controls| && MovedGroup(d, d', g.ids, ids') && |d'.controls| == |d.controls|
    requires |g.orders| == |g.ids| == |ids'| && |g.ids| <= MAX_INT32 && Reads(d, ps, g.ids, g.orders)
    requires Numbering(g.orders)
    requires Distinct(g.ids) && Distinct(ids') && forall id :: id in ids' <==> id in g.ids
    requires c in g.ids
    ensures var ps' := Stored(d', ps, ids', KeptOrders(g, ids'), {}, |ids'|);
            GroupFor(d', ps', c) == Some(TabOrderGroup(ids', KeptOrders(g, ids'), IndexOf(ids', c).value))
    ensures GroupFor(d, ps, c) == Some(TabOrderGroup(g.ids, g.orders, IndexOf(g.ids, c).value))
  {
    hide PlacementGroup, OrderAt, Numbering, SlotOf, Stored, Distinct, IndexOf, SameObjects, Occurrences, KeptOrders,
      OrdersOf;
    KeptNumbering(g, ids');
    forall i | 0 <= i < |ids'| ensures SlotOf(d', ids'[i]).Some? {
      assert ids'[i] in ids';
      GroupSlots(d, d', g.ids, c, ids'[i]);
    }
    StoredReads(d', ps, ids', KeptOrders(g, ids'), {});
  }

  lemma {:induction false} GroupSlots(d: Document, d': Document, ids: seq<ObjectId>, c: ObjectId, id: ObjectId)
    requires SameObjects(d, d') && PlacementGroup(d, c) == Some(ids) && id in ids
    ensures SlotOf(d', id).Some?
  {
    hide PlacementGroup, SameObjects, Resolve;
    GroupResolves(d, c);
    SameObjectsResolve(d, d');
  }

  lemma {:induction false} MovedElsewhere(d: Document, d': Document, ps: seq<Position>, g: TabOrderGroup,
                                          ids': seq<ObjectId>, c: ObjectId)
    requires |ps| == |d.controls| && MovedGroup(d, d', g.ids, ids') && |d'.controls| == |d.controls|
    requires |g.orders| == |g.ids| && Distinct(ids') && (forall id :: id in ids' <==> id in g.ids)
    requires c !in g.ids
    ensures ReadTabOrder(d', Stored(d', ps, ids', KeptOrders(g, ids'), {}, |ids'|), c) == ReadTabOrder(d, ps, c)
  {
    hide PlacementGroup, OrderAt, Numbering, SlotOf, Stored, Distinct, IndexOf, SameObjects, Occurrences, KeptOrders,
      OrdersOf;
    var others := PlacementGroup(d, c);
    if others.Some? && c in others.value {
      forall id | id in others.value ensures id !in ids' { GroupsAgree(d, c, id); }
      StoredElsewhere(d', ps, ids', KeptOrders(g, ids'), {}, others.value);
      SameReads(d, d', ps, others.value);
    }
  }

  lemma {:induction false} SameReads(d: Document, d': Document, ps: seq<Position>, ids: seq<ObjectId>)
    requires SameObjects(d, d') && |ps| == |d.controls| == |d'.controls|
    ensures OrdersOf(d', ps, ids) == OrdersOf(d, ps, ids)
  {
    hide Numbering, SlotOf, SameObjects;
    SameObjectsResolve(d, d');
    forall i | 0 <= i < |ids| ensures OrderAt(d', ps, ids, i) == OrderAt(d, ps, ids, i) { }
    hide OrderAt, OrdersOf;
    if OrdersOf(d, ps, ids).Some? { assert Reads(d', ps, ids, OrdersOf(d, ps, ids).value); }
    if OrdersOf(d', ps, ids).Some? { assert Reads(d, ps, ids, OrdersOf(d', ps, ids).value); }
  }

  lemma {:induction false} MovedNowhere<T>(s: seq<T>, i: nat)
    requires i < |s|
    ensures Moved(s, i, i) == s
  {
  }

  lemma {:induction false} SameCountsReflexive(d: Document)
    ensures SameCounts(d, d)
  {
  }

  lemma {:induction false} AppliedMeans(d: Document, ps: seq<Position>, target: ObjectId, k: int, g: TabOrderGroup)
    requires |ps| == |d.controls| && UniqueIds(d) && GroupFor(d, ps, target) == Some(g)
    requires AfterZOrder(d, ps, target, k).status == Applied
    ensures !ExplicitZOrder(d, ps, g.ids)
    ensures Clamped(k, |g.ids|) - 1 == g.targetIndex ==> AfterZOrder(d, ps, target, k) == Outcome(d, ps, Applied)
  {
    hide UniqueIds, GroupFor, PlanFor, ExplicitZOrder, Permuted;
  }

  /** A successful assignment moves the control to the clamped position, keeps the others' relative
      order (the group is the old one with one element moved), and keeps every child reference. */
  lemma {:induction false} ZOrderTakesEffect(d: Document, ps: seq<Position>, target: ObjectId, k: int, g: TabOrderGroup)
    requires |ps| == |d.controls| && UniqueIds(d) && GroupFor(d, ps, target) == Some(g)
    requires AfterZOrder(d, ps, target, k).status == Applied
    ensures var r := AfterZOrder(d, ps, target, k);
            && SameCounts(d, r.d)
            && PlacementGroup(r.d, target) == Some(Moved(g.ids, g.targetIndex, Clamped(k, |g.ids|) - 1))
            && ReadZOrder(r.d, r.ps, target) == Some(Clamped(k, |g.ids|))
  {
    hide *;
    var to := Clamped(k, |g.ids|) - 1;
    AppliedMeans(d, ps, target, k, g);
    if to == g.targetIndex {
      MovedNowhere(g.ids, to);
      ReadZOrderIs(d, ps, target, g);
      SameCountsReflexive(d);
    } else {
      AppliedMoves(d, ps, target, k, g);
      MoveTakenMeans(d, ps, g, to, AfterZOrder(d, ps, target, k));
      MoveReads(d, ps, g, to, AfterZOrder(d, ps, target, k), target);
    }
  }

  lemma {:induction false} ReadZOrderIs(d: Document, ps: seq<Position>, id: ObjectId, g: TabOrderGroup)
    requires |ps| == |d.controls| && GroupFor(d, ps, id) == Some(g) && !ExplicitZOrder(d, ps, g.ids)
    ensures ReadZOrder(d, ps, id) == Some(g.targetIndex + 1)
  {
    hide GroupFor, ExplicitZOrder, PlacementGroup, Reads, Numbering;
  }

  lemma {:induction false} MovedIndex(ids: seq<ObjectId>, from: nat, to: nat)
    requires Distinct(ids) && from < |ids| && to < |ids|
    ensures IndexOf(Moved(ids, from, to), ids[from]) == Some(to)
  {
    hide Moved, IndexOf;
    MovedDistinct(ids, from, to);
    MovedAt(ids, from, to, from);
    var moved := Moved(ids, from, to);
    assert moved[to] == ids[from];
    assert moved[IndexOf(moved, ids[from]).value] == moved[to];
  }

  lemma {:induction false} MoveTakenMeans(d: Document, ps: seq<Position>, g: TabOrderGroup, to: nat, r: Outcome)
    requires |g.orders| == |g.ids| && g.targetIndex < |g.ids| && to < |g.ids| && MoveTaken(d, ps, g, to, r)
    ensures var ids' := Moved(g.ids, g.targetIndex, to);
            && |ids'| == |g.ids| && (forall id :: id in ids' <==> id in g.ids)
            && |ps| == |d.controls| == |r.d.controls| && MovedGroup(d, r.d, g.ids, ids')
            && r.ps == Stored(r.d, ps, ids', KeptOrders(g, ids'), {}, |ids'|)
    ensures SameObjects(d, r.d) && SameCounts(d, r.d)
    ensures forall c :: c in g.ids ==> PlacementGroup(r.d, c) == Some(Moved(g.ids, g.targetIndex, to))
  {
    hide PlacementGroup, Occurrences, Moved, Stored, KeptOrders, SameObjects;
  }

  lemma {:induction false} MoveReads(d: Document, ps: seq<Position>, g: TabOrderGroup, to: nat, r: Outcome,
                                     target: ObjectId)
    requires |ps| == |d.controls| && |r.ps| == |r.d.controls| && GroupFor(d, ps, target) == Some(g) && to < |g.ids|
    requires MoveTaken(d, ps, g, to, r) && !ExplicitZOrder(d, ps, g.ids)
    ensures ReadZOrder(r.d, r.ps, target) == Some(to + 1)
  {
    hide *;
    var ids' := Moved(g.ids, g.targetIndex, to);
    GroupDistinct(d, target);
    MovedDistinct(g.ids, g.targetIndex, to);
    MoveTakenMeans(d, ps, g, to, r);
    MovedReads(d, r.d, ps, g, ids', target);
    MovedIndex(g.ids, g.targetIndex, to);
    StillImplicit(d, r.d, ps, g.ids, ids', KeptOrders(g, ids'));
    ReadZOrderIs(r.d, r.ps, target, TabOrderGroup(ids', KeptOrders(g, ids'), to));
  }

  lemma {:induction false} StillImplicit(d: Document, d': Document, ps: seq<Position>, ids: seq<ObjectId>,
                                         ids': seq<ObjectId>, orders: seq<int>)
    requires SameObjects(d, d') && |ps| == |d.controls| == |d'.controls| && |orders| == |ids'|
    requires !ExplicitZOrder(d, ps, ids) && forall id :: id in ids' ==> id in ids
    ensures !ExplicitZOrder(d', Stored(d', ps, ids', orders, {}, |ids'|), ids')
  {
    hide SlotOf, Stored, SameObjects;
    SameObjectsResolve(d, d');
    forall i | 0 <= i < |ids'| ensures !ExplicitAt(d', Stored(d', ps, ids', orders, {}, |ids'|), ids'[i]) {
      assert ids'[i] in ids';
      var k :| 0 <= k < |ids| && ids[k] == ids'[i];
      assert !ExplicitAt(d, ps, ids[k]);
      if SlotOf(d', ids'[i]).Some? { StoredFrame(d', ps, ids', orders, {}, |ids'|, SlotOf(d', ids'[i]).value); }
    }
  }

  /** A successful assignment of ZOrder leaves the TabOrder of every control readable as before. */
  lemma {:induction false} ZOrderKeepsTabOrders(d: Document, ps: seq<Position>, target: ObjectId, k: int,
                                                g: TabOrderGroup, c: ObjectId)
    requires |ps| == |d.controls| && UniqueIds(d) && GroupFor(d, ps, target) == Some(g)
    requires AfterZOrder(d, ps, target, k).status == Applied
    ensures var r := AfterZOrder(d, ps, target, k);
            ReadTabOrder(r.d, r.ps, c) == ReadTabOrder(d, ps, c)
  {
    hide *;
    AppliedMeans(d, ps, target, k, g);
    var to := Clamped(k, |g.ids|) - 1;
    if to != g.targetIndex {
      AppliedMoves(d, ps, target, k, g);
      MoveKeepsTabOrder(d, ps, g, to, AfterZOrder(d, ps, target, k), target, c);
    }
  }

  lemma {:induction false} MoveKeepsTabOrder(d: Document, ps: seq<Position>, g: TabOrderGroup, to: nat, r: Outcome,
                                             target: ObjectId, c: ObjectId)
    requires |ps| == |d.controls| && |r.ps| == |r.d.controls| && GroupFor(d, ps, target) == Some(g) && to < |g.ids|
    requires MoveTaken(d, ps, g, to, r)
    ensures ReadTabOrder(r.d, r.ps, c) == ReadTabOrder(d, ps, c)
  {
    hide *;
    var ids' := Moved(g.ids, g.targetIndex, to);
    GroupDistinct(d, target);
    MovedDistinct(g.ids, g.targetIndex, to);
    MoveTakenMeans(d, ps, g, to, r);
    if c in g.ids {
      MovedReads(d, r.d, ps, g, ids', c);
      ReadsKept(d, r.d, ps, r.ps, g, ids', c);
    } else {
      MovedElsewhere(d, r.d, ps, g, ids', c);
    }
  }

  lemma {:induction false} ReadsKept(d: Document, d': Document, ps: seq<Position>, ps': seq<Position>,
                                     g: TabOrderGroup, ids': seq<ObjectId>, c: ObjectId)
    requires |ps| == |d.controls| && |ps'| == |d'.controls| && |g.orders| == |g.ids| && c in g.ids && c in ids'
    requires forall id :: id in ids' ==> id in g.ids
    requires GroupFor(d, ps, c) == Some(TabOrderGroup(g.ids, g.orders, IndexOf(g.ids, c).value))
    requires GroupFor(d', ps', c) == Some(TabOrderGroup(ids', KeptOrders(g, ids'), IndexOf(ids', c).value))
    ensures ReadTabOrder(d', ps', c) == ReadTabOrder(d, ps, c)
  {
    hide GroupFor, IndexOf;
  }

  /** What is stored after a move: every member keeps the order it read, as the default if that is now its place. */
  lemma {:induction false} MoveStored(d: Document, ps: seq<Position>, target: ObjectId, k: int, g: TabOrderGroup,
                                      i: nat, a: nat, b: nat)
    requires |ps| == |d.controls| && UniqueIds(d) && GroupFor(d, ps, target) == Some(g) && i < |ps|
    requires AfterZOrder(d, ps, target, k).status == Applied && Clamped(k, |g.ids|) - 1 != g.targetIndex
    ensures var r := AfterZOrder(d, ps, target, k);
            var ids := Moved(g.ids, g.targetIndex, Clamped(k, |g.ids|) - 1);
            && |r.ps| == |ps| && (d.controls[i].id !in g.ids ==> r.ps[i] == ps[i])
            && (a < |g.ids| && b < |ids| && g.ids[a] == ids[b] == d.controls[i].id ==>
                  r.ps[i] == ps[i].(tabOrder := if g.orders[a] == b + 1 then Implicit else Explicit(Some(g.orders[a]))))
  {
    hide *;
    var to, r := Clamped(k, |g.ids|) - 1, AfterZOrder(d, ps, target, k);
    AppliedMoves(d, ps, target, k, g);
    MoveTakenMeans(d, ps, g, to, r);
    MoveStoredAt(d, ps, g, to, r, target, i, a, b);
  }

  lemma {:induction false} MoveStoredAt(d: Document, ps: seq<Position>, g: TabOrderGroup, to: nat, r: Outcome,
                                        target: ObjectId, i: nat, a: nat, b: nat)
    requires |ps| == |d.controls| == |r.d.controls| && UniqueIds(d) && SameObjects(d, r.d) && i < |ps|
    requires GroupFor(d, ps, target) == Some(g) && to < |g.ids|
    requires var ids := Moved(g.ids, g.targetIndex, to);
             (forall id :: id in ids <==> id in g.ids) && r.ps == Stored(r.d, ps, ids, KeptOrders(g, ids), {}, |ids|)
    ensures var ids := Moved(g.ids, g.targetIndex, to);
            && |r.ps| == |ps| && (d.controls[i].id !in g.ids ==> r.ps[i] == ps[i])
            && (a < |g.ids| && b < |ids| && g.ids[a] == ids[b] == d.controls[i].id ==>
                  r.ps[i] == ps[i].(tabOrder := if g.orders[a] == b + 1 then Implicit else Explicit(Some(g.orders[a]))))
  {
    hide SlotOf, Stored, UniqueIds, GroupFor, Moved, SameObjects, IndexOf, PlacementGroup, Reads, Numbering;
    var ids := Moved(g.ids, g.targetIndex, to);
    SameObjectsResolve(d, r.d);
    SameIds(d, r.d, i);
    SlotByIndex(d, ps, i);
    GroupDistinct(d, target);
    MovedDistinct(g.ids, g.targetIndex, to);
    StoredFrame(r.d, ps, ids, KeptOrders(g, ids), {}, |ids|, i);
    if a < |g.ids| && b < |ids| && g.ids[a] == ids[b] == d.controls[i].id {
      StoredAt(r.d, ps, ids, KeptOrders(g, ids), {}, |ids|, b);
      OnlyPlace(g.ids, a);
      assert r.ps[i] == ps[i].(tabOrder := r.ps[i].tabOrder);
    }
  }

  lemma {:induction false} SameIds(d: Document, d': Document, i: nat)
    requires SameObjects(d, d') && i < |d.controls|
    ensures i < |d'.controls| && d'.controls[i].id == d.controls[i].id
  {
  }

  lemma {:induction false} OnlyPlace(ids: seq<ObjectId>, a: nat)
    requires Distinct(ids) && a < |ids|
    ensures IndexOf(ids, ids[a]) == Some(a)
  {
    hide IndexOf;
    var k := IndexOf(ids, ids[a]).value;
    assert ids[k] == ids[a];
  }

  lemma {:induction false} ExplicitAtIndex(d: Document, ps: seq<Position>, i: nat)
    requires |ps| == |d.controls| && UniqueIds(d) && i < |ps|
    ensures ExplicitAt(d, ps, d.controls[i].id) <==> ps[i].zOrder != Implicit
  {
    hide SlotOf, UniqueIds, Resolves;
    SlotByIndex(d, ps, i);
  }

  /** A group has an explicit order when one of its members stores a ZOrder. */
  lemma {:induction false} ExplicitZOrderIff(d: Document, ps: seq<Position>, ids: seq<ObjectId>)
    requires |ps| == |d.controls| && UniqueIds(d)
    ensures ExplicitZOrder(d, ps, ids) <==>
            exists i :: 0 <= i < |ps| && d.controls[i].id in ids && ps[i].zOrder != Implicit
  {
    hide SlotOf, UniqueIds, Resolves;
    if ExplicitZOrder(d, ps, ids) {
      var k :| 0 <= k < |ids| && ExplicitAt(d, ps, ids[k]);
      var i := SlotOf(d, ids[k]).value;
      assert d.controls[i].id in ids && ps[i].zOrder != Implicit;
    }
    hide ExplicitAt;
    if i :| 0 <= i < |ps| && d.controls[i].id in ids && ps[i].zOrder != Implicit {
      ExplicitAtIndex(d, ps, i);
      var k :| 0 <= k < |ids| && ids[k] == d.controls[i].id;
      assert ExplicitAt(d, ps, ids[k]);
    }
  }

  /** A group with a stored ZOrder is not moved, and neither is a control without a group. */
  lemma {:induction false} ZOrderRefused(d: Document, ps: seq<Position>, target: ObjectId, k: int)
    requires |ps| == |d.controls| && UniqueIds(d)
    requires GroupFor(d, ps, target).None? ||
             exists i :: 0 <= i < |ps| && d.controls[i].id in GroupFor(d, ps, target).value.ids && ps[i].zOrder != Implicit
    ensures AfterZOrder(d, ps, target, k) == Outcome(d, ps, UnsupportedSurface)
  {
    hide GroupFor, PlanFor, Permuted, ExplicitZOrder, UniqueIds, Gather;
    if GroupFor(d, ps, target).Some? { ExplicitZOrderIff(d, ps, GroupFor(d, ps, target).value.ids); }
  }

  /** The assignment ends in an exception exactly when the list that holds the target is as long as
      the group and yet holds a page: a shared panel that mixes controls and pages. */
  lemma {:induction false} ZOrderThrowsIff(d: Document, ps: seq<Position>, target: ObjectId, k: int, g: TabOrderGroup,
                                           o: Owner)
    requires |ps| == |d.controls| && GroupFor(d, ps, target) == Some(g)
    requires IsOwner(d, o) && OwnerOf(d, ControlRef(target)) == Some(o)
    ensures AfterZOrder(d, ps, target, k).status == Threw <==>
            && !ExplicitZOrder(d, ps, g.ids) && Clamped(k, |g.ids|) - 1 != g.targetIndex
            && |ChildrenOf(d, o)| == |g.ids| && exists r :: r in ChildrenOf(d, o) && r.PageRef?
  {
    hide OwnerOf, ScopeOf, GroupOf, PlacementGroup, Occurrences, Resolve, Moved, RefsTo, Gather, Stored,
      KeptOrders, ExplicitZOrder, Numbering, Reads, ControlPrefix, ChildrenOf, FirstGatherable, MoveTaken, Permuted,
      Permutable;
    var to := Clamped(k, |g.ids|) - 1;
    if !ExplicitZOrder(d, ps, g.ids) && to != g.targetIndex {
      PlanMeans(d, ps, g.ids, target);
      match PlanFor(d, g.ids, target) {
        case NoPlan =>
        case InPlace(_) => PermutedThrows(d, ps, g, o, to);
        case Gathered(pages) =>
          NeverThrows(d, ps, g, target, pages, to);
      }
    }
  }

  lemma {:induction false} PermutedThrows(d: Document, ps: seq<Position>, g: TabOrderGroup, o: Owner, to: nat)
    requires Permutable(d, ps, g.ids, o) && |g.orders| == |g.ids| && g.targetIndex < |g.ids| && to < |g.ids|
    ensures Permuted(d, ps, g, o, to).status == Threw <==> exists r :: r in ChildrenOf(d, o) && r.PageRef?
  {
    hide ChildrenOf, Moved, ControlPrefix, WithChildren, Stored, KeptOrders;
    var refs := ChildrenOf(d, o);
    PrefixWhole(Moved(refs, g.targetIndex, to));
    MovedMultiset(refs, g.targetIndex, to);
  }

  lemma {:induction false} NeverThrows(d: Document, ps: seq<Position>, g: TabOrderGroup, target: ObjectId,
                                       pages: seq<nat>, to: nat)
    requires |ps| == |d.controls| && PlacementGroup(d, target) == Some(g.ids) && target in g.ids && |g.orders| == |g.ids|
    requires PlanFor(d, g.ids, target) == Gathered(pages) && g.targetIndex < |g.ids| && to < |g.ids|
    requires pages != [] && ArePages(d, pages) && Permutable(Gather(d, pages), ps, g.ids, PageOwner(pages[0]))
    ensures Permuted(Gather(d, pages), ps, g, PageOwner(pages[0]), to).status == Applied
  {
    hide OwnerOf, PlacementGroup, PlanFor, Resolve, Moved, RefsTo, Gather, Stored, KeptOrders,
      ControlPrefix, WithChildren, GathersGroup, ChildrenOf;
    var j := PlanGathers(d, g.ids, target);
    GatheredList(d, j, pages, g.ids);
    MovedRefs(g.ids, g.targetIndex, to);
  }

  // ---------- Which groups can be moved ----------

  ghost predicate ControlsOnlyList(refs: seq<ChildRef>) {
    forall r :: r in refs ==> r.ControlRef?
  }

  /** A shared panel that holds nothing but pages, which hold nothing but controls. */
  ghost predicate PagedPanel(d: Document, j: nat) {
    && j < |d.controls|
    && forall r :: r in d.controls[j].children ==> r.PageRef? && (Resolves(d, r) ==> ControlsOnlyList(Kids(d, r)))
  }

  lemma {:induction false} PagesCollectNothing(d: Document, o: Owner, refs: seq<ChildRef>)
    requires forall r :: r in refs ==> r.PageRef?
    ensures Collect(d, o, refs) == Some([])
  {
    hide OwnerOf, Resolve;
    if refs != [] {
      assert refs[|refs| - 1] in refs;
      PagesCollectNothing(d, o, refs[..|refs| - 1]);
    }
  }

  lemma {:induction false} ControlsCollectAll(d: Document, o: Owner, refs: seq<ChildRef>)
    requires Collect(d, o, refs).Some? && ControlsOnlyList(refs)
    ensures RefsTo(Collect(d, o, refs).value) == refs
  {
    hide OwnerOf, Resolve, Collect, RefsTo, Resolves;
    if refs == [] {
      CollectNil(d, o);
    } else {
      var front, last := refs[..|refs| - 1], refs[|refs| - 1];
      assert last in refs && refs == front + [last];
      CollectSnoc(d, o, front, last);
      ControlsCollectAll(d, o, front);
      RefsToConcat(Collect(d, o, front).value, [last.id]);
      assert RefsTo([last.id]) == [last];
    }
  }

  lemma {:induction false} PagedContent(d: Document, j: nat, refs: seq<ChildRef>)
    requires PagedPanel(d, j) && refs <= d.controls[j].children && CollectPages(d, j, refs).Some?
    ensures PagesOf(d, refs).Some? && |PagesOf(d, refs).value| == |refs|
    ensures ContentOf(d, PagesOf(d, refs).value) == RefsTo(CollectPages(d, j, refs).value)
  {
    hide OwnerOf, Resolve, Collect, RefsTo, CollectPages, ContentOf, ControlsOnlyList, PageIndex, PagesOf, PagedPanel,
      Resolves;
    PagedMeans(d, j);
    if refs == [] {
      NoContent(d);
      CollectPagesNil(d, j);
      PagesCollectNothing(d, ControlOwner(j), d.controls[j].children);
    } else {
      var front, last := refs[..|refs| - 1], refs[|refs| - 1];
      assert last in d.controls[j].children && refs == front + [last];
      CollectPagesSnoc(d, j, front, last);
      PagesOfSnoc(d, front, last);
      PagedContent(d, j, front);
      PagedStep(d, last);
      ContentSnoc(d, PagesOf(d, front).value, PageIndex(d, last).value);
      RefsToConcat(CollectPages(d, j, front).value, Collect(d, Resolve(d, last).value, Kids(d, last)).value);
    }
  }

  lemma {:induction false} NoContent(d: Document)
    ensures PagesOf(d, []) == Some([]) && ContentOf(d, []) == [] && RefsTo([]) == []
  {
  }

  lemma {:induction false} PagesOfSnoc(d: Document, front: seq<ChildRef>, last: ChildRef)
    ensures PagesOf(d, front + [last]) ==
            match PagesOf(d, front)
            case None => None
            case Some(pages) => match PageIndex(d, last) case None => None case Some(p) => Some(pages + [p])
  {
    hide PageIndex;
    assert (front + [last])[..|front|] == front;
  }

  lemma {:induction false} PagedMeans(d: Document, j: nat)
    requires PagedPanel(d, j)
    ensures j < |d.controls|
    ensures forall r :: r in d.controls[j].children ==> r.PageRef? && (Resolves(d, r) ==> ControlsOnlyList(Kids(d, r)))
  {
    hide ControlsOnlyList, Resolve;
  }

  lemma {:induction false} PagedStep(d: Document, r: ChildRef)
    requires r.PageRef? && Resolves(d, r) && ControlsOnlyList(Kids(d, r))
    requires Collect(d, Resolve(d, r).value, Kids(d, r)).Some?
    ensures PageIndex(d, r).Some?
    ensures d.pages[PageIndex(d, r).value].children == RefsTo(Collect(d, Resolve(d, r).value, Kids(d, r)).value)
  {
    hide OwnerOf, Collect;
    ControlsCollectAll(d, Resolve(d, r).value, Kids(d, r));
  }

  lemma {:induction false} ContentSnoc(d: Document, pages: seq<nat>, p: nat)
    requires ArePages(d, pages) && p < |d.pages|
    ensures ContentOf(d, pages + [p]) == ContentOf(d, pages) + d.pages[p].children
  {
    assert (pages + [p])[..|pages|] == pages;
  }

  lemma {:induction false} RefsToConcat(a: seq<ObjectId>, b: seq<ObjectId>)
    ensures RefsTo(a + b) == RefsTo(a) + RefsTo(b)
  {
  }

  lemma {:induction false} FirstGatherableExists(d: Document, ids: seq<ObjectId>, from: nat, i: nat)
    requires from <= i < |d.controls| && Gatherable(d, i, ids).Some?
    ensures FirstGatherable(d, ids, from).Some?
    decreases |d.controls| - from
  {
    hide Gatherable;
    if from < i { FirstGatherableExists(d, ids, from + 1, i); }
  }

  /** A group in one list of controls, or on the pages of a panel that holds only pages, can be moved. */
  lemma {:induction false} ZOrderSupported(d: Document, ps: seq<Position>, target: ObjectId, k: int, g: TabOrderGroup,
                                           o: Owner)
    requires |ps| == |d.controls| && UniqueIds(d) && GroupFor(d, ps, target) == Some(g) && !ExplicitZOrder(d, ps, g.ids)
    requires IsOwner(d, o) && OwnerOf(d, ControlRef(target)) == Some(o)
    requires || (ScopeOf(d, o).OwnList? && ControlsOnlyList(ChildrenOf(d, o)))
             || (ScopeOf(d, o).SharedPanel? && PagedPanel(d, ScopeOf(d, o).panel))
    ensures AfterZOrder(d, ps, target, k).status == Applied
  {
    hide OwnerOf, UniqueIds, PlacementGroup, ExplicitZOrder, Resolve, Numbering, Reads, ChildrenOf, Permuted, Gather,
      FirstGatherable, ScopeOf, GroupOf;
    var to := Clamped(k, |g.ids|) - 1;
    if to != g.targetIndex {
      ZOrderThrowsIff(d, ps, target, k, g, o);
      SupportedPlan(d, ps, target, g.ids, o);
      PlanMeans(d, ps, g.ids, target);
      match PlanFor(d, g.ids, target) {
        case InPlace(_) => StatusOfPermuted(d, ps, g, o, to);
        case Gathered(pages) => StatusOfPermuted(Gather(d, pages), ps, g, PageOwner(pages[0]), to);
      }
    }
  }

  lemma {:induction false} StatusOfPermuted(d: Document, ps: seq<Position>, g: TabOrderGroup, o: Owner, to: nat)
    requires |g.orders| == |g.ids| && g.targetIndex < |g.ids| && to < |g.ids| && Permutable(d, ps, g.ids, o)
    ensures Permuted(d, ps, g, o, to).status in {Applied, Threw}
  {
    hide Moved, Stored, KeptOrders, ControlPrefix, WithChildren;
  }

  lemma {:induction false} SupportedPlan(d: Document, ps: seq<Position>, target: ObjectId, ids: seq<ObjectId>, o: Owner)
    requires UniqueIds(d) && PlacementGroup(d, target) == Some(ids) && |ps| == |d.controls|
    requires IsOwner(d, o) && OwnerOf(d, ControlRef(target)) == Some(o)
    requires || (ScopeOf(d, o).OwnList? && ControlsOnlyList(ChildrenOf(d, o)))
             || (ScopeOf(d, o).SharedPanel? && PagedPanel(d, ScopeOf(d, o).panel))
    ensures PlanFor(d, ids, target) != NoPlan
    ensures PlanFor(d, ids, target).InPlace? ==> ControlsOnlyList(ChildrenOf(d, o))
  {
    hide OwnerOf, UniqueIds, PlacementGroup, Resolve, FirstGatherable, ScopeOf, Collect, CollectPages, ContentOf,
      PagesOf, ControlsOnlyList;
    var q := GroupMeans(d, ids, target);
    match ScopeOf(d, o) {
      case OwnList(_) =>
        ControlsCollectAll(d, o, ChildrenOf(d, o));
      case SharedPanel(j) =>
        PagedContent(d, j, d.controls[j].children);
        SharedMeans(d, o, j, target);
        FirstGatherableExists(d, ids, 0, j);
    }
  }

  lemma {:induction false} SharedMeans(d: Document, o: Owner, j: nat, target: ObjectId)
    requires UniqueIds(d) && IsOwner(d, o) && ScopeOf(d, o) == SharedPanel(j) && PagedPanel(d, j)
    requires OwnerOf(d, ControlRef(target)) == Some(o)
    ensures d.controls[j].kind == Panel && d.controls[j].separateByPage == Some(Boolean(false))
    ensures d.controls[j].children != [] && ControlsOnlyList(ChildrenOf(d, o))
  {
    hide OwnerOf, Resolve, ControlsOnlyList, UniqueIds, Owners, NodeRefs;
    OwnerOfIff(d, ControlRef(target), o);
    PanelOfScope(d, o, j);
    if o.PageOwner? {
      OwnerOfIff(d, RefOf(d, o), ControlOwner(j));
      ResolveUnique(d, o);
    }
  }
}
