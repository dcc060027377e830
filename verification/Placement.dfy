/** The controls that share one tab order, one stacking order and one default control, and the
    setters that keep those orders. */
module Placement {
  import opened FormModel
  import opened Limits
  import opened Optional
  import opened Sequences

  /** A property slot: either its implicit default or a value that was set. */
  datatype Property<+T> = Implicit | Explicit(value: T)

  /** The placement values of one control. */
  datatype Position = Position(
    tabOrder: Property<Option<int>>,
    zOrder: Property<Option<int>>,
    defaultControl: Property<Option<bool>>)

  // ---------- Owners ----------

  ghost function LastOwner(d: Document, os: seq<Owner>, r: ChildRef): Option<Owner>
    requires forall o :: o in os ==> IsOwner(d, o)
  {
    if os == [] then None
    else if r in ChildrenOf(d, os[|os| - 1]) then Some(os[|os| - 1])
    else LastOwner(d, os[..|os| - 1], r)
  }

  /** The owner of a child that has exactly one place. */
  ghost function OwnerOf(d: Document, r: ChildRef): Option<Owner> {
    if Occurrences(d, r) == 1 then LastOwner(d, Owners(d), r) else None
  }

  lemma {:induction false} LastOwnerLists(d: Document, os: seq<Owner>, r: ChildRef)
    requires forall o :: o in os ==> IsOwner(d, o)
    ensures LastOwner(d, os, r).Some? ==> LastOwner(d, os, r).value in os && r in ChildrenOf(d, LastOwner(d, os, r).value)
    ensures RefsIn(d, os)[r] > 0 ==> LastOwner(d, os, r).Some?
  {
    hide ChildrenOf, IsOwner;
    if os != [] {
      LastOwnerLists(d, os[..|os| - 1], r);
    }
  }

  /** Two owners that both list a child give it at least two places. */
  lemma {:induction false} TwoPlaces(d: Document, os: seq<Owner>, o: Owner, q: Owner, r: ChildRef)
    requires forall x :: x in os ==> IsOwner(d, x)
    requires o in os && q in os && o != q
    requires r in ChildrenOf(d, o) && r in ChildrenOf(d, q)
    ensures RefsIn(d, os)[r] >= 2
  {
    hide ChildrenOf, IsOwner, RefsIn;
    var k :| 0 <= k < |os| && os[k] == o;
    RefsInRemove(d, os, k);
    var rest := os[..k] + os[k + 1..];
    assert q in rest by {
      var i :| 0 <= i < |os| && os[i] == q;
      assert rest[if i < k then i else i - 1] == q;
    }
    OwnerRefs(d, rest, q, r);
  }

  lemma {:induction false} OwnerOfIff(d: Document, r: ChildRef, o: Owner)
    ensures OwnerOf(d, r) == Some(o) <==> Occurrences(d, r) == 1 && IsOwner(d, o) && r in ChildrenOf(d, o)
  {
    hide ChildrenOf, IsOwner, RefsIn, LastOwner, Owners;
    LastOwnerLists(d, Owners(d), r);
    if Occurrences(d, r) == 1 && IsOwner(d, o) && r in ChildrenOf(d, o) {
      var q := LastOwner(d, Owners(d), r).value;
      if q != o { TwoPlaces(d, Owners(d), o, q, r); }
    }
  }

  // ---------- Groups ----------

  /** Which child lists make up a group: the list that holds the target, or a whole panel whose
      pages share one area. */
  datatype Scope = NoScope | OwnList(owner: Owner) | SharedPanel(panel: nat)

  /** The control that encloses a list: the owner itself, or the panel of an owning page. The inner
      None stands for the form. */
  ghost function Enclosing(d: Document, o: Owner): (e: Option<Option<nat>>)
    requires IsOwner(d, o)
    ensures e.Some? && e.value.Some? ==> e.value.value < |d.controls|
  {
    match o
    case FormOwner => Some(None)
    case ControlOwner(i) => Some(Some(i))
    case PageOwner(i) =>
      OwnerOfIsOwner(d, RefOf(d, o));
      match OwnerOf(d, RefOf(d, o))
      case None => None
      case Some(q) =>
        match q
        case FormOwner => Some(None)
        case PageOwner(_) => None
        case ControlOwner(j) => if d.controls[j].kind == Panel then Some(Some(j)) else None
  }

  lemma {:induction false} OwnerOfIsOwner(d: Document, r: ChildRef)
    ensures OwnerOf(d, r).Some? ==> IsOwner(d, OwnerOf(d, r).value)
  {
    if OwnerOf(d, r).Some? { OwnerOfIff(d, r, OwnerOf(d, r).value); }
  }

  ghost function ScopeOf(d: Document, o: Owner): (s: Scope)
    requires IsOwner(d, o)
    ensures s.OwnList? ==> s.owner == o
    ensures s.SharedPanel? ==> s.panel < |d.controls|
  {
    match Enclosing(d, o)
    case None => NoScope
    case Some(None) => OwnList(o)
    case Some(Some(j)) =>
      if d.controls[j].kind == Panel then
        match d.controls[j].separateByPage
        case None => OwnList(o)
        case Some(OtherValue) => NoScope
        case Some(Boolean(separate)) => if separate then OwnList(o) else SharedPanel(j)
      else if PolicyOf(d.controls[j].kind) == Forbidden then NoScope
      else OwnList(o)
  }

  /** The controls of one list; None unless each exists and has its only place there. */
  ghost function Collect(d: Document, o: Owner, refs: seq<ChildRef>): (ids: Option<seq<ObjectId>>) {
    if refs == [] then Some([])
    else
      var last := refs[|refs| - 1];
      match Collect(d, o, refs[..|refs| - 1])
      case None => None
      case Some(ids) =>
        if last.PageRef? then Some(ids)
        else if Resolves(d, last) && OwnerOf(d, last) == Some(o) then Some(ids + [last.id])
        else None
  }

  /** The pages' lists of a shared panel, after the controls the panel holds itself. */
  ghost function CollectPages(d: Document, panel: nat, refs: seq<ChildRef>): Option<seq<ObjectId>>
    requires panel < |d.controls|
  {
    if refs == [] then Collect(d, ControlOwner(panel), d.controls[panel].children)
    else
      var last := refs[|refs| - 1];
      match CollectPages(d, panel, refs[..|refs| - 1])
      case None => None
      case Some(ids) =>
        if last.ControlRef? then Some(ids)
        else if Resolves(d, last) && OwnerOf(d, last) == Some(ControlOwner(panel)) then
          match Collect(d, Resolve(d, last).value, Kids(d, last))
          case None => None
          case Some(more) => Some(ids + more)
        else None
  }

  lemma {:induction false} CollectSnoc(d: Document, o: Owner, front: seq<ChildRef>, last: ChildRef)
    ensures Collect(d, o, front + [last]) ==
            match Collect(d, o, front)
            case None => None
            case Some(ids) =>
              if last.PageRef? then Some(ids)
              else if Resolves(d, last) && OwnerOf(d, last) == Some(o) then Some(ids + [last.id])
              else None
  {
    hide OwnerOf, Resolve;
    assert (front + [last])[..|front|] == front;
  }

  lemma {:induction false} CollectPagesSnoc(d: Document, panel: nat, front: seq<ChildRef>, last: ChildRef)
    requires panel < |d.controls|
    ensures CollectPages(d, panel, front + [last]) ==
            match CollectPages(d, panel, front)
            case None => None
            case Some(ids) =>
              if last.ControlRef? then Some(ids)
              else if Resolves(d, last) && OwnerOf(d, last) == Some(ControlOwner(panel)) then
                match Collect(d, Resolve(d, last).value, Kids(d, last))
                case None => None
                case Some(more) => Some(ids + more)
              else None
  {
    hide OwnerOf, Resolve, Collect;
    assert (front + [last])[..|front|] == front;
  }

  lemma {:induction false} CollectNil(d: Document, o: Owner)
    ensures Collect(d, o, []) == Some([])
  {
  }

  lemma {:induction false} CollectPagesNil(d: Document, panel: nat)
    requires panel < |d.controls|
    ensures CollectPages(d, panel, []) == Collect(d, ControlOwner(panel), d.controls[panel].children)
  {
  }

  ghost function GroupOf(d: Document, s: Scope): Option<seq<ObjectId>>
    requires s.OwnList? ==> IsOwner(d, s.owner)
    requires s.SharedPanel? ==> s.panel < |d.controls|
  {
    match s
    case NoScope => None
    case OwnList(o) => Collect(d, o, ChildrenOf(d, o))
    case SharedPanel(j) => CollectPages(d, j, d.controls[j].children)
  }

  ghost function PlacementGroup(d: Document, target: ObjectId): Option<seq<ObjectId>> {
    OwnerOfIsOwner(d, ControlRef(target));
    match OwnerOf(d, ControlRef(target))
    case None => None
    case Some(o) => GroupOf(d, ScopeOf(d, o))
  }

  // ---------- Groups partition the controls ----------

  lemma {:induction false} CollectMembers(d: Document, o: Owner, refs: seq<ChildRef>, id: ObjectId)
    requires Collect(d, o, refs).Some?
    ensures id in Collect(d, o, refs).value <==> ControlRef(id) in refs
    ensures id in Collect(d, o, refs).value ==> Resolves(d, ControlRef(id)) && OwnerOf(d, ControlRef(id)) == Some(o)
  {
    hide *;
    if refs == [] {
      CollectNil(d, o);
    } else {
      var front, last := refs[..|refs| - 1], refs[|refs| - 1];
      assert refs == front + [last];
      CollectSnoc(d, o, front, last);
      CollectMembers(d, o, front, id);
    }
  }

  /** A member of a shared panel's group has the panel or one of its pages as owner. */
  lemma {:induction false} CollectPagesMember(d: Document, j: nat, refs: seq<ChildRef>, id: ObjectId) returns (o: Owner)
    requires j < |d.controls| && CollectPages(d, j, refs).Some? && id in CollectPages(d, j, refs).value
    ensures Resolves(d, ControlRef(id)) && OwnerOf(d, ControlRef(id)) == Some(o) && IsOwner(d, o)
    ensures o == ControlOwner(j) ||
            (o.PageOwner? && OwnerOf(d, RefOf(d, o)) == Some(ControlOwner(j)) &&
             RefOf(d, o) in refs && Resolve(d, RefOf(d, o)) == Some(o))
  {
    hide OwnerOf, Resolve, Collect;
    if refs == [] {
      CollectMembers(d, ControlOwner(j), d.controls[j].children, id);
      o := ControlOwner(j);
    } else {
      var front, last := refs[..|refs| - 1], refs[|refs| - 1];
      if id in CollectPages(d, j, front).value {
        o := CollectPagesMember(d, j, front, id);
      } else {
        o := Resolve(d, last).value;
        CollectMembers(d, o, Kids(d, last), id);
      }
    }
  }

  /** Any two controls of a group have the same group, in the same order. */
  lemma {:induction false} GroupsAgree(d: Document, a: ObjectId, b: ObjectId)
    requires PlacementGroup(d, a).Some? && b in PlacementGroup(d, a).value
    ensures PlacementGroup(d, b) == PlacementGroup(d, a)
  {
    hide OwnerOf, Resolve, Collect, CollectPages, IsOwner;
    OwnerOfIsOwner(d, ControlRef(a));
    var o := OwnerOf(d, ControlRef(a)).value;
    match ScopeOf(d, o) {
      case OwnList(_) =>
        CollectMembers(d, o, ChildrenOf(d, o), b);
      case SharedPanel(j) =>
        var q := CollectPagesMember(d, j, d.controls[j].children, b);
        SharedScope(d, o, j, q);
    }
  }

  lemma {:induction false} SharedScope(d: Document, o: Owner, j: nat, q: Owner)
    requires IsOwner(d, o) && ScopeOf(d, o) == SharedPanel(j)
    requires IsOwner(d, q)
    requires q == ControlOwner(j) || (q.PageOwner? && OwnerOf(d, RefOf(d, q)) == Some(ControlOwner(j)))
    ensures ScopeOf(d, q) == SharedPanel(j)
  {
    hide OwnerOf;
  }

  lemma {:induction false} CollectPagesCovers(d: Document, j: nat, refs: seq<ChildRef>, o: Owner, id: ObjectId)
    requires j < |d.controls| && CollectPages(d, j, refs).Some?
    requires IsOwner(d, o) && ControlRef(id) in ChildrenOf(d, o)
    requires o == ControlOwner(j) || (o.PageOwner? && RefOf(d, o) in refs && Resolve(d, RefOf(d, o)) == Some(o))
    ensures id in CollectPages(d, j, refs).value
  {
    hide OwnerOf, Resolve, Collect, CollectPages;
    if refs == [] {
      CollectPagesNil(d, j);
      CollectMembers(d, o, ChildrenOf(d, o), id);
    } else {
      var front, last := refs[..|refs| - 1], refs[|refs| - 1];
      assert refs == front + [last];
      CollectPagesSnoc(d, j, front, last);
      if o == ControlOwner(j) || RefOf(d, o) in front {
        CollectPagesCovers(d, j, front, o, id);
      } else {
        CollectMembers(d, o, ChildrenOf(d, o), id);
      }
    }
  }

  /** A control that has a group belongs to it. */
  lemma {:induction false} InOwnGroup(d: Document, a: ObjectId)
    requires UniqueIds(d) && PlacementGroup(d, a).Some?
    ensures a in PlacementGroup(d, a).value
  {
    hide OwnerOf, Resolve, Collect, CollectPages, Occurrences, NodeRefs;
    OwnerOfIsOwner(d, ControlRef(a));
    var o := OwnerOf(d, ControlRef(a)).value;
    OwnerOfIff(d, ControlRef(a), o);
    match ScopeOf(d, o) {
      case OwnList(_) =>
        CollectMembers(d, o, ChildrenOf(d, o), a);
      case SharedPanel(j) =>
        if o.PageOwner? {
          OwnerOfIff(d, RefOf(d, o), ControlOwner(j));
          ResolveUnique(d, o);
        }
        CollectPagesCovers(d, j, d.controls[j].children, o, a);
    }
  }

  /** No control occurs twice in a group. */
  lemma {:induction false} GroupDistinct(d: Document, a: ObjectId)
    requires PlacementGroup(d, a).Some?
    ensures Distinct(PlacementGroup(d, a).value)
  {
    hide OwnerOf, Resolve, Collect, CollectPages;
    OwnerOfIsOwner(d, ControlRef(a));
    var o := OwnerOf(d, ControlRef(a)).value;
    match ScopeOf(d, o) {
      case OwnList(_) =>
        assert ChildrenOf(d, o) <= ChildrenOf(d, o);
        CollectDistinct(d, o, ChildrenOf(d, o));
      case SharedPanel(j) =>
        CollectPagesDistinct(d, j, d.controls[j].children);
    }
  }

  lemma {:induction false} CollectDistinct(d: Document, o: Owner, refs: seq<ChildRef>)
    requires IsOwner(d, o) && refs <= ChildrenOf(d, o) && Collect(d, o, refs).Some?
    ensures Distinct(Collect(d, o, refs).value)
  {
    hide OwnerOf, Resolve, IsOwner, ChildrenOf, Collect;
    if refs == [] {
      CollectNil(d, o);
    } else {
      var front, last := refs[..|refs| - 1], refs[|refs| - 1];
      assert refs == front + [last];
      CollectSnoc(d, o, front, last);
      CollectDistinct(d, o, front);
      if last.ControlRef? {
        CollectMembers(d, o, front, last.id);
        if last in front { RepeatedInList(d, o, front, last); }
      }
    }
  }

  /** A child listed twice by one owner has more than one place. */
  lemma {:induction false} RepeatedInList(d: Document, o: Owner, front: seq<ChildRef>, last: ChildRef)
    requires IsOwner(d, o) && front + [last] <= ChildrenOf(d, o) && last in front
    ensures OwnerOf(d, last) == None
  {
    hide RefsIn, LastOwner, Owners, ChildrenOf, IsOwner;
    var all := ChildrenOf(d, o);
    assert all == front + [last] + all[|front| + 1..];
    assert multiset(all)[last] >= 2;
    OwnerRefs(d, Owners(d), o, last);
  }

  /** Every listed control belongs to the panel itself or to one of the listed pages. */
  ghost predicate OwnedWithin(d: Document, j: nat, refs: seq<ChildRef>, ids: seq<ObjectId>) {
    forall id, o :: id in ids && OwnerOf(d, ControlRef(id)) == Some(o) ==>
      o == ControlOwner(j) || (o.PageOwner? && IsOwner(d, o) && RefOf(d, o) in refs)
  }

  lemma {:induction false} CollectPagesDistinct(d: Document, j: nat, refs: seq<ChildRef>)
    requires j < |d.controls| && refs <= d.controls[j].children && CollectPages(d, j, refs).Some?
    ensures Distinct(CollectPages(d, j, refs).value)
    ensures OwnedWithin(d, j, refs, CollectPages(d, j, refs).value)
  {
    hide OwnerOf, Resolve, Collect, OwnedWithin, Distinct, CollectPages;
    if refs == [] {
      CollectPagesNil(d, j);
      CollectDistinct(d, ControlOwner(j), d.controls[j].children);
      CollectOwned(d, ControlOwner(j), d.controls[j].children, j, []);
    } else {
      var front, last := refs[..|refs| - 1], refs[|refs| - 1];
      assert refs == front + [last];
      CollectPagesSnoc(d, j, front, last);
      CollectPagesDistinct(d, j, front);
      var ids := CollectPages(d, j, front).value;
      if last.PageRef? {
        PageAppends(d, j, front, last, ids);
      } else {
        OwnedWithinMore(d, j, front, last, ids);
      }
    }
  }

  lemma {:induction false} OwnedWithinMore(d: Document, j: nat, front: seq<ChildRef>, last: ChildRef,
                                           ids: seq<ObjectId>)
    requires OwnedWithin(d, j, front, ids)
    ensures OwnedWithin(d, j, front + [last], ids)
  {
    hide OwnerOf, IsOwner;
  }

  lemma {:induction false} CollectOwned(d: Document, o: Owner, kids: seq<ChildRef>, j: nat, refs: seq<ChildRef>)
    requires Collect(d, o, kids).Some?
    requires o == ControlOwner(j) || (o.PageOwner? && IsOwner(d, o) && RefOf(d, o) in refs)
    ensures OwnedWithin(d, j, refs, Collect(d, o, kids).value)
  {
    hide OwnerOf, IsOwner, Collect, Resolve;
    forall id | id in Collect(d, o, kids).value ensures OwnerOf(d, ControlRef(id)) == Some(o) {
      CollectMembers(d, o, kids, id);
    }
  }

  lemma {:induction false} PageAppends(d: Document, j: nat, front: seq<ChildRef>, last: ChildRef, ids: seq<ObjectId>)
    requires j < |d.controls| && front + [last] <= d.controls[j].children && last.PageRef?
    requires Resolves(d, last) && OwnerOf(d, last) == Some(ControlOwner(j))
    requires Collect(d, Resolve(d, last).value, Kids(d, last)).Some?
    requires Distinct(ids) && OwnedWithin(d, j, front, ids)
    ensures Distinct(ids + Collect(d, Resolve(d, last).value, Kids(d, last)).value)
    ensures OwnedWithin(d, j, front + [last], ids + Collect(d, Resolve(d, last).value, Kids(d, last)).value)
  {
    hide OwnerOf, Resolve, Collect, NodeRefs, Distinct;
    var page := Resolve(d, last).value;
    var more := Collect(d, page, Kids(d, last)).value;
    CollectDistinct(d, page, Kids(d, last));
    if last in front { RepeatedInList(d, ControlOwner(j), front, last); }
    PageIsPage(d, last);
    forall id | id in more ensures OwnerOf(d, ControlRef(id)) == Some(page) && id !in ids {
      CollectMembers(d, page, Kids(d, last), id);
    }
    DistinctConcat(ids, more);
    CollectOwned(d, page, Kids(d, last), j, front + [last]);
    OwnedWithinMore(d, j, front, last, ids);
    OwnedWithinConcat(d, j, front + [last], ids, more);
  }

  lemma {:induction false} PageIsPage(d: Document, r: ChildRef)
    requires r.PageRef? && Resolves(d, r)
    ensures Resolve(d, r).value.PageOwner? && RefOf(d, Resolve(d, r).value) == r
  {
  }

  lemma {:induction false} OwnedWithinConcat(d: Document, j: nat, refs: seq<ChildRef>, a: seq<ObjectId>,
                                             b: seq<ObjectId>)
    requires OwnedWithin(d, j, refs, a) && OwnedWithin(d, j, refs, b)
    ensures OwnedWithin(d, j, refs, a + b)
  {
    hide OwnerOf, IsOwner;
  }

  // ---------- Finding a group ----------

  datatype Ownership = Ownership(owner: Owner, count: nat)

  ghost predicate Indexed(d: Document, owners: map<ChildRef, Ownership>, os: seq<Owner>) {
    && (forall o :: o in os ==> IsOwner(d, o))
    && (forall r :: r in owners <==> RefsIn(d, os)[r] > 0)
    && (forall r :: r in owners ==> owners[r].count == RefsIn(d, os)[r] && Some(owners[r].owner) == LastOwner(d, os, r))
  }

  function AddPlace(owners: map<ChildRef, Ownership>, o: Owner, r: ChildRef): map<ChildRef, Ownership> {
    owners[r := Ownership(o, (if r in owners then owners[r].count else 0) + 1)]
  }

  ghost function PlaceAll(owners: map<ChildRef, Ownership>, o: Owner, children: seq<ChildRef>): map<ChildRef,
                          Ownership> {
    if children == [] then owners
    else AddPlace(PlaceAll(owners, o, children[..|children| - 1]), o, children[|children| - 1])
  }

  /** Indexing one owner's list: its children point at the owner, and gain that many places. */
  lemma {:induction false} PlaceAllMeans(owners: map<ChildRef, Ownership>, o: Owner, children: seq<ChildRef>,
                                         r: ChildRef)
    ensures var after := PlaceAll(owners, o, children);
            && (r in after <==> r in owners || r in children)
            && (r in children ==> after[r] == Ownership(o, (if r in owners then owners[r].count else 0) + multiset(children)[r]))
            && (r in owners && r !in children ==> after[r] == owners[r])
  {
    if children != [] {
      var front, last := children[..|children| - 1], children[|children| - 1];
      PlaceAllMeans(owners, o, front, r);
      assert children == front + [last];
    }
  }

  lemma {:induction false} IndexedStep(d: Document, owners: map<ChildRef, Ownership>, os: seq<Owner>, o: Owner)
    requires Indexed(d, owners, os) && IsOwner(d, o)
    ensures Indexed(d, PlaceAll(owners, o, ChildrenOf(d, o)), os + [o])
  {
    hide IsOwner, ChildrenOf, PlaceAll;
    var more := os + [o];
    assert more[..|more| - 1] == os;
    forall r ensures var after := PlaceAll(owners, o, ChildrenOf(d, o));
                     && (r in after <==> RefsIn(d, more)[r] > 0)
                     && (r in after ==> after[r].count == RefsIn(d, more)[r] && Some(after[r].owner) == LastOwner(d, more, r))
    {
      PlaceAllMeans(owners, o, ChildrenOf(d, o), r);
    }
  }

  method IndexOwners(d: Document) returns (owners: map<ChildRef, Ownership>)
    ensures Indexed(d, owners, Owners(d))
  {
    hide Owners, IsOwner, ChildrenOf, Indexed, AddPlace;
    owners := map[];
    var os := Owners(d);
    assert os[..0] == [];
    NothingIndexed(d);
    for i := 0 to |os|
      invariant Indexed(d, owners, os[..i])
    {
      assert os[i] in os;
      var children := ChildrenOf(d, os[i]);
      ghost var before := owners;
      for k := 0 to |children|
        invariant owners == PlaceAll(before, os[i], children[..k])
      {
        assert children[..k + 1][..k] == children[..k];
        owners := AddPlace(owners, os[i], children[k]);
      }
      assert children[..|children|] == children;
      assert os[..i + 1] == os[..i] + [os[i]];
      IndexedStep(d, before, os[..i], os[i]);
    }
    assert os[..|os|] == os;
  }

  lemma {:induction false} NothingIndexed(d: Document)
    ensures Indexed(d, map[], [])
  {
  }

  function FindOwner(owners: map<ChildRef, Ownership>, r: ChildRef): Option<Owner> {
    if r in owners && owners[r].count == 1 then Some(owners[r].owner) else None
  }

  lemma {:induction false} FindOwnerAgrees(d: Document, owners: map<ChildRef, Ownership>)
    requires Indexed(d, owners, Owners(d))
    ensures forall r :: FindOwner(owners, r) == OwnerOf(d, r)
  {
    hide Owners, RefsIn, LastOwner;
  }

  method CollectControls(d: Document, owners: map<ChildRef, Ownership>, o: Owner) returns (ids: Option<seq<ObjectId>>)
    requires IsOwner(d, o) && forall r :: FindOwner(owners, r) == OwnerOf(d, r)
    ensures ids == Collect(d, o, ChildrenOf(d, o))
  {
    hide *;
    var children, result := ChildrenOf(d, o), [];
    CollectStep(d, o, children, 0);
    for i := 0 to |children|
      invariant Collect(d, o, children[..i]) == Some(result)
    {
      CollectStep(d, o, children, i);
      var child := children[i];
      if child.ControlRef? {
        if !Resolves(d, child) || FindOwner(owners, child) != Some(o) {
          CollectFails(d, o, children, i + 1);
          return None;
        }
        result := result + [child.id];
      }
    }
    assert children[..|children|] == children;
    return Some(result);
  }

  lemma {:induction false} CollectStep(d: Document, o: Owner, refs: seq<ChildRef>, i: nat)
    requires i <= |refs|
    ensures i == 0 ==> Collect(d, o, refs[..i]) == Some([])
    ensures i < |refs| && Collect(d, o, refs[..i]).Some? ==>
              Collect(d, o, refs[..i + 1]) ==
              if refs[i].PageRef? then Collect(d, o, refs[..i])
              else if Resolves(d, refs[i]) && OwnerOf(d, refs[i]) == Some(o) then Some(Collect(d, o, refs[..i]).value + [refs[i].id])
              else None
  {
    hide OwnerOf, Resolves;
    if i < |refs| { assert refs[..i + 1][..i] == refs[..i]; }
  }

  lemma {:induction false} CollectFails(d: Document, o: Owner, refs: seq<ChildRef>, i: nat)
    requires i <= |refs| && Collect(d, o, refs[..i]) == None
    ensures Collect(d, o, refs) == None
    decreases |refs| - i
  {
    if i == |refs| {
      assert refs[..i] == refs;
    } else {
      assert refs[..i + 1][..i] == refs[..i];
      CollectFails(d, o, refs, i + 1);
    }
  }

  lemma {:induction false} CollectPagesFails(d: Document, j: nat, refs: seq<ChildRef>, i: nat)
    requires j < |d.controls| && i <= |refs| && CollectPages(d, j, refs[..i]) == None
    ensures CollectPages(d, j, refs) == None
    decreases |refs| - i
  {
    if i == |refs| {
      assert refs[..i] == refs;
    } else {
      assert refs[..i + 1][..i] == refs[..i];
      CollectPagesFails(d, j, refs, i + 1);
    }
  }

  lemma {:induction false} CollectPagesStep(d: Document, j: nat, refs: seq<ChildRef>, i: nat)
    requires j < |d.controls| && i <= |refs|
    ensures i == 0 ==> CollectPages(d, j, refs[..i]) == Collect(d, ControlOwner(j), d.controls[j].children)
    ensures i < |refs| && CollectPages(d, j, refs[..i]).Some? ==>
              CollectPages(d, j, refs[..i + 1]) ==
              if refs[i].ControlRef? then CollectPages(d, j, refs[..i])
              else if Resolves(d, refs[i]) && OwnerOf(d, refs[i]) == Some(ControlOwner(j)) then
                match Collect(d, Resolve(d, refs[i]).value, Kids(d, refs[i]))
                case None => None
                case Some(more) => Some(CollectPages(d, j, refs[..i]).value + more)
              else None
  {
    hide OwnerOf, Resolve, Collect;
    if i < |refs| { assert refs[..i + 1][..i] == refs[..i]; }
  }

  method CollectShared(d: Document, owners: map<ChildRef, Ownership>, j: nat) returns (ids: Option<seq<ObjectId>>)
    requires j < |d.controls| && forall r :: FindOwner(owners, r) == OwnerOf(d, r)
    ensures ids == CollectPages(d, j, d.controls[j].children)
  {
    hide OwnerOf, Resolve, FindOwner, Collect, CollectPages;
    var children := d.controls[j].children;
    ids := CollectControls(d, owners, ControlOwner(j));
    CollectPagesStep(d, j, children, 0);
    if ids.None? {
      CollectPagesFails(d, j, children, 0);
      return;
    }
    for i := 0 to |children|
      invariant ids.Some? && ids == CollectPages(d, j, children[..i])
    {
      CollectPagesStep(d, j, children, i);
      var child := children[i];
      if child.PageRef? {
        var page := Resolve(d, child);
        if page.None? || FindOwner(owners, child) != Some(ControlOwner(j)) {
          CollectPagesFails(d, j, children, i + 1);
          return None;
        }
        var more := CollectControls(d, owners, page.value);
        if more.None? {
          CollectPagesFails(d, j, children, i + 1);
          return None;
        }
        ids := Some(ids.value + more.value);
      }
    }
    assert children[..|children|] == children;
  }

  method PlacementControlGroup(d: Document, target: ObjectId) returns (group: Option<seq<ObjectId>>)
    ensures group == PlacementGroup(d, target)
  {
    hide OwnerOf, Resolve, FindOwner, Collect, CollectPages, Indexed;
    var owners := IndexOwners(d);
    FindOwnerAgrees(d, owners);
    var owner := FindOwner(owners, ControlRef(target));
    if owner.None? { return None; }
    OwnerOfIsOwner(d, ControlRef(target));
    var o := owner.value;
    var panel: Option<nat> := if o.ControlOwner? then Some(o.index) else None;
    if o.PageOwner? {
      OwnerOfIsOwner(d, RefOf(d, o));
      var pageOwner := FindOwner(owners, RefOf(d, o));
      if pageOwner.None? || pageOwner.value.PageOwner? ||
         (pageOwner.value.ControlOwner? && d.controls[pageOwner.value.index].kind != Panel) { return None; }
      panel := if pageOwner.value.ControlOwner? then Some(pageOwner.value.index) else None;
    }
    var shared := false;
    if panel.Some? && d.controls[panel.value].kind == Panel {
      var separate := d.controls[panel.value].separateByPage;
      if separate.Some? {
        if separate.value.OtherValue? { return None; }
        shared := !separate.value.value;
      }
    } else if panel.Some? && PolicyOf(d.controls[panel.value].kind) == Forbidden {
      return None;
    }
    if shared {
      group := CollectShared(d, owners, panel.value);
    } else {
      group := CollectControls(d, owners, o);
    }
  }
}
