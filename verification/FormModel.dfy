/** The part of an ordinary-form document that decides which control belongs where:
    the form's own child list, and the controls and pages with theirs. */
module FormModel {
  import opened Optional
  import opened Sequences

  type ObjectId = nat

  const NULL_ID: ObjectId := 0

  datatype ChildRef = ControlRef(id: ObjectId) | PageRef(id: ObjectId)

  /** Only panels own pages and only usual groups own controls alone; every other kind is a leaf. */
  datatype ControlKind = Panel | UsualGroup | LeafKind

  datatype ChildPolicy = Forbidden | OrderedControls | OrderedControlsAndPages

  function PolicyOf(kind: ControlKind): ChildPolicy {
    match kind
    case Panel => OrderedControlsAndPages
    case UsualGroup => OrderedControls
    case LeafKind => Forbidden
  }

  /** The stored value of SeparateByPage, which a document may hold with a wrong type. */
  datatype Flag = Boolean(value: bool) | OtherValue

  datatype Control = Control(
    id: ObjectId,
    kind: ControlKind,
    separateByPage: Option<Flag>,
    children: seq<ChildRef>)

  datatype Page = Page(id: ObjectId, children: seq<ChildRef>)

  datatype Document = Document(
    formId: ObjectId,
    formChildren: seq<ChildRef>,
    controls: seq<Control>,
    pages: seq<Page>)

  /** The owner of a child list. */
  datatype Owner = FormOwner | ControlOwner(index: nat) | PageOwner(index: nat)

  predicate IsOwner(d: Document, o: Owner) {
    match o
    case FormOwner => true
    case ControlOwner(i) => i < |d.controls|
    case PageOwner(i) => i < |d.pages|
  }

  function ChildrenOf(d: Document, o: Owner): seq<ChildRef>
    requires IsOwner(d, o)
  {
    match o
    case FormOwner => d.formChildren
    case ControlOwner(i) => d.controls[i].children
    case PageOwner(i) => d.pages[i].children
  }

  /** Every owner once, in the order in which the document's passes visit them. */
  function Owners(d: Document): (os: seq<Owner>)
    ensures |os| == 1 + |d.controls| + |d.pages| && os[0] == FormOwner
    ensures forall i :: 0 <= i < |d.controls| ==> os[1 + i] == ControlOwner(i)
    ensures forall i :: 0 <= i < |d.pages| ==> os[1 + |d.controls| + i] == PageOwner(i)
    ensures forall o :: o in os <==> IsOwner(d, o)
    ensures Distinct(os)
  {
    var os := [FormOwner] + seq(|d.controls|, (i: nat) => ControlOwner(i)) + seq(|d.pages|, (i: nat) => PageOwner(i));
    assert forall i :: 0 <= i < |d.controls| ==> os[1 + i] == ControlOwner(i);
    assert forall i :: 0 <= i < |d.pages| ==> os[1 + |d.controls| + i] == PageOwner(i);
    os
  }

  /** The reference that names an owner other than the form. */
  function RefOf(d: Document, o: Owner): ChildRef
    requires IsOwner(d, o) && o != FormOwner
  {
    match o
    case ControlOwner(i) => ControlRef(d.controls[i].id)
    case PageOwner(i) => PageRef(d.pages[i].id)
  }

  /** The references of all controls and pages, in the order of their owners. */
  function NodeRefs(d: Document): (rs: seq<ChildRef>)
    ensures |rs| == |d.controls| + |d.pages|
    ensures forall i :: 0 <= i < |rs| ==> rs[i] == RefOf(d, Owners(d)[i + 1])
  {
    seq(|d.controls| + |d.pages|, i requires 0 <= i < |d.controls| + |d.pages| => RefOf(d, Owners(d)[i + 1]))
  }

  /** The index keeps the first object of each category and ID. */
  function Resolve(d: Document, r: ChildRef): (o: Option<Owner>)
    ensures o.Some? ==> IsOwner(d, o.value) && o.value != FormOwner && RefOf(d, o.value) == r
    ensures o.None? <==> r !in NodeRefs(d)
  {
    match IndexOf(NodeRefs(d), r)
    case None => None
    case Some(i) => assert Owners(d)[i + 1] in Owners(d); Some(Owners(d)[i + 1])
  }

  predicate UniqueIds(d: Document) {
    Distinct(NodeRefs(d))
  }

  lemma {:induction false} ResolveUnique(d: Document, o: Owner)
    requires UniqueIds(d) && IsOwner(d, o) && o != FormOwner
    ensures Resolve(d, RefOf(d, o)) == Some(o)
  {
    hide Owners, NodeRefs, IndexOf;
    var os, rs := Owners(d), NodeRefs(d);
    assert o in os;
    var k :| 0 <= k < |os| && os[k] == o;
    assert rs[k - 1] == RefOf(d, o);
    assert rs[k - 1] == rs[IndexOf(rs, RefOf(d, o)).value];
  }

  /** How often a list of owners refers to each child. */
  function RefsIn(d: Document, os: seq<Owner>): multiset<ChildRef>
    requires forall o :: o in os ==> IsOwner(d, o)
  {
    if os == [] then multiset{}
    else RefsIn(d, os[..|os| - 1]) + multiset(ChildrenOf(d, os[|os| - 1]))
  }

  /** The number of places in the whole document that refer to a child. */
  function Occurrences(d: Document, r: ChildRef): nat {
    RefsIn(d, Owners(d))[r]
  }

  predicate Resolves(d: Document, r: ChildRef) {
    Resolve(d, r).Some?
  }

  function Kids(d: Document, r: ChildRef): seq<ChildRef>
    requires Resolves(d, r)
  {
    ChildrenOf(d, Resolve(d, r).value)
  }

  /** A page accepts controls but no nested page. */
  function PolicyAt(d: Document, o: Owner): ChildPolicy
    requires IsOwner(d, o)
  {
    match o
    case FormOwner => OrderedControlsAndPages
    case ControlOwner(i) => PolicyOf(d.controls[i].kind)
    case PageOwner(_) => OrderedControls
  }

  predicate IllegalChildren(d: Document, o: Owner)
    requires IsOwner(d, o)
  {
    match PolicyAt(d, o)
    case Forbidden => ChildrenOf(d, o) != []
    case OrderedControls => exists r :: r in ChildrenOf(d, o) && r.PageRef?
    case OrderedControlsAndPages => false
  }

  /** A list of owners without repetition refers to no more than a list that covers it. */
  lemma {:induction false} RefsInMonotone(d: Document, xs: seq<Owner>, ys: seq<Owner>)
    requires Distinct(xs)
    requires forall o :: o in xs ==> o in ys
    requires forall o :: o in ys ==> IsOwner(d, o)
    ensures RefsIn(d, xs) <= RefsIn(d, ys)
    decreases |xs|
  {
    if xs != [] {
      var last := xs[|xs| - 1];
      assert last in ys;
      var k :| 0 <= k < |ys| && ys[k] == last;
      var rest := ys[..k] + ys[k + 1..];
      forall o | o in xs[..|xs| - 1] ensures o in rest {
        assert o in ys;
        var i :| 0 <= i < |ys| && ys[i] == o;
        assert rest[if i < k then i else i - 1] == o;
      }
      RefsInMonotone(d, xs[..|xs| - 1], rest);
      RefsInRemove(d, ys, k);
    }
  }

  lemma {:induction false} RefsInSnoc(d: Document, os: seq<Owner>, o: Owner)
    requires IsOwner(d, o) && forall q :: q in os ==> IsOwner(d, q)
    ensures RefsIn(d, os + [o]) == RefsIn(d, os) + multiset(ChildrenOf(d, o))
  {
    assert (os + [o])[..|os|] == os;
  }

  lemma {:induction false} RefsInConcat(d: Document, xs: seq<Owner>, ys: seq<Owner>)
    requires forall o :: o in xs || o in ys ==> IsOwner(d, o)
    ensures forall o :: o in xs + ys ==> IsOwner(d, o)
    ensures RefsIn(d, xs + ys) == RefsIn(d, xs) + RefsIn(d, ys)
    decreases |ys|
  {
    hide IsOwner, ChildrenOf;
    if ys == [] {
      assert xs + ys == xs;
    } else {
      var front, last := ys[..|ys| - 1], ys[|ys| - 1];
      assert ys == front + [last] && last in ys;
      RefsInConcat(d, xs, front);
      RefsInSnoc(d, xs + front, last);
      RefsInSnoc(d, front, last);
      assert xs + ys == xs + front + [last];
    }
  }

  lemma {:induction false} RefsInRemove(d: Document, ys: seq<Owner>, k: nat)
    requires k < |ys|
    requires forall o :: o in ys ==> IsOwner(d, o)
    ensures RefsIn(d, ys) == RefsIn(d, ys[..k] + ys[k + 1..]) + multiset(ChildrenOf(d, ys[k]))
  {
    assert ys == ys[..k + 1] + ys[k + 1..];
    RefsInConcat(d, ys[..k + 1], ys[k + 1..]);
    RefsInConcat(d, ys[..k], ys[k + 1..]);
    assert ys[..k + 1][..k] == ys[..k];
  }

  /** An owner that lists a child is one of the places that refer to it. */
  lemma {:induction false} OwnerRefs(d: Document, os: seq<Owner>, o: Owner, r: ChildRef)
    requires forall q :: q in os ==> IsOwner(d, q)
    requires o in os
    ensures multiset(ChildrenOf(d, o)) <= RefsIn(d, os)
    ensures r in ChildrenOf(d, o) ==> RefsIn(d, os)[r] >= 1
  {
    var k :| 0 <= k < |os| && os[k] == o;
    RefsInRemove(d, os, k);
  }

  /** A child that is referred to at all is listed by some owner. */
  lemma {:induction false} SomeOwner(d: Document, os: seq<Owner>, r: ChildRef) returns (o: Owner)
    requires forall q :: q in os ==> IsOwner(d, q)
    requires RefsIn(d, os)[r] >= 1
    ensures o in os && r in ChildrenOf(d, o)
  {
    var last := os[|os| - 1];
    if r in ChildrenOf(d, last) {
      o := last;
    } else {
      o := SomeOwner(d, os[..|os| - 1], r);
    }
  }
}
