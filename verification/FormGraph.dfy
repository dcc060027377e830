/** The ownership graph of a form: its paths, its cycles, and the structural defects that
    validation reports. */
module FormGraph {
  import opened FormModel
  import opened Sequences

  /** An edge of the graph: both ends exist, and the first lists the second. */
  ghost predicate Edge(d: Document, q: ChildRef, r: ChildRef) {
    Resolves(d, q) && Resolves(d, r) && r in Kids(d, q)
  }

  ghost predicate IsPath(d: Document, p: seq<ChildRef>) {
    && (forall i :: 0 <= i < |p| ==> Resolves(d, p[i]))
    && (forall i, j :: 0 <= i < j < |p| && j == i + 1 ==> Edge(d, p[i], p[j]))
  }

  ghost predicate IsCycle(d: Document, p: seq<ChildRef>) {
    |p| >= 2 && IsPath(d, p) && p[0] == p[|p| - 1]
  }

  ghost predicate HasCycle(d: Document) {
    exists p :: IsCycle(d, p)
  }

  ghost predicate IsPathTo(d: Document, p: seq<ChildRef>, r: ChildRef) {
    |p| >= 1 && p[0] in d.formChildren && IsPath(d, p) && p[|p| - 1] == r
  }

  ghost predicate Reachable(d: Document, r: ChildRef) {
    exists p :: IsPathTo(d, p, r)
  }

  // ---------- Structural defects ----------

  datatype InvariantCode =
    | InvalidId | DuplicateId | DanglingReference | Cycle | IllegalChild | MultipleParents | Orphan

  ghost predicate Lists(d: Document, o: Owner, r: ChildRef) {
    IsOwner(d, o) && r in ChildrenOf(d, o)
  }

  ghost predicate Dangles(d: Document, o: Owner, r: ChildRef) {
    Lists(d, o, r) && !Resolves(d, r)
  }

  ghost predicate Misplaces(d: Document, o: Owner) {
    IsOwner(d, o) && IllegalChildren(d, o)
  }

  /** A leaf lists something, or a usual group or a page lists a page. The form and panels list anything. */
  ghost predicate MisplacesByKind(d: Document, o: Owner) {
    match o
    case FormOwner => false
    case ControlOwner(i) =>
      i < |d.controls| &&
      (match d.controls[i].kind
       case LeafKind => d.controls[i].children != []
       case UsualGroup => exists r :: r in d.controls[i].children && r.PageRef?
       case Panel => false)
    case PageOwner(i) => i < |d.pages| && exists r :: r in d.pages[i].children && r.PageRef?
  }

  /** What the table of child policies forbids is what does not belong there by kind. */
  lemma {:induction false} MisplacedByKind(d: Document)
    ensures forall o :: Misplaces(d, o) <==> MisplacesByKind(d, o)
    ensures Defect(d, IllegalChild) <==> exists o :: Misplaces(d, o)
  {
    forall o ensures Misplaces(d, o) <==> MisplacesByKind(d, o) { }
    hide Misplaces, MisplacesByKind;
    if o :| Misplaces(d, o) { assert MisplacesByKind(d, o); }
    if o :| MisplacesByKind(d, o) { assert Misplaces(d, o); }
  }

  ghost predicate Defect(d: Document, code: InvariantCode) {
    match code
    case InvalidId => d.formId == NULL_ID || exists r :: r in NodeRefs(d) && r.id == NULL_ID
    case DuplicateId => !UniqueIds(d)
    case DanglingReference => exists o, r :: Dangles(d, o, r)
    case IllegalChild => exists o :: MisplacesByKind(d, o)
    case MultipleParents => exists r :: r in NodeRefs(d) && Occurrences(d, r) > 1
    case Orphan => exists r :: r in NodeRefs(d) && Occurrences(d, r) == 0
    case Cycle => HasCycle(d)
  }

  ghost predicate Sound(d: Document) {
    forall code :: !Defect(d, code)
  }

  lemma {:induction false} SoundMeans(d: Document)
    requires Sound(d)
    ensures d.formId != NULL_ID && UniqueIds(d) && !HasCycle(d)
    ensures forall r :: r in NodeRefs(d) ==> r.id != NULL_ID && Occurrences(d, r) == 1
    ensures forall o, r :: Lists(d, o, r) ==> r in NodeRefs(d)
    ensures forall o :: IsOwner(d, o) ==> !IllegalChildren(d, o)
  {
    hide Occurrences, IllegalChildren, IsOwner, NodeRefs, MisplacesByKind;
    MisplacedByKind(d);
    assert !Defect(d, InvalidId) && !Defect(d, DuplicateId) && !Defect(d, Cycle);
    assert !Defect(d, MultipleParents) && !Defect(d, Orphan);
    forall o, r | Lists(d, o, r) ensures r in NodeRefs(d) {
      assert !Defect(d, DanglingReference);
      assert !Dangles(d, o, r);
    }
    forall o | IsOwner(d, o) ensures !IllegalChildren(d, o) {
      assert !Defect(d, IllegalChild);
      assert !Misplaces(d, o);
    }
  }

  // ---------- Cycles ----------

  ghost predicate HasParentIn(d: Document, u: set<ChildRef>, r: ChildRef) {
    exists q :: q in u && Edge(d, q, r)
  }

  /** A finite set in which every reference has a parent from the set contains a cycle. */
  lemma {:induction false} ParentsMakeCycle(d: Document, u: set<ChildRef>)
    requires u != {}
    requires forall r :: r in u ==> HasParentIn(d, u, r)
    ensures HasCycle(d)
  {
    hide *;
    var r :| r in u;
    var q := ParentIn(d, u, r);
    EdgeResolves(d, q, r);
    SingletonPath(d, u, r);
    ExtendBackwards(d, u, [r]);
  }

  lemma {:induction false} EdgeResolves(d: Document, q: ChildRef, r: ChildRef)
    requires Edge(d, q, r)
    ensures Resolves(d, q) && Resolves(d, r) && r in Kids(d, q)
  {
  }

  lemma {:induction false} PathPrepend(d: Document, q: ChildRef, p: seq<ChildRef>)
    requires |p| >= 1 && IsPath(d, p) && Edge(d, q, p[0])
    ensures IsPath(d, [q] + p)
  {
    hide Edge, Resolves;
    EdgeResolves(d, q, p[0]);
    var longer := [q] + p;
    forall i, j | 0 <= i < j < |longer| && j == i + 1 ensures Edge(d, longer[i], longer[j]) {
      if i > 0 { assert Edge(d, p[i - 1], p[j - 1]); }
    }
  }

  lemma {:induction false} PathAppend(d: Document, p: seq<ChildRef>, r: ChildRef)
    requires |p| >= 1 && IsPath(d, p) && Edge(d, p[|p| - 1], r)
    ensures IsPath(d, p + [r])
  {
    hide Edge, Resolves, Kids;
    EdgeResolves(d, p[|p| - 1], r);
    var longer := p + [r];
    forall i | 0 <= i < |longer| ensures Resolves(d, longer[i]) {
      if i < |p| { assert longer[i] == p[i]; }
    }
    forall i, j | 0 <= i < j < |longer| && j == i + 1 ensures Edge(d, longer[i], longer[j]) {
      if j < |p| { assert Edge(d, p[i], p[j]); }
    }
  }

  lemma {:induction false} PathPrefix(d: Document, p: seq<ChildRef>, k: nat)
    requires k <= |p| && IsPath(d, p)
    ensures IsPath(d, p[..k])
  {
    hide Edge, Resolves;
  }

  lemma {:induction false} PathSuffix(d: Document, p: seq<ChildRef>, k: nat)
    requires k <= |p| && IsPath(d, p)
    ensures IsPath(d, p[k..])
  {
    hide Edge, Resolves;
    var q := p[k..];
    forall i, j | 0 <= i < j < |q| && j == i + 1 ensures Edge(d, q[i], q[j]) {
      assert Edge(d, p[k + i], p[k + j]);
    }
  }

  lemma {:induction false} ParentIn(d: Document, u: set<ChildRef>, r: ChildRef) returns (q: ChildRef)
    requires HasParentIn(d, u, r)
    ensures q in u && Edge(d, q, r)
  {
    q :| q in u && Edge(d, q, r);
  }

  lemma {:induction false} HeadIn(p: seq<ChildRef>, u: set<ChildRef>)
    requires |p| >= 1 && Elements(p) <= u
    ensures p[0] in u
  {
    assert p[0] in Elements(p);
  }

  lemma {:induction false} SingletonPath(d: Document, u: set<ChildRef>, r: ChildRef)
    requires Resolves(d, r)
    ensures IsPath(d, [r]) && Distinct([r]) && (r in u ==> Elements([r]) <= u)
  {
  }

  lemma {:induction false} CycleIntro(d: Document, p: seq<ChildRef>)
    requires |p| >= 2 && IsPath(d, p) && p[0] == p[|p| - 1]
    ensures HasCycle(d)
  {
    assert IsCycle(d, p);
  }

  lemma {:induction false} DistinctPrepend(q: ChildRef, p: seq<ChildRef>, u: set<ChildRef>)
    requires q !in p && Distinct(p) && q in u && Elements(p) <= u
    ensures Distinct([q] + p) && Elements([q] + p) <= u
  {
    forall x | x in Elements([q] + p) ensures x in u { assert x == q || x in Elements(p); }
  }

  lemma {:induction false} ExtendBackwards(d: Document, u: set<ChildRef>, p: seq<ChildRef>)
    requires |p| >= 1 && IsPath(d, p) && Distinct(p) && Elements(p) <= u
    requires forall r :: r in u ==> HasParentIn(d, u, r)
    ensures HasCycle(d)
    decreases |u| - |p|
  {
    hide *;
    HeadIn(p, u);
    var q := ParentIn(d, u, p[0]);
    var longer := [q] + p;
    PathPrepend(d, q, p);
    if q in p {
      var k :| 0 <= k < |p| && p[k] == q;
      PathPrefix(d, longer, k + 2);
      CycleIntro(d, longer[..k + 2]);
    } else {
      DistinctPrepend(q, p, u);
      ElementsSize(longer);
      SubsetSize(Elements(longer), u);
      ExtendBackwards(d, u, longer);
    }
  }

  /** Without a cycle, one place for every object means that the form reaches all of them. */
  lemma {:induction false} AcyclicReachesAll(d: Document)
    requires UniqueIds(d) && !HasCycle(d)
    requires forall r :: r in NodeRefs(d) ==> Occurrences(d, r) == 1
    ensures forall r :: r in NodeRefs(d) ==> Reachable(d, r)
  {
    hide NodeRefs, Owners, RefsIn;
    hide Edge, Reachable, HasCycle;
    var u := set r | r in NodeRefs(d) && !Reachable(d, r);
    forall r | r in u ensures HasParentIn(d, u, r) {
      var o := SomeOwner(d, Owners(d), r);
      ReachableFromOwner(d, o, r);
      EdgeResolves(d, RefOf(d, o), r);
      assert RefOf(d, o) in u;
    }
    assert u == {} || HasCycle(d) by {
      if u != {} { ParentsMakeCycle(d, u); }
    }
    forall r | r in NodeRefs(d) ensures Reachable(d, r) { assert r !in u; }
    if u != {} { ParentsMakeCycle(d, u); }
  }

  lemma {:induction false} ReachableFromOwner(d: Document, o: Owner, r: ChildRef)
    requires UniqueIds(d) && Lists(d, o, r) && Resolves(d, r)
    ensures o == FormOwner ==> Reachable(d, r)
    ensures o != FormOwner ==> Edge(d, RefOf(d, o), r) && (Reachable(d, RefOf(d, o)) ==> Reachable(d, r))
  {
    hide NodeRefs, Owners, Resolve;
    if o == FormOwner {
      assert IsPathTo(d, [r], r);
    } else {
      var q := RefOf(d, o);
      ResolveUnique(d, o);
      if Reachable(d, q) {
        var p :| IsPathTo(d, p, q);
        PathAppend(d, p, r);
        assert IsPathTo(d, p + [r], r);
      }
    }
  }

  /** An order in which every object comes after its children. */
  ghost predicate Topological(d: Document, order: seq<ChildRef>) {
    forall i, r :: 0 <= i < |order| && Edge(d, order[i], r) ==> r in order[..i]
  }

  lemma {:induction false} PathDescends(d: Document, order: seq<ChildRef>, p: seq<ChildRef>)
    requires Topological(d, order) && IsPath(d, p) && |p| >= 2
    requires forall r :: r in p ==> r in order
    ensures IndexOf(order, p[|p| - 1]).value < IndexOf(order, p[0]).value
  {
    hide IndexOf, Edge, Resolves;
    var k := IndexOf(order, p[0]).value;
    assert Edge(d, p[0], p[1]);
    assert p[1] in order[..k];
    assert p[1] in order;
    assert IndexOf(order, p[1]).value < k;
    if |p| > 2 {
      PathDescends(d, order, p[1..]);
    }
  }

  lemma {:induction false} TopologicalAcyclic(d: Document, order: seq<ChildRef>)
    requires Topological(d, order) && forall r :: Resolves(d, r) ==> r in order
    ensures !HasCycle(d)
  {
    forall p | IsCycle(d, p) ensures false {
      PathDescends(d, order, p);
    }
  }
}
