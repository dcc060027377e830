/** The walk behind a form's Controls and a panel's Pages. It succeeds exactly on the documents that
    validation finds structurally sound, and lists the form's tree in preorder. */
module FormWalk {
  import opened FormGraph
  import opened FormModel
  import opened Optional
  import opened Sequences

  // ---------- The walk ----------

  predicate Admits(d: Document, seen: seq<ChildRef>, r: ChildRef) {
    r.id != NULL_ID && r !in seen && match Resolve(d, r) case None => false case Some(o) => !IllegalChildren(d, o)
  }

  /** The references in the order in which the walk meets them; None once it meets a bad one. */
  ghost function Walk(d: Document, pending: seq<ChildRef>, seen: seq<ChildRef>): Option<seq<ChildRef>>
    decreases |Elements(NodeRefs(d)) - Elements(seen)|, |pending|
  {
    if pending == [] then Some(seen)
    else if !Admits(d, seen, pending[0]) then None
    else
      WalkProgress(d, seen, pending[0]);
      Walk(d, Kids(d, pending[0]) + pending[1..], seen + [pending[0]])
  }

  lemma {:induction false} WalkProgress(d: Document, seen: seq<ChildRef>, r: ChildRef)
    requires Admits(d, seen, r)
    ensures |Elements(NodeRefs(d)) - Elements(seen + [r])| < |Elements(NodeRefs(d)) - Elements(seen)|
  {
    hide NodeRefs, Resolve, IllegalChildren;
    var before, after := Elements(NodeRefs(d)) - Elements(seen), Elements(NodeRefs(d)) - Elements(seen + [r]);
    assert after == before - {r};
    assert r in before;
  }

  function ControlsIn(refs: seq<ChildRef>): (cs: seq<ChildRef>)
    ensures forall r :: r in cs <==> r in refs && r.ControlRef?
  {
    if refs == [] then []
    else
      var last := refs[|refs| - 1];
      assert refs == refs[..|refs| - 1] + [last];
      ControlsIn(refs[..|refs| - 1]) + if last.ControlRef? then [last] else []
  }

  function PagesIn(refs: seq<ChildRef>): (ps: seq<ChildRef>)
    ensures |ps| + |ControlsIn(refs)| == |refs|
  {
    if refs == [] then []
    else
      var last := refs[|refs| - 1];
      PagesIn(refs[..|refs| - 1]) + if last.PageRef? then [last] else []
  }

  ghost predicate Complete(d: Document, seen: seq<ChildRef>) {
    |ControlsIn(seen)| == |d.controls| && |PagesIn(seen)| == |d.pages|
  }

  datatype CollectionKind = ControlCollection | PageCollection

  /** What the form's Controls or a panel's Pages enumerate. */
  ghost function FormItems(d: Document, kind: CollectionKind, owner: ObjectId): Option<seq<ChildRef>> {
    match Walk(d, d.formChildren, [])
    case None => None
    case Some(seen) =>
      if !Complete(d, seen) then None
      else
        match kind
        case ControlCollection =>
          if d.formId != NULL_ID && owner == d.formId then Some(ControlsIn(seen)) else None
        case PageCollection =>
          match Resolve(d, ControlRef(owner))
          case None => None
          case Some(o) =>
            var pages := PagesIn(ChildrenOf(d, o));
            if d.controls[o.index].kind == Panel && pages != [] then Some(pages) else None
  }

  function Reversed<T>(s: seq<T>): (r: seq<T>)
    ensures |r| == |s| && forall i :: 0 <= i < |s| ==> r[i] == s[|s| - 1 - i]
  {
    seq(|s|, i requires 0 <= i < |s| => s[|s| - 1 - i])
  }

  lemma {:induction false} ReversedPop<T>(pending: seq<T>, kids: seq<T>)
    requires pending != []
    ensures Reversed(pending)[0] == pending[|pending| - 1]
    ensures Reversed(pending[..|pending| - 1] + Reversed(kids)) == kids + Reversed(pending)[1..]
  {
  }

  /** One step of the walk, as seen from the stack that holds the pending references reversed. */
  lemma {:induction false} WalkPop(d: Document, stack: seq<ChildRef>, seen: seq<ChildRef>)
    requires stack != []
    ensures !Admits(d, seen, stack[|stack| - 1]) ==> Walk(d, Reversed(stack), seen) == None
    ensures Admits(d, seen, stack[|stack| - 1]) ==>
              var kids := Kids(d, stack[|stack| - 1]);
              Walk(d, Reversed(stack), seen) ==
              Walk(d, Reversed(stack[..|stack| - 1] + Reversed(kids)), seen + [stack[|stack| - 1]])
  {
    hide NodeRefs, Resolve, IllegalChildren;
    if Admits(d, seen, stack[|stack| - 1]) {
      ReversedPop(stack, Kids(d, stack[|stack| - 1]));
    }
  }

  method FormItemRefs(d: Document, kind: CollectionKind, owner: ObjectId) returns (r: Option<seq<ChildRef>>)
    ensures r == FormItems(d, kind, owner)
  {
    hide NodeRefs, Resolve, IllegalChildren, Walk, ControlsIn, PagesIn;
    var panel := None;
    if kind == ControlCollection {
      if d.formId == NULL_ID || owner != d.formId { return None; }
    } else {
      panel := Resolve(d, ControlRef(owner));
      if panel.None? || d.controls[panel.value.index].kind != Panel { return None; }
    }
    var controls: seq<ChildRef>, complete := ListItems(d);
    if !complete { return None; }
    if kind == ControlCollection { return Some(controls); }
    var pages := PagesIn(ChildrenOf(d, panel.value));
    if pages == [] { return None; }
    return Some(pages);
  }

  lemma {:induction false} TallyEmpty()
    ensures ControlsIn([]) == [] && |PagesIn([])| == 0 && Elements<ChildRef>([]) == {}
  {
  }

  lemma {:induction false} WalkDone(d: Document, seen: seq<ChildRef>)
    ensures Walk(d, Reversed([]), seen) == Some(seen)
  {
  }

  lemma {:induction false} TallyStep(seen: seq<ChildRef>, r: ChildRef)
    ensures Elements(seen + [r]) == Elements(seen) + {r}
    ensures ControlsIn(seen + [r]) == if r.ControlRef? then ControlsIn(seen) + [r] else ControlsIn(seen)
    ensures |PagesIn(seen + [r])| == |PagesIn(seen)| + if r.PageRef? then 1 else 0
  {
    assert (seen + [r])[..|seen|] == seen;
  }

  /** The traversal itself: an explicit stack, a visited set and two tallies. */
  method ListItems(d: Document) returns (controls: seq<ChildRef>, complete: bool)
    ensures complete <==> Walk(d, d.formChildren, []).Some? && Complete(d, Walk(d, d.formChildren, []).value)
    ensures complete ==> controls == ControlsIn(Walk(d, d.formChildren, []).value)
  {
    hide NodeRefs, Resolve, IllegalChildren, Walk, ControlsIn, PagesIn, Reversed, ChildrenOf, IsOwner;
    var pending := Reversed(d.formChildren);
    var visited: set<ChildRef>, pageCount := {}, 0;
    controls := [];
    ghost var seen: seq<ChildRef> := [];
    assert Reversed(pending) == d.formChildren;
    assert ControlsIn(seen) == [] && |PagesIn(seen)| == 0 && Elements(seen) == {} by { TallyEmpty(); }
    while pending != []
      invariant Walk(d, d.formChildren, []) == Walk(d, Reversed(pending), seen)
      invariant visited == Elements(seen) && controls == ControlsIn(seen) && pageCount == |PagesIn(seen)|
      decreases |Elements(NodeRefs(d)) - Elements(seen)|
    {
      var child := pending[|pending| - 1];
      WalkPop(d, pending, seen);
      pending := pending[..|pending| - 1];
      var target := Resolve(d, child);
      if target.None? || child.id == NULL_ID || child in visited || IllegalChildren(d, target.value) {
        return [], false;
      }
      WalkProgress(d, seen, child);
      TallyStep(seen, child);
      visited := visited + {child};
      if child.ControlRef? { controls := controls + [child]; } else { pageCount := pageCount + 1; }
      pending := pending + Reversed(ChildrenOf(d, target.value));
      seen := seen + [child];
    }
    WalkDone(d, seen);
    complete := |controls| == |d.controls| && pageCount == |d.pages|;
  }

  // ---------- The walk is a preorder ----------

  datatype Tree = Node(root: ChildRef, kids: seq<Tree>)

  /** The forest that unfolds a list of references along the child lists. */
  ghost predicate Unfolds(d: Document, forest: seq<Tree>, refs: seq<ChildRef>) {
    |forest| == |refs| && forall i :: 0 <= i < |forest| ==> UnfoldsAt(d, forest[i], refs[i])
  }

  ghost predicate UnfoldsAt(d: Document, tree: Tree, r: ChildRef) {
    tree.root == r && Resolves(d, r) && Unfolds(d, tree.kids, Kids(d, r))
  }

  ghost function Preorder(forest: seq<Tree>): seq<ChildRef> {
    if forest == [] then []
    else [forest[0].root] + Preorder(forest[0].kids) + Preorder(forest[1..])
  }

  lemma {:induction false} PreorderUnfold(tree: Tree, rest: seq<Tree>)
    ensures Preorder([tree] + rest) == [tree.root] + Preorder(tree.kids) + Preorder(rest)
  {
    assert ([tree] + rest)[1..] == rest;
  }

  lemma {:induction false} ConcatAssociates<T>(a: seq<T>, b: seq<T>, c: seq<T>)
    ensures a + b + c == a + (b + c)
  {
  }

  lemma {:induction false} PreorderConcat(a: seq<Tree>, b: seq<Tree>)
    ensures Preorder(a + b) == Preorder(a) + Preorder(b)
  {
    if a == [] {
      assert a + b == b;
    } else {
      hide *;
      PreorderConcat(a[1..], b);
      assert a == [a[0]] + a[1..] && a + b == [a[0]] + (a[1..] + b);
      PreorderUnfold(a[0], a[1..]);
      PreorderUnfold(a[0], a[1..] + b);
      ConcatAssociates([a[0].root] + Preorder(a[0].kids), Preorder(a[1..]), Preorder(b));
    }
  }

  lemma {:induction false} UnfoldsSplit(d: Document, forest: seq<Tree>, a: seq<ChildRef>, b: seq<ChildRef>)
    requires Unfolds(d, forest, a + b)
    ensures |a| <= |forest| && Unfolds(d, forest[..|a|], a) && Unfolds(d, forest[|a|..], b)
  {
    hide UnfoldsAt;
    forall i | 0 <= i < |b| ensures UnfoldsAt(d, forest[|a|..][i], b[i]) {
      assert UnfoldsAt(d, forest[|a| + i], (a + b)[|a| + i]);
    }
    forall i | 0 <= i < |a| ensures UnfoldsAt(d, forest[..|a|][i], a[i]) {
      assert UnfoldsAt(d, forest[i], (a + b)[i]);
    }
  }

  lemma {:induction false} WalkEmpty(d: Document, seen: seq<ChildRef>)
    ensures Unfolds(d, [], []) && Walk(d, [], seen) == Some(seen + Preorder([]))
  {
    assert seen + [] == seen;
  }

  lemma {:induction false} TreeAt(d: Document, tree: Tree, c: ChildRef)
    requires tree.root == c && Resolves(d, c) && Unfolds(d, tree.kids, Kids(d, c))
    ensures UnfoldsAt(d, tree, c)
  {
  }

  lemma {:induction false} WalkUnfold(d: Document, pending: seq<ChildRef>, seen: seq<ChildRef>)
    requires Walk(d, pending, seen).Some? && pending != []
    ensures Admits(d, seen, pending[0]) && Resolves(d, pending[0])
    ensures Walk(d, pending, seen) == Walk(d, Kids(d, pending[0]) + pending[1..], seen + [pending[0]])
  {
    hide NodeRefs, Resolve, IllegalChildren;
  }

  lemma {:induction false} WalkIsPreorder(d: Document, pending: seq<ChildRef>, seen: seq<ChildRef>)
    returns (forest: seq<Tree>)
    requires Walk(d, pending, seen).Some?
    ensures Unfolds(d, forest, pending)
    ensures Walk(d, pending, seen) == Some(seen + Preorder(forest))
    decreases |Elements(NodeRefs(d)) - Elements(seen)|, |pending|
  {
    hide *;
    if pending == [] {
      forest := [];
      WalkEmpty(d, seen);
    } else {
      var c, rest := pending[0], pending[1..];
      WalkUnfold(d, pending, seen);
      WalkProgress(d, seen, c);
      var kids := Kids(d, c);
      var below := WalkIsPreorder(d, kids + rest, seen + [c]);
      UnfoldsSplit(d, below, kids, rest);
      var tree, after := Node(c, below[..|kids|]), below[|kids|..];
      assert tree.kids + after == below;
      forest := [tree] + after;
      TreeAt(d, tree, c);
      UnfoldsCons(d, tree, c, after, rest);
      PreorderCons(tree, after);
      ConcatAssociates(seen, [c], Preorder(below));
      assert [c] + rest == pending;
    }
  }

  lemma {:induction false} UnfoldsCons(d: Document, tree: Tree, c: ChildRef, after: seq<Tree>, rest: seq<ChildRef>)
    requires UnfoldsAt(d, tree, c) && Unfolds(d, after, rest)
    ensures Unfolds(d, [tree] + after, [c] + rest)
  {
    hide UnfoldsAt;
    forall i | 0 <= i < |[tree] + after| ensures UnfoldsAt(d, ([tree] + after)[i], ([c] + rest)[i]) {
      if i > 0 { assert UnfoldsAt(d, after[i - 1], rest[i - 1]); }
    }
  }

  lemma {:induction false} PreorderCons(tree: Tree, after: seq<Tree>)
    ensures Preorder([tree] + after) == [tree.root] + Preorder(tree.kids + after)
  {
    hide *;
    PreorderConcat(tree.kids, after);
    PreorderUnfold(tree, after);
    ConcatAssociates([tree.root], Preorder(tree.kids), Preorder(after));
  }

  // ---------- What the walk keeps ----------

  /** The form and the owners of the references met so far. */
  ghost function Visited(d: Document, seen: seq<ChildRef>): (os: seq<Owner>)
    ensures forall o :: o in os ==> IsOwner(d, o)
  {
    if seen == [] then [FormOwner]
    else
      Visited(d, seen[..|seen| - 1]) +
      match Resolve(d, seen[|seen| - 1]) case None => [] case Some(o) => [o]
  }

  lemma {:induction false} VisitedMembers(d: Document, seen: seq<ChildRef>, o: Owner)
    ensures o in Visited(d, seen) <==> o == FormOwner || exists r :: r in seen && Resolve(d, r) == Some(o)
  {
    hide Resolve, NodeRefs, IsOwner, Visited;
    if seen == [] {
      VisitedNone(d);
    } else {
      var front, last := seen[..|seen| - 1], seen[|seen| - 1];
      VisitedMembers(d, front, o);
      VisitedOne(d, front, last, o);
      MembersSnoc(front, last);
      assert seen == front + [last];
    }
  }

  lemma {:induction false} VisitedNone(d: Document)
    ensures Visited(d, []) == [FormOwner]
  {
  }

  lemma {:induction false} VisitedOne(d: Document, front: seq<ChildRef>, last: ChildRef, o: Owner)
    ensures o in Visited(d, front + [last]) <==> o in Visited(d, front) || Resolve(d, last) == Some(o)
  {
    hide Resolve;
    assert (front + [last])[..|front|] == front;
  }

  lemma {:induction false} MembersSnoc(front: seq<ChildRef>, last: ChildRef)
    ensures forall r :: r in front + [last] <==> r in front || r == last
  {
  }

  lemma {:induction false} VisitedDistinct(d: Document, seen: seq<ChildRef>)
    requires Distinct(seen)
    ensures Distinct(Visited(d, seen))
  {
    hide Resolve, NodeRefs;
    if seen != [] {
      var front, last := seen[..|seen| - 1], seen[|seen| - 1];
      VisitedDistinct(d, front);
      if Resolves(d, last) {
        VisitedMembers(d, front, Resolve(d, last).value);
      }
    }
  }

  ghost predicate Good(d: Document, r: ChildRef) {
    r.id != NULL_ID && Resolves(d, r) && !IllegalChildren(d, Resolve(d, r).value)
  }

  /** What is met or pending is exactly what the form and the objects met refer to. */
  ghost predicate Accounted(d: Document, pending: seq<ChildRef>, seen: seq<ChildRef>) {
    multiset(pending) + multiset(seen) == RefsIn(d, Visited(d, seen))
  }

  ghost predicate MetAfter(seen: seq<ChildRef>, i: nat, r: ChildRef) {
    i < |seen| && r in seen[i + 1..]
  }

  lemma {:induction false} MetAfterStep(seen: seq<ChildRef>, i: nat, r: ChildRef, c: ChildRef)
    requires i < |seen| && (MetAfter(seen, i, r) || r == c)
    ensures MetAfter(seen + [c], i, r)
  {
    assert (seen + [c])[i + 1..] == seen[i + 1..] + [c];
  }

  /** A child is met after its parent. */
  ghost predicate ChildrenFollow(d: Document, pending: seq<ChildRef>, seen: seq<ChildRef>) {
    forall i, r :: 0 <= i < |seen| && Edge(d, seen[i], r) ==> MetAfter(seen, i, r) || r in pending
  }

  ghost predicate Walked(d: Document, pending: seq<ChildRef>, seen: seq<ChildRef>) {
    && Distinct(seen)
    && (forall r :: r in seen ==> Good(d, r))
    && Accounted(d, pending, seen)
    && ChildrenFollow(d, pending, seen)
  }

  lemma {:induction false} WalkedStart(d: Document)
    ensures Walked(d, d.formChildren, [])
  {
    assert RefsIn(d, [FormOwner]) == RefsIn(d, [FormOwner][..0]) + multiset(d.formChildren);
  }

  lemma {:induction false} AccountedStep(d: Document, pending: seq<ChildRef>, seen: seq<ChildRef>)
    requires Accounted(d, pending, seen) && pending != [] && Resolves(d, pending[0])
    ensures Accounted(d, Kids(d, pending[0]) + pending[1..], seen + [pending[0]])
  {
    hide Resolve, NodeRefs, Visited, RefsIn, ChildrenOf, IsOwner;
    var c, rest := pending[0], pending[1..];
    assert pending == [c] + rest;
    VisitedSnoc(d, seen, c);
    RefsInSnoc(d, Visited(d, seen), Resolve(d, c).value);
  }

  lemma {:induction false} VisitedSnoc(d: Document, seen: seq<ChildRef>, c: ChildRef)
    requires Resolves(d, c)
    ensures Visited(d, seen + [c]) == Visited(d, seen) + [Resolve(d, c).value]
  {
    hide Resolve;
    assert (seen + [c])[..|seen|] == seen;
  }

  lemma {:induction false} ChildrenFollowStep(d: Document, pending: seq<ChildRef>, seen: seq<ChildRef>)
    requires ChildrenFollow(d, pending, seen) && pending != [] && Resolves(d, pending[0])
    ensures ChildrenFollow(d, Kids(d, pending[0]) + pending[1..], seen + [pending[0]])
  {
    hide Resolve, NodeRefs;
    var c, rest := pending[0], pending[1..];
    assert pending == [c] + rest;
    var kids := Kids(d, c);
    var seen', pending' := seen + [c], kids + rest;
    forall r | Edge(d, c, r) ensures r in kids { }
    forall i, r | 0 <= i < |seen'| && Edge(d, seen'[i], r) ensures MetAfter(seen', i, r) || r in pending' {
      hide Edge, Kids, MetAfter;
      if i < |seen| {
        assert Edge(d, seen[i], r);
        if MetAfter(seen, i, r) || r == c { MetAfterStep(seen, i, r, c); }
      }
    }
  }

  lemma {:induction false} WalkedStep(d: Document, pending: seq<ChildRef>, seen: seq<ChildRef>)
    requires Walked(d, pending, seen) && pending != [] && Admits(d, seen, pending[0])
    ensures Walked(d, Kids(d, pending[0]) + pending[1..], seen + [pending[0]])
  {
    hide Resolve, NodeRefs, IllegalChildren, Accounted, ChildrenFollow;
    assert Good(d, pending[0]);
    AccountedStep(d, pending, seen);
    ChildrenFollowStep(d, pending, seen);
  }

  lemma {:induction false} WalkKeeps(d: Document, pending: seq<ChildRef>, seen: seq<ChildRef>)
    requires Walked(d, pending, seen) && Walk(d, pending, seen).Some?
    ensures Walked(d, [], Walk(d, pending, seen).value)
    decreases |Elements(NodeRefs(d)) - Elements(seen)|, |pending|
  {
    if pending != [] {
      hide Walked, NodeRefs, Resolve, IllegalChildren;
      WalkedStep(d, pending, seen);
      WalkProgress(d, seen, pending[0]);
      WalkKeeps(d, Kids(d, pending[0]) + pending[1..], seen + [pending[0]]);
    }
  }

  // ---------- Both passes accept the same documents ----------

  /** Meeting as many distinct known references as there are objects means meeting each of them,
      and that no two objects share an ID. */
  lemma {:induction false} CoversAll(d: Document, seen: seq<ChildRef>)
    requires Distinct(seen) && Complete(d, seen)
    requires forall r :: r in seen ==> Resolves(d, r)
    ensures UniqueIds(d)
    ensures forall r :: r in NodeRefs(d) <==> r in seen
  {
    hide Resolve, NodeRefs, ControlsIn, PagesIn;
    var rs := NodeRefs(d);
    assert |PagesIn(seen)| + |ControlsIn(seen)| == |seen|;
    ElementsSize(seen);
    ElementsSize(rs);
    assert Elements(seen) <= Elements(rs);
    SubsetSize(Elements(seen), Elements(rs));
    forall r | r in rs ensures r in seen { assert r in Elements(rs); }
  }

  lemma {:induction false} TallyByCategory(d: Document, k: nat)
    requires k <= |NodeRefs(d)|
    ensures |ControlsIn(NodeRefs(d)[..k])| == if k <= |d.controls| then k else |d.controls|
  {
    hide NodeRefs, Owners;
    if k > 0 {
      TallyByCategory(d, k - 1);
      assert NodeRefs(d)[..k][..k - 1] == NodeRefs(d)[..k - 1];
      assert NodeRefs(d)[k - 1] == RefOf(d, Owners(d)[k]);
      if k <= |d.controls| {
        assert Owners(d)[1 + (k - 1)] == ControlOwner(k - 1);
      } else {
        assert Owners(d)[1 + |d.controls| + (k - 1 - |d.controls|)] == PageOwner(k - 1 - |d.controls|);
      }
    }
  }

  lemma {:induction false} FilterDistinct(refs: seq<ChildRef>)
    requires Distinct(refs)
    ensures Distinct(ControlsIn(refs))
  {
    if refs != [] {
      FilterDistinct(refs[..|refs| - 1]);
    }
  }

  lemma {:induction false} SoundTally(d: Document, seen: seq<ChildRef>)
    requires Distinct(seen) && UniqueIds(d)
    requires forall r :: r in seen <==> r in NodeRefs(d)
    ensures Complete(d, seen)
  {
    hide NodeRefs, ControlsIn, PagesIn;
    var rs := NodeRefs(d);
    FilterDistinct(seen);
    FilterDistinct(rs);
    ElementsSize(seen);
    ElementsSize(rs);
    ElementsSize(ControlsIn(seen));
    ElementsSize(ControlsIn(rs));
    assert Elements(seen) == Elements(rs);
    assert Elements(ControlsIn(seen)) == Elements(ControlsIn(rs));
    assert rs[..|rs|] == rs;
    TallyByCategory(d, |rs|);
    assert |PagesIn(seen)| + |ControlsIn(seen)| == |seen|;
  }

  /** Once every object was met, what the met objects refer to is what the whole document refers to. */
  lemma {:induction false} AllRefs(d: Document, seen: seq<ChildRef>)
    requires UniqueIds(d) && Distinct(seen)
    requires forall r :: r in seen <==> r in NodeRefs(d)
    ensures RefsIn(d, Visited(d, seen)) == RefsIn(d, Owners(d))
  {
    hide NodeRefs, Visited, Owners, Resolve, RefsIn;
    var os := Visited(d, seen);
    VisitedDistinct(d, seen);
    forall o | IsOwner(d, o) ensures o in os {
      VisitedMembers(d, seen, o);
      if o != FormOwner {
        ResolveUnique(d, o);
        assert RefOf(d, o) in seen;
      }
    }
    RefsInMonotone(d, os, Owners(d));
    RefsInMonotone(d, Owners(d), os);
  }

  lemma {:induction false} WalkedAcyclic(d: Document, seen: seq<ChildRef>)
    requires Walked(d, [], seen)
    requires forall r :: r in NodeRefs(d) <==> r in seen
    ensures !HasCycle(d)
  {
    hide NodeRefs, Accounted, Resolve, Edge, Good;
    var order := Reversed(seen);
    forall i, r | 0 <= i < |order| && Edge(d, order[i], r) ensures r in order[..i] {
      var k := |seen| - 1 - i;
      assert Edge(d, seen[k], r);
      assert MetAfter(seen, k, r);
      var m :| 0 <= m < |seen[k + 1..]| && seen[k + 1..][m] == r;
      assert order[..i][i - 1 - m] == r;
    }
    forall r | r in seen ensures r in order {
      var k :| 0 <= k < |seen| && seen[k] == r;
      assert order[|seen| - 1 - k] == r;
    }
    TopologicalAcyclic(d, order);
  }

  lemma {:induction false} AcceptedIsSound(d: Document, seen: seq<ChildRef>)
    requires d.formId != NULL_ID && Walked(d, [], seen) && Complete(d, seen)
    ensures Sound(d)
  {
    hide NodeRefs, Visited, Resolve, RefsIn, Owners, Complete, IllegalChildren, HasCycle, ChildrenOf;
    CoversAll(d, seen);
    AllRefs(d, seen);
    WalkedAcyclic(d, seen);
    assert RefsIn(d, Owners(d)) == multiset(seen);
    forall r ensures Occurrences(d, r) == if r in seen then 1 else 0 {
      DistinctCounts(seen, r);
    }
    forall o, r | Lists(d, o, r) ensures r in seen { OwnerRefs(d, Owners(d), o, r); }
    forall o | IsOwner(d, o) ensures !IllegalChildren(d, o) {
      if o == FormOwner {
        FormAcceptsAll(d);
      } else {
        ResolveUnique(d, o);
        assert Good(d, RefOf(d, o));
      }
    }
    MisplacedByKind(d);
    forall code ensures !Defect(d, code) {
      hide Occurrences, Walked, IsOwner, MisplacesByKind;
    }
  }

  lemma {:induction false} FormAcceptsAll(d: Document)
    ensures !IllegalChildren(d, FormOwner)
  {
  }

  lemma {:induction false} SoundAdmits(d: Document, pending: seq<ChildRef>, seen: seq<ChildRef>)
    requires Sound(d) && Walked(d, pending, seen) && pending != []
    ensures Admits(d, seen, pending[0])
  {
    hide NodeRefs, Visited, Resolve, RefsIn, Owners, IllegalChildren, HasCycle, ChildrenOf, Sound;
    SoundMeans(d);
    var c := pending[0];
    var os := Visited(d, seen);
    VisitedDistinct(d, seen);
    RefsInMonotone(d, os, Owners(d));
    assert pending == [c] + pending[1..];
    var o := SomeOwner(d, os, c);
    assert Lists(d, o, c);
    assert c in seen ==> Occurrences(d, c) >= 2;
  }

  lemma {:induction false} AdmitsResolves(d: Document, seen: seq<ChildRef>, r: ChildRef)
    requires Admits(d, seen, r)
    ensures Resolves(d, r)
  {
  }

  lemma {:induction false} SoundIsWalked(d: Document, pending: seq<ChildRef>, seen: seq<ChildRef>)
    requires Sound(d) && Walked(d, pending, seen)
    ensures Walk(d, pending, seen).Some?
    decreases |Elements(NodeRefs(d)) - Elements(seen)|, |pending|
  {
    hide NodeRefs, Walked, Sound, Admits;
    if pending != [] {
      SoundAdmits(d, pending, seen);
      AdmitsResolves(d, seen, pending[0]);
      WalkedStep(d, pending, seen);
      WalkProgress(d, seen, pending[0]);
      SoundIsWalked(d, Kids(d, pending[0]) + pending[1..], seen + [pending[0]]);
    }
  }

  /** What lists an object that was never met was itself never met. */
  lemma {:induction false} MissedParent(d: Document, seen: seq<ChildRef>, r: ChildRef)
    requires Sound(d) && Walked(d, [], seen) && r in NodeRefs(d) && r !in seen
    ensures exists q :: q in NodeRefs(d) && q !in seen && Edge(d, q, r)
  {
    hide NodeRefs, Visited, Resolve, RefsIn, Owners, IllegalChildren, HasCycle, ChildrenOf, Sound;
    SoundMeans(d);
    assert Occurrences(d, r) == 1;
    var o := SomeOwner(d, Owners(d), r);
    var os := Visited(d, seen);
    if o in os { OwnerRefs(d, os, o, r); }
    assert o !in os;
    VisitedMembers(d, seen, o);
    var q := RefOf(d, o);
    ResolveUnique(d, o);
    assert q !in seen;
    assert Edge(d, q, r);
  }

  lemma {:induction false} SoundIsComplete(d: Document, seen: seq<ChildRef>)
    requires Sound(d) && Walked(d, [], seen)
    ensures Complete(d, seen)
  {
    hide NodeRefs, Visited, RefsIn, HasCycle, Sound, Edge, Complete;
    SoundMeans(d);
    var u := set r | r in NodeRefs(d) && r !in seen;
    forall r | r in u ensures HasParentIn(d, u, r) {
      MissedParent(d, seen, r);
      var q :| q in NodeRefs(d) && q !in seen && Edge(d, q, r);
      assert q in u;
    }
    assert u == {} by {
      if u != {} { ParentsMakeCycle(d, u); }
    }
    forall r ensures r in seen <==> r in NodeRefs(d) {
      assert r !in u;
      if r in seen { assert Good(d, r); }
    }
    SoundTally(d, seen);
  }

  /** Listing the form's controls succeeds exactly on the documents without a structural defect. */
  lemma {:induction false} ControlsListedIffSound(d: Document)
    ensures FormItems(d, ControlCollection, d.formId).Some? <==> Sound(d)
  {
    hide Walk, Walked, Complete, Sound;
    WalkedStart(d);
    if Sound(d) {
      SoundMeans(d);
      SoundIsWalked(d, d.formChildren, []);
      WalkKeeps(d, d.formChildren, []);
      SoundIsComplete(d, Walk(d, d.formChildren, []).value);
    }
    if FormItems(d, ControlCollection, d.formId).Some? {
      WalkKeeps(d, d.formChildren, []);
      AcceptedIsSound(d, Walk(d, d.formChildren, []).value);
    }
  }

  /** The listing is the preorder of the form's tree, and names each control exactly once. */
  lemma {:induction false} ControlsListedInPreorder(d: Document) returns (forest: seq<Tree>)
    requires FormItems(d, ControlCollection, d.formId).Some?
    ensures Unfolds(d, forest, d.formChildren)
    ensures FormItems(d, ControlCollection, d.formId) == Some(ControlsIn(Preorder(forest)))
    ensures Distinct(FormItems(d, ControlCollection, d.formId).value)
    ensures forall r :: r in FormItems(d, ControlCollection, d.formId).value <==> r.ControlRef? && r in NodeRefs(d)
  {
    hide Walk, Complete, NodeRefs, Visited, RefsIn, Unfolds, Preorder, ControlsIn;
    forest := WalkIsPreorder(d, d.formChildren, []);
    var seen := Walk(d, d.formChildren, []).value;
    assert seen == Preorder(forest);
    WalkedStart(d);
    WalkKeeps(d, d.formChildren, []);
    FilterDistinct(seen);
    forall r | r in seen ensures Resolves(d, r) { assert Good(d, r); }
    CoversAll(d, seen);
  }

  /** The page references of a list, from the first on. */
  function OnlyPages(refs: seq<ChildRef>): seq<ChildRef> {
    if refs == [] then []
    else (match refs[0] case PageRef(_) => [refs[0]] case ControlRef(_) => []) + OnlyPages(refs[1..])
  }

  lemma {:induction false} OnlyPagesSnoc(front: seq<ChildRef>, last: ChildRef)
    ensures OnlyPages(front + [last]) == OnlyPages(front) + if last.PageRef? then [last] else []
  {
    if front == [] {
      assert front + [last] == [last] && [last][1..] == [];
    } else {
      var head := if front[0].PageRef? then [front[0]] else [];
      var tail := if last.PageRef? then [last] else [];
      assert (front + [last])[1..] == front[1..] + [last];
      OnlyPagesSnoc(front[1..], last);
      ConcatAssociates(head, OnlyPages(front[1..]), tail);
    }
  }

  lemma {:induction false} PagesInOnly(refs: seq<ChildRef>)
    ensures PagesIn(refs) == OnlyPages(refs)
  {
    if refs != [] {
      var front, last := refs[..|refs| - 1], refs[|refs| - 1];
      assert refs == front + [last];
      PagesInOnly(front);
      OnlyPagesSnoc(front, last);
    }
  }

  lemma {:induction false} OtherFormRefs(d: Document, f: ObjectId)
    ensures Owners(d.(formId := f)) == Owners(d) && NodeRefs(d.(formId := f)) == NodeRefs(d)
  {
    var d' := d.(formId := f);
    assert Owners(d') == Owners(d);
    hide Owners;
    forall i | 0 <= i < |NodeRefs(d)| ensures NodeRefs(d')[i] == NodeRefs(d)[i] { }
  }

  lemma {:induction false} OtherFormResolve(d: Document, f: ObjectId, r: ChildRef)
    ensures Resolve(d.(formId := f), r) == Resolve(d, r)
  {
    hide NodeRefs, Owners, IndexOf;
    OtherFormRefs(d, f);
  }

  lemma {:induction false} OtherFormChildren(d: Document, f: ObjectId, o: Owner)
    requires IsOwner(d, o)
    ensures IsOwner(d.(formId := f), o) && ChildrenOf(d.(formId := f), o) == ChildrenOf(d, o)
    ensures IllegalChildren(d.(formId := f), o) <==> IllegalChildren(d, o)
  {
  }

  /** Whatever the form's own ID, its tree resolves and walks alike. */
  lemma {:induction false} OtherFormId(d: Document, f: ObjectId, r: ChildRef)
    ensures Resolve(d.(formId := f), r) == Resolve(d, r)
    ensures forall seen :: Admits(d.(formId := f), seen, r) <==> Admits(d, seen, r)
    ensures Resolves(d, r) ==> Kids(d.(formId := f), r) == Kids(d, r)
  {
    hide Resolve, ChildrenOf, IllegalChildren, IsOwner;
    OtherFormResolve(d, f, r);
    if Resolves(d, r) { OtherFormChildren(d, f, Resolve(d, r).value); }
  }

  lemma {:induction false} OtherFormWalk(d: Document, f: ObjectId, pending: seq<ChildRef>, seen: seq<ChildRef>)
    ensures Walk(d.(formId := f), pending, seen) == Walk(d, pending, seen)
    decreases |Elements(NodeRefs(d)) - Elements(seen)|, |pending|
  {
    hide NodeRefs, Resolve, IllegalChildren, Admits, Kids;
    OtherFormRefs(d, f);
    if pending != [] {
      OtherFormId(d, f, pending[0]);
      if Admits(d, seen, pending[0]) {
        AdmitsResolves(d, seen, pending[0]);
        WalkProgress(d, seen, pending[0]);
        OtherFormWalk(d, f, Kids(d, pending[0]) + pending[1..], seen + [pending[0]]);
      }
    }
  }

  /** A panel's Pages are listed exactly for a control that is a panel with a page, on a document that is sound if the
      form's own ID is not looked at: they are its page references in their order. */
  lemma {:induction false} PagesListedIff(d: Document, owner: ObjectId, pages: seq<ChildRef>)
    ensures FormItems(d, PageCollection, owner) == Some(pages) <==>
            && Sound(d.(formId := 1)) && pages != []
            && exists i :: 0 <= i < |d.controls| && d.controls[i].id == owner && d.controls[i].kind == Panel &&
                           pages == OnlyPages(d.controls[i].children)
  {
    hide FormItems, Walk, Complete, Sound, NodeRefs, OnlyPages, PagesIn, Resolve, UniqueIds, HasCycle, Resolves;
    PagesListed(d, owner, pages);
    SoundAlike(d, owner);
    var o := Resolve(d, ControlRef(owner));
    if o.Some? { PagesInOnly(ChildrenOf(d, o.value)); }
  }

  /** The control behind the ID, if the document is sound. */
  lemma {:induction false} SoundAlike(d: Document, owner: ObjectId)
    ensures Sound(d.(formId := 1)) <==>
            Walk(d, d.formChildren, []).Some? && Complete(d, Walk(d, d.formChildren, []).value)
    ensures Sound(d.(formId := 1)) ==>
              forall i :: 0 <= i < |d.controls| && d.controls[i].id == owner ==>
                Resolve(d, ControlRef(owner)) == Some(ControlOwner(i))
  {
    hide Walk, Complete, Sound, NodeRefs, Resolve, UniqueIds, HasCycle;
    var d' := d.(formId := 1);
    CompleteWalk(d');
    OtherFormWalk(d, 1, d.formChildren, []);
    if Walk(d, d.formChildren, []).Some? { CompleteAlike(d, 1, Walk(d, d.formChildren, []).value); }
    OtherFormResolve(d, 1, ControlRef(owner));
    if Sound(d') {
      SoundMeans(d');
      forall i | 0 <= i < |d.controls| && d.controls[i].id == owner
        ensures Resolve(d, ControlRef(owner)) == Some(ControlOwner(i))
      {
        ResolveUnique(d', ControlOwner(i));
      }
    }
  }

  lemma {:induction false} PagesListed(d: Document, owner: ObjectId, pages: seq<ChildRef>)
    ensures FormItems(d, PageCollection, owner) == Some(pages) <==>
            && Walk(d, d.formChildren, []).Some? && Complete(d, Walk(d, d.formChildren, []).value)
            && Resolve(d, ControlRef(owner)).Some?
            && var o := Resolve(d, ControlRef(owner)).value;
               pages != [] && pages == PagesIn(ChildrenOf(d, o)) && d.controls[o.index].kind == Panel
    ensures Resolve(d, ControlRef(owner)).Some? ==>
              var o := Resolve(d, ControlRef(owner)).value;
              o.ControlOwner? && o.index < |d.controls| && d.controls[o.index].id == owner &&
              ChildrenOf(d, o) == d.controls[o.index].children
  {
    hide Walk, Complete, NodeRefs, PagesIn, ControlsIn, Resolve;
  }

  lemma {:induction false} CompleteAlike(d: Document, f: ObjectId, seen: seq<ChildRef>)
    ensures Complete(d.(formId := f), seen) <==> Complete(d, seen)
  {
  }

  /** A form without an ID of its own lists no controls, but it lists the pages of its panels. */
  lemma {:induction false} NamelessFormPages() returns (d: Document)
    ensures d.formId == NULL_ID && FormItems(d, PageCollection, 2) == Some([PageRef(3)])
    ensures FormItems(d, ControlCollection, NULL_ID) == None
  {
    d := Document(NULL_ID, [ControlRef(2)], [Control(2, Panel, None, [PageRef(3)])], [Page(3, [])]);
    hide FormItems, Walk, Resolve, NodeRefs, Complete;
    NamelessRefs(d);
    NamelessWalk(d);
    NamelessComplete(d);
    PagesListed(d, 2, [PageRef(3)]);
    assert [PageRef(3)][..0] == [] && PagesIn([PageRef(3)]) == [PageRef(3)];
    ControlsOfForm(d, NULL_ID);
    NamelessUnsound(d);
  }

  lemma {:induction false} NamelessUnsound(d: Document)
    requires d.formId == NULL_ID
    ensures !Sound(d)
  {
    assert Defect(d, InvalidId);
  }

  lemma {:induction false} NamelessComplete(d: Document)
    requires |d.controls| == 1 && |d.pages| == 1
    ensures Complete(d, [ControlRef(2), PageRef(3)])
  {
    var c, p := ControlRef(2), PageRef(3);
    assert [c, p][..1] == [c] && [c][..0] == [];
  }

  lemma {:induction false} NamelessRefs(d: Document)
    requires d.controls == [Control(2, Panel, None, [PageRef(3)])] && d.pages == [Page(3, [])]
    ensures Resolve(d, ControlRef(2)) == Some(ControlOwner(0)) && Resolve(d, PageRef(3)) == Some(PageOwner(0))
  {
    hide Resolve;
    assert Owners(d)[1] == ControlOwner(0) && Owners(d)[2] == PageOwner(0);
    assert NodeRefs(d)[0] == ControlRef(2) && NodeRefs(d)[1] == PageRef(3);
    hide NodeRefs, Owners;
    ResolveUnique(d, ControlOwner(0));
    ResolveUnique(d, PageOwner(0));
  }

  lemma {:induction false} NamelessWalk(d: Document)
    requires var c, p := ControlRef(2), PageRef(3);
             Resolve(d, c) == Some(ControlOwner(0)) && Resolve(d, p) == Some(PageOwner(0))
    requires d.formChildren == [ControlRef(2)] && d.controls == [Control(2, Panel, None, [PageRef(3)])]
    requires d.pages == [Page(3, [])]
    ensures Walk(d, d.formChildren, []) == Some([ControlRef(2), PageRef(3)])
  {
    hide Resolve, NodeRefs;
    var c, p := ControlRef(2), PageRef(3);
    assert Kids(d, p) + [p][1..] == [] && [c] + [p] == [c, p];
    assert Walk(d, [p], [c]) == Walk(d, [], [c, p]);
    assert Kids(d, c) + [c][1..] == [p] && [] + [c] == [c];
    assert Walk(d, [c], []) == Walk(d, [p], [c]);
  }

  lemma {:induction false} CompleteWalk(d: Document)
    ensures Sound(d) <==>
            d.formId != NULL_ID && Walk(d, d.formChildren, []).Some? && Complete(d, Walk(d, d.formChildren, []).value)
  {
    hide Walk, Complete, Sound, ControlsIn;
    ControlsListedIffSound(d);
    if Sound(d) { SoundMeans(d); }
  }

  /** The form's Controls are listed for the form alone. */
  lemma {:induction false} ControlsOfForm(d: Document, owner: ObjectId)
    ensures FormItems(d, ControlCollection, owner).Some? <==> Sound(d) && owner == d.formId
  {
    hide Walk, Complete, Sound, ControlsIn;
    CompleteWalk(d);
  }
}
