/** The structural part of validation: the passes that record IDs, child references, parents and
    orphans, and the depth-first search for cycles. A report holds a code exactly when the form has
    the defect. */
module FormValidation {
  import opened FormGraph
  import opened FormModel
  import opened Sequences

  datatype Violation = Violation(code: InvariantCode, source: ObjectId, target: ObjectId)

  ghost predicate Reports(report: seq<Violation>, code: InvariantCode) {
    exists i :: 0 <= i < |report| && report[i].code == code
  }

  lemma {:induction false} ReportsAppend(report: seq<Violation>, v: Violation)
    ensures forall code :: Reports(report + [v], code) <==> Reports(report, code) || code == v.code
  {
    var longer := report + [v];
    assert longer[|report|] == v;
    forall code | Reports(report, code) ensures Reports(longer, code) {
      var i :| 0 <= i < |report| && report[i].code == code;
      assert longer[i].code == code;
    }
  }

  // ---------- What a violation names ----------

  /** The ID a violation gives for the owner of a list. */
  function IdAt(d: Document, o: Owner): ObjectId
    requires IsOwner(d, o)
  {
    if o == FormOwner then d.formId else RefOf(d, o).id
  }

  /** A violation says of which object it speaks: the owner and its child, the form and an object nobody lists,
      or two ends of an edge on a cycle. */
  ghost predicate Names(d: Document, v: Violation) {
    match v.code
    case InvalidId => v.source == v.target == 0 && (d.formId == 0 || exists r :: r in NodeRefs(d) && r.id == 0)
    case DuplicateId =>
      v.source == v.target && exists i, j :: 0 <= i < j < |NodeRefs(d)| && NodeRefs(d)[i] == NodeRefs(d)[j] &&
                                             NodeRefs(d)[j].id == v.source
    case DanglingReference =>
      exists o, r :: Lists(d, o, r) && !Resolves(d, r) && v.source == IdAt(d, o) && v.target == r.id
    case IllegalChild =>
      exists o, r :: Lists(d, o, r) && MisplacedChild(d, o, r) && v.source == IdAt(d, o) && v.target == r.id
    case MultipleParents =>
      exists o, r :: Lists(d, o, r) && Resolves(d, r) && Occurrences(d, r) > 1 && v.source == IdAt(d, o) && v.target == r.id
    case Orphan => v.source == d.formId && exists r :: r in NodeRefs(d) && Occurrences(d, r) == 0 && r.id == v.target
    case Cycle =>
      exists p: seq<ChildRef> :: IsCycle(d, p) && p[|p| - 2].id == v.source && p[|p| - 1].id == v.target
  }

  /** The children that do not belong to an owner: the first of a leaf, and every page of a usual group or a page. */
  ghost predicate MisplacedChild(d: Document, o: Owner, r: ChildRef) {
    match o
    case FormOwner => false
    case ControlOwner(i) =>
      i < |d.controls| &&
      (match d.controls[i].kind
       case LeafKind => d.controls[i].children != [] && r == d.controls[i].children[0]
       case UsualGroup => r.PageRef?
       case Panel => false)
    case PageOwner(i) => r.PageRef?
  }

  // ---------- IDs ----------

  ghost predicate IdNames(form: ObjectId, refs: seq<ChildRef>, v: Violation) {
    || (v == Violation(InvalidId, 0, 0) && (form == 0 || HasNull(refs)))
    || (v.code == DuplicateId && v.source == v.target &&
        exists i, j :: 0 <= i < j < |refs| && refs[i] == refs[j] && refs[j].id == v.source)
  }

  lemma {:induction false} IdNamesStep(form: ObjectId, refs: seq<ChildRef>, i: nat, v: Violation)
    requires i < |refs|
    ensures IdNames(form, refs[..i + 1], v) <==>
            IdNames(form, refs[..i], v) || (refs[i].id == 0 && v == Violation(InvalidId, 0, 0)) ||
            (refs[i] in refs[..i] && v == Violation(DuplicateId, refs[i].id, refs[i].id))
  {
    hide HasNull;
    PrefixFacts(refs, i);
    var longer := refs[..i + 1];
    assert longer == refs[..i] + [refs[i]];
    if j, k :| 0 <= j < k < |longer| && longer[j] == longer[k] && longer[k].id == v.source {
      assert k < i ==> refs[..i][j] == refs[..i][k];
    }
    if j, k :| 0 <= j < k < i && refs[..i][j] == refs[..i][k] && refs[..i][k].id == v.source {
      assert longer[j] == longer[k];
    }
    if refs[i] in refs[..i] {
      var j :| 0 <= j < i && refs[..i][j] == refs[i];
      assert longer[j] == longer[i];
    }
  }

  lemma {:induction false} InAppend(report: seq<Violation>, v: Violation)
    ensures forall w :: w in report + [v] <==> w in report || w == v
  {
  }

  lemma {:induction false} PrefixMembers(refs: seq<ChildRef>, i: nat)
    requires i < |refs|
    ensures refs[i] in Elements(refs[..i]) <==> refs[i] in refs[..i]
  {
  }

  /** The violations that the i-th object adds. */
  lemma {:induction false} IdNamesNow(form: ObjectId, refs: seq<ChildRef>, i: nat, before: seq<Violation>,
                                      report: seq<Violation>)
    requires i < |refs| && forall v :: v in before <==> IdNames(form, refs[..i], v)
    requires forall v :: v in report <==>
                         v in before || (refs[i].id == NULL_ID && v == Violation(InvalidId, refs[i].id, refs[i].id)) ||
                         (refs[i] in refs[..i] && v == Violation(DuplicateId, refs[i].id, refs[i].id))
    ensures forall v :: v in report <==> IdNames(form, refs[..i + 1], v)
  {
    hide IdNames;
    forall v ensures v in report <==> IdNames(form, refs[..i + 1], v) { IdNamesStep(form, refs, i, v); }
  }

  lemma {:induction false} IdNamesNone(form: ObjectId)
    ensures forall v :: IdNames(form, [], v) <==> form == 0 && v == Violation(InvalidId, 0, 0)
  {
  }

  method CheckIds(d: Document) returns (report: seq<Violation>)
    ensures forall code :: Reports(report, code) <==> (code == InvalidId || code == DuplicateId) && Defect(d, code)
    ensures forall v :: v in report <==> IdNames(d.formId, NodeRefs(d), v)
  {
    hide NodeRefs, Reports, HasNull, Distinct, Elements, IdNames, Defect;
    IdNamesNone(d.formId);
    report := [];
    assert forall code :: !Reports(report, code) by { EmptyReport(); }
    if d.formId == NULL_ID {
      ReportsAppend(report, Violation(InvalidId, d.formId, d.formId));
      report := report + [Violation(InvalidId, d.formId, d.formId)];
    }
    var refs, seen: set<ChildRef> := NodeRefs(d), {};
    PrefixFacts(refs, 0);
    for i := 0 to |refs|
      invariant seen == Elements(refs[..i])
      invariant Reports(report, InvalidId) <==> d.formId == NULL_ID || HasNull(refs[..i])
      invariant Reports(report, DuplicateId) <==> !Distinct(refs[..i])
      invariant forall code :: Reports(report, code) ==> code == InvalidId || code == DuplicateId
      invariant forall v :: v in report <==> IdNames(d.formId, refs[..i], v)
    {
      var r := refs[i];
      ghost var before := report;
      PrefixMembers(refs, i);
      PrefixFacts(refs, i);
      DistinctPrefix(refs, i);
      InAppend(report, Violation(InvalidId, r.id, r.id));
      if r.id == NULL_ID {
        ReportsAppend(report, Violation(InvalidId, r.id, r.id));
        report := report + [Violation(InvalidId, r.id, r.id)];
      }
      InAppend(report, Violation(DuplicateId, r.id, r.id));
      if r in seen {
        ReportsAppend(report, Violation(DuplicateId, r.id, r.id));
        report := report + [Violation(DuplicateId, r.id, r.id)];
      }
      seen := seen + {r};
      IdNamesNow(d.formId, refs, i, before, report);
    }
    assert refs[..|refs|] == refs;
    IdDefects(d);
  }

  ghost predicate HasNull(refs: seq<ChildRef>) {
    exists r :: r in refs && r.id == NULL_ID
  }

  lemma {:induction false} IdDefects(d: Document)
    ensures Defect(d, InvalidId) <==> d.formId == NULL_ID || HasNull(NodeRefs(d))
    ensures Defect(d, DuplicateId) <==> !Distinct(NodeRefs(d))
  {
  }

  lemma {:induction false} PrefixFacts(refs: seq<ChildRef>, i: nat)
    requires i <= |refs|
    ensures i == 0 ==> Elements(refs[..i]) == {} && !HasNull(refs[..i]) && Distinct(refs[..i])
    ensures i < |refs| ==> Elements(refs[..i + 1]) == Elements(refs[..i]) + {refs[i]}
    ensures forall r :: r in Elements(refs[..i]) <==> r in refs[..i]
    ensures i < |refs| ==> (HasNull(refs[..i + 1]) <==> HasNull(refs[..i]) || refs[i].id == NULL_ID)
  {
    if i < |refs| {
      assert refs[..i + 1] == refs[..i] + [refs[i]];
      assert forall r :: r in refs[..i + 1] <==> r in refs[..i] || r == refs[i];
    }
  }

  lemma {:induction false} EmptyReport()
    ensures forall code :: !Reports([], code)
  {
  }

  lemma {:induction false} DistinctPrefix<T>(s: seq<T>, i: nat)
    requires i < |s|
    ensures s[..i + 1] == s[..i] + [s[i]]
    ensures Distinct(s[..i + 1]) <==> Distinct(s[..i]) && s[i] !in s[..i]
  {
    var longer := s[..i + 1];
    if Distinct(longer) {
      assert forall j, k :: 0 <= j < k < i ==> s[..i][j] == longer[j] && s[..i][k] == longer[k];
    } else if s[i] !in s[..i] {
      var j, k :| 0 <= j < k < |longer| && longer[j] == longer[k];
      assert s[..i][j] == longer[j];
      assert k < i;
      assert s[..i][k] == longer[k];
    }
  }

  // ---------- Child references ----------

  /** How often each existing child was referred to so far. */
  ghost predicate Tallies(d: Document, counts: map<ChildRef, nat>, m: multiset<ChildRef>) {
    && (forall r :: r in counts <==> Resolves(d, r) && m[r] > 0)
    && (forall r :: r in counts ==> counts[r] == m[r])
  }

  lemma {:induction false} TalliesStep(d: Document, counts: map<ChildRef, nat>, m: multiset<ChildRef>, r: ChildRef)
    requires Tallies(d, counts, m)
    ensures !Resolves(d, r) ==> Tallies(d, counts, m + multiset{r})
    ensures Resolves(d, r) ==> Tallies(d, counts[r := (if r in counts then counts[r] else 0) + 1], m + multiset{r})
  {
    hide Resolve;
  }

  ghost predicate Repeats(counts: map<ChildRef, nat>) {
    exists r :: r in counts && counts[r] > 1
  }

  ghost predicate HasDangling(d: Document, refs: seq<ChildRef>) {
    exists r :: r in refs && !Resolves(d, r)
  }

  ghost predicate HasPage(refs: seq<ChildRef>) {
    exists r :: r in refs && r.PageRef?
  }

  ghost predicate ChildReport(d: Document, before: seq<Violation>, report: seq<Violation>, refs: seq<ChildRef>,
                              pagesAllowed: bool, counts: map<ChildRef, nat>) {
    && (Reports(report, DanglingReference) <==> Reports(before, DanglingReference) || HasDangling(d, refs))
    && (Reports(report, IllegalChild) <==> Reports(before, IllegalChild) || (!pagesAllowed && HasPage(refs)))
    && (Reports(report, MultipleParents) <==> Repeats(counts))
    && (forall code :: code != DanglingReference && code != IllegalChild && code != MultipleParents ==>
          (Reports(report, code) <==> Reports(before, code)))
  }

  /** What one child of an owner gives rise to. */
  ghost predicate ChildNames(d: Document, source: ObjectId, child: ChildRef, misplaced: bool, again: bool, v: Violation) {
    && v.source == source && v.target == child.id
    && match v.code
       case DanglingReference => !Resolves(d, child)
       case IllegalChild => misplaced
       case MultipleParents => Resolves(d, child) && again
       case _ => false
  }

  /** One child of an owner: it must resolve, may have to be a control, and gains a parent. */
  method CheckChild(d: Document, source: ObjectId, child: ChildRef, pagesAllowed: bool, before: seq<Violation>,
                    counts: map<ChildRef, nat>)
    returns (report: seq<Violation>, counts': map<ChildRef, nat>)
    requires Reports(before, MultipleParents) <==> Repeats(counts)
    ensures ChildReport(d, before, report, [child], pagesAllowed, counts')
    ensures forall v :: v in report <==>
                        v in before ||
                        ChildNames(d, source, child, !pagesAllowed && child.PageRef?, child in counts' && counts'[child] > 1, v)
    ensures counts' == if Resolves(d, child) then counts[child := (if child in counts then counts[child] else 0) + 1] else counts
  {
    hide Reports, Resolves, Repeats, HasDangling, HasPage;
    report, counts' := before, counts;
    SingleChild(d, child);
    if !Resolves(d, child) {
      ReportsAppend(report, Violation(DanglingReference, source, child.id));
      report := report + [Violation(DanglingReference, source, child.id)];
    }
    if !pagesAllowed && child.PageRef? {
      ReportsAppend(report, Violation(IllegalChild, source, child.id));
      report := report + [Violation(IllegalChild, source, child.id)];
    }
    if Resolves(d, child) {
      var count := (if child in counts then counts[child] else 0) + 1;
      counts' := counts[child := count];
      RepeatsStep(counts, child, count);
      if count > 1 {
        ReportsAppend(report, Violation(MultipleParents, source, child.id));
        report := report + [Violation(MultipleParents, source, child.id)];
      }
    }
  }

  lemma {:induction false} SingleChild(d: Document, r: ChildRef)
    ensures HasDangling(d, [r]) <==> !Resolves(d, r)
    ensures HasPage([r]) <==> r.PageRef?
  {
    hide Resolve;
    assert r in [r];
  }

  lemma {:induction false} RepeatsStep(counts: map<ChildRef, nat>, r: ChildRef, count: nat)
    requires r in counts ==> counts[r] < count
    ensures Repeats(counts[r := count]) <==> Repeats(counts) || count > 1
  {
    var counts' := counts[r := count];
    if Repeats(counts) {
      var q :| q in counts && counts[q] > 1;
      assert counts'[q] > 1;
    }
    if count > 1 { assert counts'[r] > 1; }
  }

  lemma {:induction false} ChildReportStep(d: Document, before: seq<Violation>, mid: seq<Violation>,
                                           after: seq<Violation>, refs: seq<ChildRef>, r: ChildRef, pagesAllowed: bool,
                                           counts: map<ChildRef, nat>, counts': map<ChildRef, nat>)
    requires ChildReport(d, before, mid, refs, pagesAllowed, counts)
    requires ChildReport(d, mid, after, [r], pagesAllowed, counts')
    ensures ChildReport(d, before, after, refs + [r], pagesAllowed, counts')
  {
    hide Reports, Resolve, Repeats;
    assert HasDangling(d, refs + [r]) <==> HasDangling(d, refs) || HasDangling(d, [r]) by {
      if HasDangling(d, refs) { var q :| q in refs && !Resolves(d, q); assert q in refs + [r]; }
      if HasDangling(d, [r]) { assert r in refs + [r]; }
    }
    assert HasPage(refs + [r]) <==> HasPage(refs) || HasPage([r]) by {
      if HasPage(refs) { var q :| q in refs && q.PageRef?; assert q in refs + [r]; }
      if HasPage([r]) { assert r in refs + [r]; }
    }
  }

  method CheckChildren(d: Document, o: Owner, before: seq<Violation>, counts: map<ChildRef, nat>,
                       ghost m: multiset<ChildRef>)
    returns (report: seq<Violation>, counts': map<ChildRef, nat>)
    requires IsOwner(d, o) && Tallies(d, counts, m)
    requires Reports(before, MultipleParents) <==> Repeats(counts)
    ensures Tallies(d, counts', m + multiset(ChildrenOf(d, o)))
    ensures Reports(report, DanglingReference) <==> Reports(before, DanglingReference) || HasDangling(d, ChildrenOf(d, o))
    ensures Reports(report, IllegalChild) <==> Reports(before, IllegalChild) || IllegalChildren(d, o)
    ensures Reports(report, MultipleParents) <==> Repeats(counts')
    ensures forall code :: code != DanglingReference && code != IllegalChild && code != MultipleParents ==>
              (Reports(report, code) <==> Reports(before, code))
    ensures forall v :: v in report <==> v in before || OwnerNames(d, o, m, |ChildrenOf(d, o)|, v)
  {
    hide Reports, Resolve, Resolves, Tallies, Repeats, HasDangling, HasPage, ChildReport, OwnerNames, ChildNames, IdAt,
      LeafNames;
    LeafNamesMean(d, o);
    report, counts' := before, counts;
    var children, source := ChildrenOf(d, o), IdAt(d, o);
    OwnerNamesNone(d, o, m);
    var policy := PolicyAt(d, o);
    if policy == Forbidden && children != [] {
      ReportsAppend(report, Violation(IllegalChild, source, children[0].id));
      report := report + [Violation(IllegalChild, source, children[0].id)];
    }
    ghost var start := report;
    assert m + multiset(children[..0]) == m;
    EmptyChildReport(d, start, policy != OrderedControls, counts);
    for i := 0 to |children|
      invariant Tallies(d, counts', m + multiset(children[..i]))
      invariant ChildReport(d, start, report, children[..i], policy != OrderedControls, counts')
      invariant forall v :: v in report <==>
                            v in before || OwnerNames(d, o, m, i, v) || LeafNames(d, o, v)
    {
      ghost var mid, midCounts := report, counts';
      TalliesStep(d, counts', m + multiset(children[..i]), children[i]);
      assert children[..i + 1] == children[..i] + [children[i]];
      assert m + multiset(children[..i]) + multiset{children[i]} == m + multiset(children[..i + 1]);
      ChildReportMultiple(d, start, report, children[..i], policy != OrderedControls, counts');
      report, counts' := CheckChild(d, source, children[i], policy != OrderedControls, report, counts');
      OwnerNamesStep(d, o, m, i, counts');
      ChildReportStep(d, start, mid, report, children[..i], children[i], policy != OrderedControls, midCounts, counts');
    }
    assert children[..|children|] == children;
    ChildReportMeans(d, start, report, children, policy != OrderedControls, counts');
    PolicyMeans(d, o);
    OwnerNamesEnd(d, o, m);
  }

  /** What the first n children of an owner give rise to, after others that are counted in m. A leaf's first child
      is named when there is one. */
  ghost predicate OwnerNames(d: Document, o: Owner, m: multiset<ChildRef>, n: nat, v: Violation)
    requires IsOwner(d, o)
  {
    exists k :: 0 <= k < n && k < |ChildrenOf(d, o)| && NamesAt(d, o, m, k, v)
  }

  ghost predicate NamesAt(d: Document, o: Owner, m: multiset<ChildRef>, k: nat, v: Violation)
    requires IsOwner(d, o) && k < |ChildrenOf(d, o)|
  {
    var children := ChildrenOf(d, o);
    ChildNames(d, IdAt(d, o), children[k],
               (PolicyAt(d, o) == OrderedControls && children[k].PageRef?) || (PolicyAt(d, o) == Forbidden && k == 0),
               (m + multiset(children[..k + 1]))[children[k]] > 1, v)
  }

  lemma {:induction false} OwnerNamesNone(d: Document, o: Owner, m: multiset<ChildRef>)
    requires IsOwner(d, o)
    ensures forall v :: !OwnerNames(d, o, m, 0, v)
  {
  }

  /** The first child of a leaf, which is named before the children are looked at one by one. */
  ghost predicate LeafNames(d: Document, o: Owner, v: Violation)
    requires IsOwner(d, o)
  {
    PolicyAt(d, o) == Forbidden && ChildrenOf(d, o) != [] && v == Violation(IllegalChild, IdAt(d, o), ChildrenOf(d, o)[0].id)
  }

  lemma {:induction false} OwnerNamesStep(d: Document, o: Owner, m: multiset<ChildRef>, i: nat, counts: map<ChildRef, nat>)
    requires IsOwner(d, o) && i < |ChildrenOf(d, o)|
    requires Tallies(d, counts, m + multiset(ChildrenOf(d, o)[..i + 1]))
    ensures var child := ChildrenOf(d, o)[i];
            forall v :: OwnerNames(d, o, m, i + 1, v) || LeafNames(d, o, v) <==>
                        OwnerNames(d, o, m, i, v) || LeafNames(d, o, v) ||
                        ChildNames(d, IdAt(d, o), child, PolicyAt(d, o) == OrderedControls && child.PageRef?,
                                   child in counts && counts[child] > 1, v)
  {
    hide OwnerNames, ChildNames, LeafNames, Tallies, ChildrenOf, PolicyAt, IdAt, IsOwner;
    var child := ChildrenOf(d, o)[i];
    forall v
      ensures OwnerNames(d, o, m, i + 1, v) || LeafNames(d, o, v) <==>
              OwnerNames(d, o, m, i, v) || LeafNames(d, o, v) ||
              ChildNames(d, IdAt(d, o), child, PolicyAt(d, o) == OrderedControls && child.PageRef?,
                         child in counts && counts[child] > 1, v)
    {
      OwnerNamesSplit(d, o, m, i, v);
      NamesAtMeans(d, o, m, i, counts, v);
    }
  }

  lemma {:induction false} NamesAtMeans(d: Document, o: Owner, m: multiset<ChildRef>, i: nat, counts: map<ChildRef, nat>,
                                        v: Violation)
    requires IsOwner(d, o) && i < |ChildrenOf(d, o)|
    requires Tallies(d, counts, m + multiset(ChildrenOf(d, o)[..i + 1]))
    ensures var child := ChildrenOf(d, o)[i];
            NamesAt(d, o, m, i, v) || LeafNames(d, o, v) <==>
            LeafNames(d, o, v) ||
            ChildNames(d, IdAt(d, o), child, PolicyAt(d, o) == OrderedControls && child.PageRef?,
                       child in counts && counts[child] > 1, v)
  {
    hide Resolve, ChildrenOf, PolicyAt, IdAt, IsOwner;
  }

  lemma {:induction false} OwnerNamesSplit(d: Document, o: Owner, m: multiset<ChildRef>, i: nat, v: Violation)
    requires IsOwner(d, o) && i < |ChildrenOf(d, o)|
    ensures OwnerNames(d, o, m, i + 1, v) <==> OwnerNames(d, o, m, i, v) || NamesAt(d, o, m, i, v)
  {
    hide NamesAt, ChildrenOf, IsOwner;
    if OwnerNames(d, o, m, i + 1, v) {
      var k :| 0 <= k < i + 1 && k < |ChildrenOf(d, o)| && NamesAt(d, o, m, k, v);
      assert k == i || k < i;
    }
  }

  lemma {:induction false} OwnerNamesEnd(d: Document, o: Owner, m: multiset<ChildRef>)
    requires IsOwner(d, o)
    ensures PolicyAt(d, o) == Forbidden && ChildrenOf(d, o) != [] ==>
              OwnerNames(d, o, m, |ChildrenOf(d, o)|, Violation(IllegalChild, IdAt(d, o), ChildrenOf(d, o)[0].id))
  {
    hide ChildrenOf, PolicyAt, IdAt, IsOwner;
    if PolicyAt(d, o) == Forbidden && ChildrenOf(d, o) != [] {
      assert NamesAt(d, o, m, 0, Violation(IllegalChild, IdAt(d, o), ChildrenOf(d, o)[0].id));
    }
  }

  lemma {:induction false} LeafNamesMean(d: Document, o: Owner)
    requires IsOwner(d, o)
    ensures forall v :: LeafNames(d, o, v) <==>
                        PolicyAt(d, o) == Forbidden && ChildrenOf(d, o) != [] &&
                        v == Violation(IllegalChild, IdAt(d, o), ChildrenOf(d, o)[0].id)
  {
    hide ChildrenOf, PolicyAt, IdAt, IsOwner;
  }

  lemma {:induction false} EmptyChildReport(d: Document, start: seq<Violation>, pagesAllowed: bool,
                                            counts: map<ChildRef, nat>)
    requires Reports(start, MultipleParents) <==> Repeats(counts)
    ensures ChildReport(d, start, start, [], pagesAllowed, counts)
  {
  }

  lemma {:induction false} ChildReportMultiple(d: Document, before: seq<Violation>, report: seq<Violation>,
                                               refs: seq<ChildRef>, pagesAllowed: bool, counts: map<ChildRef, nat>)
    requires ChildReport(d, before, report, refs, pagesAllowed, counts)
    ensures Reports(report, MultipleParents) <==> Repeats(counts)
  {
  }

  lemma {:induction false} ChildReportMeans(d: Document, before: seq<Violation>, report: seq<Violation>,
                                            refs: seq<ChildRef>, pagesAllowed: bool, counts: map<ChildRef, nat>)
    requires ChildReport(d, before, report, refs, pagesAllowed, counts)
    ensures Reports(report, DanglingReference) <==> Reports(before, DanglingReference) || HasDangling(d, refs)
    ensures Reports(report, IllegalChild) <==> Reports(before, IllegalChild) || (!pagesAllowed && HasPage(refs))
    ensures Reports(report, MultipleParents) <==> Repeats(counts)
    ensures forall code :: code != DanglingReference && code != IllegalChild && code != MultipleParents ==>
              (Reports(report, code) <==> Reports(before, code))
  {
  }

  lemma {:induction false} PolicyMeans(d: Document, o: Owner)
    requires IsOwner(d, o)
    ensures IllegalChildren(d, o) <==>
            (PolicyAt(d, o) == Forbidden && ChildrenOf(d, o) != []) || (PolicyAt(d, o) == OrderedControls && HasPage(ChildrenOf(d, o)))
  {
  }

  method CheckOwnership(d: Document, before: seq<Violation>)
    returns (report: seq<Violation>, counts: map<ChildRef, nat>)
    requires forall code :: Reports(before, code) ==> code == InvalidId || code == DuplicateId
    ensures Tallies(d, counts, RefsIn(d, Owners(d)))
    ensures Reports(report, DanglingReference) <==> Defect(d, DanglingReference)
    ensures Reports(report, IllegalChild) <==> Defect(d, IllegalChild)
    ensures Reports(report, MultipleParents) <==> Repeats(counts)
    ensures forall code :: code != DanglingReference && code != IllegalChild && code != MultipleParents ==>
              (Reports(report, code) <==> Reports(before, code))
    ensures forall v :: v in report <==> v in before || OwnershipNames(d, Owners(d), |Owners(d)|, v)
  {
    hide Reports, Resolve, Resolves, Repeats, Tallies, HasDangling, IllegalChildren, ChildrenOf, Owners, OwnershipNames,
      OwnerNames, Defect;
    OwnershipNamesNone(d, Owners(d));
    report, counts := before, map[];
    var os := Owners(d);
    assert Tallies(d, counts, RefsIn(d, os[..0])) by { EmptyTally(d); }
    assert !Repeats(counts) by { EmptyTally(d); }
    for i := 0 to |os|
      invariant Tallies(d, counts, RefsIn(d, os[..i]))
      invariant Reports(report, DanglingReference) <==> exists o :: o in os[..i] && HasDangling(d, ChildrenOf(d, o))
      invariant Reports(report, IllegalChild) <==> exists o :: o in os[..i] && IllegalChildren(d, o)
      invariant Reports(report, MultipleParents) <==> Repeats(counts)
      invariant forall code :: code != DanglingReference && code != IllegalChild && code != MultipleParents ==>
                  (Reports(report, code) <==> Reports(before, code))
      invariant forall v :: v in report <==> v in before || OwnershipNames(d, os, i, v)
    {
      OwnershipNamesStep(d, os, i);
      assert os[i] in os;
      assert os[..i + 1] == os[..i] + [os[i]];
      report, counts := CheckChildren(d, os[i], report, counts, RefsIn(d, os[..i]));
      assert os[..i + 1][..i] == os[..i];
    }
    assert os[..|os|] == os;
    OwnershipDefects(d);
  }

  /** What the first n owners give rise to. */
  ghost predicate OwnershipNames(d: Document, os: seq<Owner>, n: nat, v: Violation)
    requires forall o :: o in os ==> IsOwner(d, o)
  {
    exists i :: 0 <= i < n && i < |os| && OwnerNamesIn(d, os, i, v)
  }

  ghost predicate OwnerNamesIn(d: Document, os: seq<Owner>, i: nat, v: Violation)
    requires i < |os| && forall o :: o in os ==> IsOwner(d, o)
  {
    OwnerNames(d, os[i], RefsIn(d, os[..i]), |ChildrenOf(d, os[i])|, v)
  }

  lemma {:induction false} OwnershipNamesNone(d: Document, os: seq<Owner>)
    requires forall o :: o in os ==> IsOwner(d, o)
    ensures forall v :: !OwnershipNames(d, os, 0, v)
  {
  }

  lemma {:induction false} OwnershipNamesStep(d: Document, os: seq<Owner>, i: nat)
    requires i < |os| && forall o :: o in os ==> IsOwner(d, o)
    ensures forall v :: OwnershipNames(d, os, i + 1, v) <==>
                        OwnershipNames(d, os, i, v) || OwnerNames(d, os[i], RefsIn(d, os[..i]), |ChildrenOf(d, os[i])|, v)
  {
    hide OwnershipNames, OwnerNames, ChildrenOf, IsOwner, RefsIn;
    forall v
      ensures OwnershipNames(d, os, i + 1, v) <==>
              OwnershipNames(d, os, i, v) || OwnerNames(d, os[i], RefsIn(d, os[..i]), |ChildrenOf(d, os[i])|, v)
    {
      OwnershipSplit(d, os, i, v);
    }
  }

  lemma {:induction false} OwnershipSplit(d: Document, os: seq<Owner>, i: nat, v: Violation)
    requires i < |os| && forall o :: o in os ==> IsOwner(d, o)
    ensures OwnershipNames(d, os, i + 1, v) <==> OwnershipNames(d, os, i, v) || OwnerNamesIn(d, os, i, v)
  {
    hide OwnerNamesIn, IsOwner;
    if OwnershipNames(d, os, i + 1, v) {
      var k :| 0 <= k < i + 1 && k < |os| && OwnerNamesIn(d, os, k, v);
      assert k == i || k < i;
    }
  }

  lemma {:induction false} EmptyTally(d: Document)
    ensures Tallies(d, map[], multiset{}) && !Repeats(map[])
  {
  }

  lemma {:induction false} OwnershipDefects(d: Document)
    ensures Defect(d, DanglingReference) <==> exists o :: o in Owners(d) && HasDangling(d, ChildrenOf(d, o))
    ensures Defect(d, IllegalChild) <==> exists o :: o in Owners(d) && IllegalChildren(d, o)
  {
    hide Resolve, IllegalChildren, ChildrenOf, IsOwner, Owners, MisplacesByKind;
    MisplacedByKind(d);
    if Defect(d, DanglingReference) {
      var o, r :| Dangles(d, o, r);
      assert o in Owners(d) && HasDangling(d, ChildrenOf(d, o));
    }
    if o :| o in Owners(d) && HasDangling(d, ChildrenOf(d, o)) {
      var r :| r in ChildrenOf(d, o) && !Resolves(d, r);
      assert Dangles(d, o, r);
    }
    if exists o :: Misplaces(d, o) {
      var o :| Misplaces(d, o);
      assert o in Owners(d);
    }
    if o :| o in Owners(d) && IllegalChildren(d, o) {
      assert Misplaces(d, o);
    }
  }

  /** An object that no child list refers to. */
  method CheckOrphans(d: Document, before: seq<Violation>, counts: map<ChildRef, nat>) returns (report: seq<Violation>)
    requires Tallies(d, counts, RefsIn(d, Owners(d)))
    requires !Reports(before, Orphan)
    ensures Reports(report, Orphan) <==> Defect(d, Orphan)
    ensures forall code :: code != Orphan ==> (Reports(report, code) <==> Reports(before, code))
    ensures forall v :: v in report <==>
                        v in before || (v.code == Orphan && v.source == d.formId &&
                                        exists r :: r in NodeRefs(d) && Occurrences(d, r) == 0 && r.id == v.target)
  {
    hide *;
    report := before;
    var refs := NodeRefs(d);
    NoneUncounted(counts);
    OrphanNamesNone(d, counts);
    for i := 0 to |refs|
      invariant Reports(report, Orphan) <==> HasUncounted(counts, refs[..i])
      invariant forall code :: code != Orphan ==> (Reports(report, code) <==> Reports(before, code))
      invariant forall v :: v in report <==> v in before || OrphanNames(d, counts, refs[..i], v)
    {
      UncountedStep(counts, refs, i);
      OrphanNamesStep(d, counts, refs, i);
      if refs[i] !in counts {
        ReportsAppend(report, Violation(Orphan, d.formId, refs[i].id));
        report := report + [Violation(Orphan, d.formId, refs[i].id)];
      }
    }
    assert refs[..|refs|] == refs;
    UncountedIsDefect(d, counts);
    OrphanNamesMean(d, counts);
  }

  ghost predicate OrphanNames(d: Document, counts: map<ChildRef, nat>, refs: seq<ChildRef>, v: Violation) {
    v.code == Orphan && v.source == d.formId && exists r :: r in refs && r !in counts && r.id == v.target
  }

  lemma {:induction false} OrphanNamesNone(d: Document, counts: map<ChildRef, nat>)
    ensures forall v :: !OrphanNames(d, counts, [], v)
  {
  }

  lemma {:induction false} OrphanNamesStep(d: Document, counts: map<ChildRef, nat>, refs: seq<ChildRef>, i: nat)
    requires i < |refs|
    ensures forall v :: OrphanNames(d, counts, refs[..i + 1], v) <==>
                        OrphanNames(d, counts, refs[..i], v) ||
                        (refs[i] !in counts && v == Violation(Orphan, d.formId, refs[i].id))
  {
    assert refs[..i + 1] == refs[..i] + [refs[i]];
    assert forall r :: r in refs[..i + 1] <==> r in refs[..i] || r == refs[i];
    forall v ensures OrphanNames(d, counts, refs[..i + 1], v) <==>
                     OrphanNames(d, counts, refs[..i], v) ||
                     (refs[i] !in counts && v == Violation(Orphan, d.formId, refs[i].id))
    {
      if v == Violation(Orphan, d.formId, refs[i].id) && refs[i] !in counts { assert refs[i] in refs[..i + 1]; }
    }
  }

  lemma {:induction false} OrphanNamesMean(d: Document, counts: map<ChildRef, nat>)
    requires Tallies(d, counts, RefsIn(d, Owners(d)))
    ensures forall v :: OrphanNames(d, counts, NodeRefs(d), v) <==>
                        v.code == Orphan && v.source == d.formId &&
                        exists r :: r in NodeRefs(d) && Occurrences(d, r) == 0 && r.id == v.target
  {
    hide NodeRefs, Owners, RefsIn;
    forall r | r in NodeRefs(d) ensures r !in counts <==> Occurrences(d, r) == 0 { }
  }

  ghost predicate HasUncounted(counts: map<ChildRef, nat>, refs: seq<ChildRef>) {
    exists r :: r in refs && r !in counts
  }

  lemma {:induction false} NoneUncounted(counts: map<ChildRef, nat>)
    ensures !HasUncounted(counts, [])
  {
  }

  lemma {:induction false} UncountedStep(counts: map<ChildRef, nat>, refs: seq<ChildRef>, i: nat)
    requires i < |refs|
    ensures HasUncounted(counts, refs[..i + 1]) <==> HasUncounted(counts, refs[..i]) || refs[i] !in counts
  {
    assert refs[..i + 1] == refs[..i] + [refs[i]];
    assert forall r :: r in refs[..i + 1] <==> r in refs[..i] || r == refs[i];
  }

  lemma {:induction false} UncountedIsDefect(d: Document, counts: map<ChildRef, nat>)
    requires Tallies(d, counts, RefsIn(d, Owners(d)))
    ensures HasUncounted(counts, NodeRefs(d)) <==> Defect(d, Orphan)
  {
    hide NodeRefs, Owners, RefsIn;
    forall r | r in NodeRefs(d) ensures r !in counts <==> Occurrences(d, r) == 0 { }
  }

  lemma {:induction false} RepeatsIsDefect(d: Document, counts: map<ChildRef, nat>)
    requires Tallies(d, counts, RefsIn(d, Owners(d)))
    ensures Repeats(counts) <==> Defect(d, MultipleParents)
  {
    hide NodeRefs, RefsIn, Owners, MisplacesByKind, HasCycle, UniqueIds, Dangles;
    if Repeats(counts) {
      var r :| r in counts && counts[r] > 1;
      assert r in NodeRefs(d) && Occurrences(d, r) > 1;
    }
    if Defect(d, MultipleParents) {
      var r :| r in NodeRefs(d) && Occurrences(d, r) > 1;
      assert r in counts && counts[r] > 1;
    }
  }

  // ---------- Cycles ----------

  datatype VisitState = Visiting | Done

  ghost predicate Marked(d: Document, states: map<ChildRef, VisitState>, stack: seq<ChildRef>, order: seq<ChildRef>) {
    && (forall r :: r in states ==> r in NodeRefs(d))
    && (forall r :: r in stack <==> r in states && states[r] == Visiting)
    && (forall r :: r in order <==> r in states && states[r] == Done)
  }

  lemma {:induction false} MarkVisiting(d: Document, states: map<ChildRef, VisitState>, stack: seq<ChildRef>,
                                        order: seq<ChildRef>, source: ChildRef)
    requires Marked(d, states, stack, order) && Resolves(d, source) && source !in states
    ensures Marked(d, states[source := Visiting], stack + [source], order)
  {
    hide NodeRefs;
  }

  lemma {:induction false} MarkDone(d: Document, states: map<ChildRef, VisitState>, stack: seq<ChildRef>,
                                    order: seq<ChildRef>, source: ChildRef)
    requires Marked(d, states, stack + [source], order) && source !in stack
    ensures Marked(d, states[source := Done], stack, order + [source])
  {
    hide NodeRefs;
    assert source in stack + [source];
  }

  /** Where the search stands: the stack of objects being visited is a path, and as long as no cycle
      was reported every finished object comes after its children. */
  ghost predicate Searching(d: Document, states: map<ChildRef, VisitState>, cyclic: bool, stack: seq<ChildRef>,
                            order: seq<ChildRef>) {
    && Marked(d, states, stack, order)
    && IsPath(d, stack)
    && (cyclic ==> HasCycle(d))
    && (!cyclic ==> Topological(d, order))
  }

  ghost predicate ChildrenDone(d: Document, order: seq<ChildRef>, kids: seq<ChildRef>) {
    forall r :: r in kids && Resolves(d, r) ==> r in order
  }

  lemma {:induction false} EnterObject(d: Document, states: map<ChildRef, VisitState>, cyclic: bool,
                                       stack: seq<ChildRef>, order: seq<ChildRef>, source: ChildRef)
    requires Searching(d, states, cyclic, stack, order)
    requires Resolves(d, source) && source !in states
    requires stack != [] ==> Edge(d, stack[|stack| - 1], source)
    ensures Searching(d, states[source := Visiting], cyclic, stack + [source], order)
  {
    hide Marked, IsPath, HasCycle, Topological, Edge, Resolve, Resolves, NodeRefs;
    MarkVisiting(d, states, stack, order, source);
    if stack != [] {
      PathAppend(d, stack, source);
    } else {
      SingletonPath(d, {}, source);
      assert stack + [source] == [source];
    }
  }

  lemma {:induction false} LeaveObject(d: Document, states: map<ChildRef, VisitState>, cyclic: bool,
                                       stack: seq<ChildRef>, order: seq<ChildRef>, source: ChildRef)
    requires Searching(d, states, cyclic, stack + [source], order)
    requires source !in stack && Resolves(d, source)
    requires !cyclic ==> ChildrenDone(d, order, Kids(d, source))
    ensures Searching(d, states[source := Done], cyclic, stack, order + [source])
  {
    hide Marked, IsPath, HasCycle, Topological, Edge, Resolve, Resolves, NodeRefs, ChildrenDone, Kids;
    MarkDone(d, states, stack, order, source);
    PathPrefix(d, stack + [source], |stack|);
    assert (stack + [source])[..|stack|] == stack;
    if !cyclic {
      TopologicalAppend(d, order, source);
    }
  }

  lemma {:induction false} TopologicalAppend(d: Document, order: seq<ChildRef>, source: ChildRef)
    requires Topological(d, order) && Resolves(d, source) && ChildrenDone(d, order, Kids(d, source))
    ensures Topological(d, order + [source])
  {
    hide NodeRefs, Resolve;
    forall r | Edge(d, source, r) ensures r in order { }
    hide Edge, ChildrenDone;
    var order' := order + [source];
    forall i, r | 0 <= i < |order'| && Edge(d, order'[i], r) ensures r in order'[..i] {
      if i < |order| {
        assert order'[..i] == order[..i];
        assert Edge(d, order[i], r);
      } else {
        assert order'[..i] == order;
      }
    }
  }

  /** Only violations that name an edge of a cycle were added. */
  ghost predicate AddsCycles(d: Document, before: seq<Violation>, report: seq<Violation>) {
    && (forall v :: v in before ==> v in report)
    && (forall v :: v in report ==> v in before || (v.code == Cycle && Names(d, v)))
  }

  lemma {:induction false} AddsNothing(d: Document, before: seq<Violation>)
    ensures AddsCycles(d, before, before)
  {
  }

  lemma {:induction false} AddsMore(d: Document, before: seq<Violation>, mid: seq<Violation>, report: seq<Violation>)
    requires AddsCycles(d, before, mid) && AddsCycles(d, mid, report)
    ensures AddsCycles(d, before, report)
  {
    hide Names;
  }

  lemma {:induction false} AddsCycle(d: Document, before: seq<Violation>, mid: seq<Violation>, stack: seq<ChildRef>,
                                     kid: ChildRef)
    requires AddsCycles(d, before, mid) && IsPath(d, stack) && stack != [] && kid in stack
    requires Resolves(d, stack[|stack| - 1]) && kid in Kids(d, stack[|stack| - 1])
    ensures AddsCycles(d, before, mid + [Violation(Cycle, stack[|stack| - 1].id, kid.id)])
  {
    var v := Violation(Cycle, stack[|stack| - 1].id, kid.id);
    BackEdgeNames(d, stack, kid);
    hide Names, IsPath, Resolves, Kids, Edge;
    InAppend(mid, v);
  }

  lemma {:induction false} BackEdgeNames(d: Document, stack: seq<ChildRef>, kid: ChildRef)
    requires IsPath(d, stack) && stack != [] && kid in stack
    requires Resolves(d, stack[|stack| - 1]) && kid in Kids(d, stack[|stack| - 1])
    ensures Names(d, Violation(Cycle, stack[|stack| - 1].id, kid.id))
  {
    hide IsPath, Edge, Resolves, Kids;
    PathNodes(d, stack, kid);
    EdgeIntro(d, stack[|stack| - 1], kid);
    var k :| 0 <= k < |stack| && stack[k] == kid;
    var p := stack[k..];
    PathSuffix(d, stack, k);
    PathAppend(d, p, kid);
    var c := p + [kid];
    assert IsCycle(d, c) && c[|c| - 2] == stack[|stack| - 1] && c[|c| - 1] == kid;
  }

  lemma {:induction false} BackEdge(d: Document, stack: seq<ChildRef>, kid: ChildRef)
    requires IsPath(d, stack) && stack != [] && kid in stack
    requires Resolves(d, stack[|stack| - 1]) && kid in Kids(d, stack[|stack| - 1])
    ensures HasCycle(d)
  {
    hide *;
    PathNodes(d, stack, kid);
    EdgeIntro(d, stack[|stack| - 1], kid);
    var k :| 0 <= k < |stack| && stack[k] == kid;
    var p := stack[k..];
    PathSuffix(d, stack, k);
    PathAppend(d, p, kid);
    CycleIntro(d, p + [kid]);
  }

  lemma {:induction false} PathNodes(d: Document, p: seq<ChildRef>, r: ChildRef)
    requires IsPath(d, p) && r in p
    ensures Resolves(d, r)
  {
  }

  method Visit(d: Document, source: ChildRef, states: map<ChildRef, VisitState>, before: seq<Violation>,
               ghost stack: seq<ChildRef>, ghost order: seq<ChildRef>)
    returns (states': map<ChildRef, VisitState>, report: seq<Violation>, ghost order': seq<ChildRef>)
    requires Searching(d, states, Reports(before, Cycle), stack, order)
    requires Resolves(d, source) && source !in states
    requires stack != [] ==> Edge(d, stack[|stack| - 1], source)
    ensures Searching(d, states', Reports(report, Cycle), stack, order')
    ensures states.Keys + {source} <= states'.Keys
    ensures source in order' && forall r :: r in order ==> r in order'
    ensures forall code :: Reports(before, code) ==> Reports(report, code)
    ensures forall code :: code != Cycle ==> (Reports(report, code) <==> Reports(before, code))
    ensures AddsCycles(d, before, report)
    decreases |Elements(NodeRefs(d)) - states.Keys|
  {
    hide *;
    states', report, order' := states[source := Visiting], before, order;
    EnterObject(d, states, Reports(before, Cycle), stack, order, source);
    AddsNothing(d, before);
    var kids := Kids(d, source);
    VisitProgress(d, states, source);
    assert ChildrenDone(d, order', kids[..0]) by { NoChildren(d, order'); }
    for i := 0 to |kids|
      invariant Searching(d, states', Reports(report, Cycle), stack + [source], order')
      invariant states.Keys + {source} <= states'.Keys
      invariant forall r :: r in order ==> r in order'
      invariant forall code :: Reports(before, code) ==> Reports(report, code)
      invariant forall code :: code != Cycle ==> (Reports(report, code) <==> Reports(before, code))
      invariant AddsCycles(d, before, report)
      invariant Reports(report, Cycle) || ChildrenDone(d, order', kids[..i])
    {
      var kid := kids[i];
      ghost var order0 := order';
      StackTop(d, states', Reports(report, Cycle), stack, order', source);
      if kid in states' && states'[kid] == Visiting {
        KidState(d, states', Reports(report, Cycle), stack + [source], order', kid);
        assert kid in kids;
        BackEdge(d, stack + [source], kid);
        AddsCycle(d, before, report, stack + [source], kid);
        ReportsAppend(report, Violation(Cycle, source.id, kid.id));
        report := report + [Violation(Cycle, source.id, kid.id)];
        SearchingCyclic(d, states', stack + [source], order');
      } else if kid !in states' && Resolves(d, kid) {
        assert kid in kids;
        EdgeIntro(d, source, kid);
        MoreVisited(d, states, states', source);
        ghost var report0 := report;
        states', report, order' := Visit(d, kid, states', report, stack + [source], order');
        ChildrenDoneStep(d, order0, order', kids, i);
        AddsMore(d, before, report0, report);
      } else {
        if kid in states' { KidState(d, states', Reports(report, Cycle), stack + [source], order', kid); }
        ChildrenDoneStep(d, order0, order', kids, i);
      }
    }
    assert kids[..|kids|] == kids;
    NotOnStack(d, states, Reports(before, Cycle), stack, order, source);
    LeaveObject(d, states', Reports(report, Cycle), stack, order', source);
    states' := states'[source := Done];
    order' := order' + [source];
  }

  lemma {:induction false} VisitProgress(d: Document, states: map<ChildRef, VisitState>, source: ChildRef)
    requires Resolves(d, source) && source !in states
    ensures |Elements(NodeRefs(d)) - (states.Keys + {source})| < |Elements(NodeRefs(d)) - states.Keys|
  {
    hide NodeRefs, Resolve, Resolves;
    InNodeRefs(d, source);
    var a := Elements(NodeRefs(d)) - states.Keys;
    assert source in a;
    assert Elements(NodeRefs(d)) - (states.Keys + {source}) == a - {source};
  }

  lemma {:induction false} MoreVisited(d: Document, states: map<ChildRef, VisitState>, states': map<ChildRef,
                                       VisitState>, source: ChildRef)
    requires Resolves(d, source) && source !in states && states.Keys + {source} <= states'.Keys
    ensures |Elements(NodeRefs(d)) - states'.Keys| < |Elements(NodeRefs(d)) - states.Keys|
  {
    hide NodeRefs;
    VisitProgress(d, states, source);
    SubsetSize(Elements(NodeRefs(d)) - states'.Keys, Elements(NodeRefs(d)) - (states.Keys + {source}));
  }

  lemma {:induction false} NoChildren(d: Document, order: seq<ChildRef>)
    ensures ChildrenDone(d, order, [])
  {
  }

  lemma {:induction false} ChildrenDoneStep(d: Document, order: seq<ChildRef>, order': seq<ChildRef>,
                                            kids: seq<ChildRef>, i: nat)
    requires i < |kids| && (forall r :: r in order ==> r in order')
    requires !Resolves(d, kids[i]) || kids[i] in order'
    ensures ChildrenDone(d, order, kids[..i]) ==> ChildrenDone(d, order', kids[..i + 1])
  {
    hide Resolve, NodeRefs;
    assert kids[..i + 1] == kids[..i] + [kids[i]];
  }

  lemma {:induction false} StackTop(d: Document, states: map<ChildRef, VisitState>, cyclic: bool, stack: seq<ChildRef>,
                                    order: seq<ChildRef>, source: ChildRef)
    requires Searching(d, states, cyclic, stack + [source], order)
    ensures IsPath(d, stack + [source]) && (stack + [source])[|stack + [source]| - 1] == source
  {
  }

  lemma {:induction false} KidState(d: Document, states: map<ChildRef, VisitState>, cyclic: bool, stack: seq<ChildRef>,
                                    order: seq<ChildRef>, kid: ChildRef)
    requires Searching(d, states, cyclic, stack, order) && kid in states
    ensures if states[kid] == Visiting then kid in stack else kid in order
  {
  }

  lemma {:induction false} NotOnStack(d: Document, states: map<ChildRef, VisitState>, cyclic: bool,
                                      stack: seq<ChildRef>, order: seq<ChildRef>, source: ChildRef)
    requires Searching(d, states, cyclic, stack, order) && source !in states
    ensures source !in stack
  {
  }

  lemma {:induction false} SearchingCyclic(d: Document, states: map<ChildRef, VisitState>, stack: seq<ChildRef>,
                                           order: seq<ChildRef>)
    requires HasCycle(d) && (Searching(d, states, false, stack, order) || Searching(d, states, true, stack, order))
    ensures Searching(d, states, true, stack, order)
  {
  }

  lemma {:induction false} EdgeIntro(d: Document, q: ChildRef, r: ChildRef)
    requires Resolves(d, q) && Resolves(d, r) && r in Kids(d, q)
    ensures Edge(d, q, r)
  {
  }

  method FindCycles(d: Document, before: seq<Violation>) returns (report: seq<Violation>)
    requires !Reports(before, Cycle)
    ensures Reports(report, Cycle) <==> HasCycle(d)
    ensures forall code :: code != Cycle ==> (Reports(report, code) <==> Reports(before, code))
    ensures AddsCycles(d, before, report)
  {
    hide *;
    AddsNothing(d, before);
    var states: map<ChildRef, VisitState> := map[];
    ghost var order: seq<ChildRef> := [];
    report := before;
    var refs := NodeRefs(d);
    SearchStart(d);
    for i := 0 to |refs|
      invariant Searching(d, states, Reports(report, Cycle), [], order)
      invariant forall r :: r in refs[..i] ==> r in states
      invariant forall code :: code != Cycle ==> (Reports(report, code) <==> Reports(before, code))
      invariant AddsCycles(d, before, report)
    {
      assert refs[..i + 1] == refs[..i] + [refs[i]];
      if refs[i] !in states {
        assert refs[i] in refs;
        InNodeRefs(d, refs[i]);
        ghost var report0 := report;
        states, report, order := Visit(d, refs[i], states, report, [], order);
        AddsMore(d, before, report0, report);
      }
    }
    assert refs[..|refs|] == refs;
    SearchEnd(d, states, Reports(report, Cycle), order);
  }

  lemma {:induction false} InNodeRefs(d: Document, r: ChildRef)
    ensures Resolves(d, r) <==> r in NodeRefs(d)
  {
  }

  lemma {:induction false} SearchStart(d: Document)
    ensures Searching(d, map[], false, [], [])
  {
  }

  lemma {:induction false} SearchEnd(d: Document, states: map<ChildRef, VisitState>, cyclic: bool, order: seq<ChildRef>)
    requires Searching(d, states, cyclic, [], order)
    requires forall r :: r in NodeRefs(d) ==> r in states
    ensures cyclic <==> HasCycle(d)
  {
    hide NodeRefs;
    if !cyclic {
      forall r | Resolves(d, r) ensures r in order { assert r in states && (states[r] == Visiting ==> r in (var none: seq<ChildRef> := []; none)); }
      TopologicalAcyclic(d, order);
    }
  }

  // ---------- The whole report ----------

  method Validate(d: Document) returns (report: seq<Violation>)
    ensures forall code :: Reports(report, code) <==> Defect(d, code)
    ensures forall v :: v in report ==> Names(d, v)
    ensures forall v: Violation :: Names(d, v) && v.code != MultipleParents && v.code != Cycle ==> v in report
    ensures forall r :: r in NodeRefs(d) && Occurrences(d, r) > 1 ==>
              exists o :: Lists(d, o, r) && Violation(MultipleParents, IdAt(d, o), r.id) in report
  {
    hide *;
    report := CheckIds(d);
    NoOrphanYet(report);
    ghost var ids := report;
    var counts;
    report, counts := CheckOwnership(d, report);
    ghost var owned := report;
    RepeatsIsDefect(d, counts);
    report := CheckOrphans(d, report, counts);
    ghost var orphans := report;
    report := FindCycles(d, report);
    CycleIsDefect(d);
    IdsNamed(d, ids);
    OwnershipNamed(d, ids, owned);
    AllNamed(d, ids, owned, orphans, report);
  }

  lemma {:induction false} NoOrphanYet(report: seq<Violation>)
    requires forall code :: Reports(report, code) ==> code == InvalidId || code == DuplicateId
    ensures !Reports(report, Orphan)
  {
  }

  // ---------- Every violation is named ----------

  lemma {:induction false} IdsNamed(d: Document, ids: seq<Violation>)
    requires forall v :: v in ids <==> IdNames(d.formId, NodeRefs(d), v)
    ensures forall v :: v in ids <==> (v.code == InvalidId || v.code == DuplicateId) && Names(d, v)
  {
    hide NodeRefs;
  }

  lemma {:induction false} OwnersAreOwners(d: Document)
    ensures forall o :: o in Owners(d) ==> IsOwner(d, o)
  {
  }

  /** Some owner's child is named. */
  lemma {:induction false} OwnershipIntro(d: Document, i: nat, k: nat, v: Violation)
    requires i < |Owners(d)| && k < |ChildrenOf(d, Owners(d)[i])| && NamesAt(d, Owners(d)[i], RefsIn(d, Owners(d)[..i]), k, v)
    ensures OwnershipNames(d, Owners(d), |Owners(d)|, v)
  {
    hide NamesAt, ChildrenOf, IsOwner, Owners, RefsIn;
    OwnersAreOwners(d);
    assert OwnerNamesIn(d, Owners(d), i, v);
  }

  lemma {:induction false} OwnershipElim(d: Document, v: Violation) returns (i: nat, k: nat)
    requires OwnershipNames(d, Owners(d), |Owners(d)|, v)
    ensures i < |Owners(d)| && k < |ChildrenOf(d, Owners(d)[i])| && IsOwner(d, Owners(d)[i])
    ensures NamesAt(d, Owners(d)[i], RefsIn(d, Owners(d)[..i]), k, v)
  {
    hide NamesAt, ChildrenOf, IsOwner, Owners, RefsIn;
    OwnersAreOwners(d);
    var os := Owners(d);
    i :| 0 <= i < |os| && OwnerNamesIn(d, os, i, v);
    k :| 0 <= k < |ChildrenOf(d, os[i])| && NamesAt(d, os[i], RefsIn(d, os[..i]), k, v);
  }

  lemma {:induction false} PlaceOfOwner(d: Document, o: Owner, r: ChildRef) returns (i: nat, k: nat)
    requires Lists(d, o, r)
    ensures i < |Owners(d)| && Owners(d)[i] == o && k < |ChildrenOf(d, o)| && ChildrenOf(d, o)[k] == r
  {
    hide Owners, ChildrenOf, IsOwner;
    var os := Owners(d);
    assert o in os;
    i :| 0 <= i < |os| && os[i] == o;
    k :| 0 <= k < |ChildrenOf(d, o)| && ChildrenOf(d, o)[k] == r;
  }

  lemma {:induction false} ListsAt(d: Document, i: nat, k: nat)
    requires i < |Owners(d)| && IsOwner(d, Owners(d)[i]) && k < |ChildrenOf(d, Owners(d)[i])|
    ensures Lists(d, Owners(d)[i], ChildrenOf(d, Owners(d)[i])[k])
  {
    hide Owners, IsOwner;
  }

  lemma {:induction false} DanglingNamed(d: Document, v: Violation)
    requires v.code == DanglingReference
    ensures OwnershipNames(d, Owners(d), |Owners(d)|, v) <==> Names(d, v)
  {
    hide Owners, RefsIn, Resolve, Resolves, IdAt, PolicyAt, OwnershipNames, ChildrenOf, IsOwner;
    if OwnershipNames(d, Owners(d), |Owners(d)|, v) {
      var i, k := OwnershipElim(d, v);
      ListsAt(d, i, k);
    }
    if Names(d, v) {
      var o, r :| Lists(d, o, r) && !Resolves(d, r) && v.source == IdAt(d, o) && v.target == r.id;
      var i, k := PlaceOfOwner(d, o, r);
      OwnershipIntro(d, i, k, v);
    }
  }

  lemma {:induction false} MisplacedAt(d: Document, o: Owner, k: nat)
    requires IsOwner(d, o) && k < |ChildrenOf(d, o)|
    ensures MisplacedChild(d, o, ChildrenOf(d, o)[k]) <==>
            (PolicyAt(d, o) == OrderedControls && ChildrenOf(d, o)[k].PageRef?) ||
            (PolicyAt(d, o) == Forbidden && ChildrenOf(d, o)[k] == ChildrenOf(d, o)[0])
  {
  }

  lemma {:induction false} IllegalNamed(d: Document, v: Violation)
    requires v.code == IllegalChild
    ensures OwnershipNames(d, Owners(d), |Owners(d)|, v) <==> Names(d, v)
  {
    hide Owners, RefsIn, Resolve, Resolves, IdAt, PolicyAt, OwnershipNames, ChildrenOf, IsOwner, MisplacedChild;
    if OwnershipNames(d, Owners(d), |Owners(d)|, v) {
      var i, k := OwnershipElim(d, v);
      ListsAt(d, i, k);
      MisplacedAt(d, Owners(d)[i], k);
    }
    if Names(d, v) {
      var o, r :| Lists(d, o, r) && MisplacedChild(d, o, r) && v.source == IdAt(d, o) && v.target == r.id;
      var i, k := PlaceOfOwner(d, o, r);
      MisplacedAt(d, o, k);
      OwnershipIntro(d, i, if PolicyAt(d, o) == Forbidden then 0 else k, v);
    }
  }

  /** The references so far are no more than all. */
  lemma {:induction false} CountsSoFar(d: Document, i: nat, k: nat, r: ChildRef)
    requires i < |Owners(d)| && IsOwner(d, Owners(d)[i]) && k < |ChildrenOf(d, Owners(d)[i])|
    ensures forall o :: o in Owners(d)[..i] ==> IsOwner(d, o)
    ensures (RefsIn(d, Owners(d)[..i]) + multiset(ChildrenOf(d, Owners(d)[i])[..k + 1]))[r] <= Occurrences(d, r)
  {
    hide Owners, RefsIn, ChildrenOf, IsOwner;
    var os := Owners(d);
    var children := ChildrenOf(d, os[i]);
    OwnersAreOwners(d);
    assert os[..i + 1] == os[..i] + [os[i]];
    RefsInSnoc(d, os[..i], os[i]);
    PrefixDistinct(os, i + 1);
    RefsInMonotone(d, os[..i + 1], os);
    assert children == children[..k + 1] + children[k + 1..];
    assert multiset(children)[r] >= multiset(children[..k + 1])[r];
  }

  lemma {:induction false} PrefixDistinct(os: seq<Owner>, n: nat)
    requires Distinct(os) && n <= |os|
    ensures Distinct(os[..n]) && forall o :: o in os[..n] ==> o in os
  {
  }

  lemma {:induction false} MultipleNamed(d: Document, v: Violation)
    requires v.code == MultipleParents && OwnershipNames(d, Owners(d), |Owners(d)|, v)
    ensures Names(d, v)
  {
    hide Owners, RefsIn, Resolve, Resolves, IdAt, PolicyAt, OwnershipNames, ChildrenOf, IsOwner;
    var i, k := OwnershipElim(d, v);
    ListsAt(d, i, k);
    CountsSoFar(d, i, k, ChildrenOf(d, Owners(d)[i])[k]);
  }

  lemma {:induction false} LastPlace(refs: seq<ChildRef>, r: ChildRef) returns (k: nat)
    requires r in refs
    ensures k < |refs| && refs[k] == r && multiset(refs[..k + 1])[r] == multiset(refs)[r]
  {
    var last := |refs| - 1;
    assert refs == refs[..last] + [refs[last]];
    if refs[last] == r {
      k := last;
      assert refs[..k + 1] == refs;
    } else {
      k := LastPlace(refs[..last], r);
      assert refs[..last][..k + 1] == refs[..k + 1];
    }
  }

  /** An object with several places is named where it is listed last. */
  lemma {:induction false} MultipleAll(d: Document, n: nat, r: ChildRef) returns (i: nat, k: nat)
    requires n <= |Owners(d)| && Resolves(d, r) && forall o :: o in Owners(d) ==> IsOwner(d, o)
    requires RefsIn(d, Owners(d)[..n])[r] > 1
    ensures i < |Owners(d)| && Lists(d, Owners(d)[i], r) && k < |ChildrenOf(d, Owners(d)[i])|
    ensures NamesAt(d, Owners(d)[i], RefsIn(d, Owners(d)[..i]), k, Violation(MultipleParents, IdAt(d, Owners(d)[i]), r.id))
  {
    hide Owners, RefsIn, Resolve, Resolves, IdAt, PolicyAt, ChildrenOf, IsOwner;
    var os := Owners(d);
    NoRefs(d, os[..0]);
    assert n > 0;
    assert os[..n] == os[..n - 1] + [os[n - 1]] && os[n - 1] in os;
    RefsInSnoc(d, os[..n - 1], os[n - 1]);
    if r in ChildrenOf(d, os[n - 1]) {
      i := n - 1;
      k := LastPlace(ChildrenOf(d, os[i]), r);
    } else {
      i, k := MultipleAll(d, n - 1, r);
    }
  }

  lemma {:induction false} NoRefs(d: Document, os: seq<Owner>)
    requires os == []
    ensures RefsIn(d, os) == multiset{}
  {
  }

  lemma {:induction false} OwnershipCodes(d: Document, v: Violation)
    requires OwnershipNames(d, Owners(d), |Owners(d)|, v)
    ensures v.code == DanglingReference || v.code == IllegalChild || v.code == MultipleParents
  {
    hide Owners, RefsIn, Resolve, Resolves, IdAt, PolicyAt, OwnershipNames, ChildrenOf, IsOwner;
    var i, k := OwnershipElim(d, v);
  }

  lemma {:induction false} OwnershipNamed(d: Document, ids: seq<Violation>, owned: seq<Violation>)
    requires forall v :: v in owned <==> v in ids || OwnershipNames(d, Owners(d), |Owners(d)|, v)
    ensures forall v :: v in owned ==> v in ids || Names(d, v)
    ensures forall v :: v in ids ==> v in owned
    ensures forall v :: Names(d, v) && (v.code == DanglingReference || v.code == IllegalChild) ==> v in owned
    ensures forall r :: r in NodeRefs(d) && Occurrences(d, r) > 1 ==>
              exists o :: Lists(d, o, r) && Violation(MultipleParents, IdAt(d, o), r.id) in owned
  {
    hide Names, Owners, OwnershipNames, ChildrenOf, IsOwner, NodeRefs, Occurrences, RefsIn, Resolve, IdAt, NamesAt;
    forall v | v in owned && v !in ids ensures Names(d, v) {
      OwnershipCodes(d, v);
      match v.code {
        case DanglingReference => DanglingNamed(d, v);
        case IllegalChild => IllegalNamed(d, v);
        case MultipleParents => MultipleNamed(d, v);
        case _ =>
      }
    }
    forall v | Names(d, v) && (v.code == DanglingReference || v.code == IllegalChild) ensures v in owned {
      if v.code == DanglingReference { DanglingNamed(d, v); } else { IllegalNamed(d, v); }
    }
    forall r | r in NodeRefs(d) && Occurrences(d, r) > 1
      ensures exists o :: Lists(d, o, r) && Violation(MultipleParents, IdAt(d, o), r.id) in owned
    {
      InNodeRefs(d, r);
      OwnersAreOwners(d);
      AllOccurrences(d, r);
      var i, k := MultipleAll(d, |Owners(d)|, r);
      OwnershipIntro(d, i, k, Violation(MultipleParents, IdAt(d, Owners(d)[i]), r.id));
    }
  }

  lemma {:induction false} AllOccurrences(d: Document, r: ChildRef)
    ensures forall o :: o in Owners(d)[..|Owners(d)|] ==> IsOwner(d, o)
    ensures RefsIn(d, Owners(d)[..|Owners(d)|])[r] == Occurrences(d, r)
  {
    hide Owners, RefsIn, IsOwner;
    assert Owners(d)[..|Owners(d)|] == Owners(d);
  }

  lemma {:induction false} AllNamed(d: Document, ids: seq<Violation>, owned: seq<Violation>, orphans: seq<Violation>,
                                    report: seq<Violation>)
    requires forall v :: v in ids <==> (v.code == InvalidId || v.code == DuplicateId) && Names(d, v)
    requires forall v :: v in owned ==> v in ids || Names(d, v)
    requires forall v :: v in ids ==> v in owned
    requires forall v :: Names(d, v) && (v.code == DanglingReference || v.code == IllegalChild) ==> v in owned
    requires forall v :: v in orphans <==>
                         v in owned || (v.code == Orphan && v.source == d.formId &&
                                        exists r :: r in NodeRefs(d) && Occurrences(d, r) == 0 && r.id == v.target)
    requires AddsCycles(d, orphans, report)
    ensures forall v :: v in report ==> Names(d, v)
    ensures forall v: Violation :: Names(d, v) && v.code != MultipleParents && v.code != Cycle ==> v in report
    ensures forall v :: v in owned ==> v in report
  {
    hide NodeRefs, Occurrences;
    forall v: Violation | v.code == Orphan
      ensures Names(d, v) <==> v.source == d.formId && exists r :: r in NodeRefs(d) && Occurrences(d, r) == 0 && r.id == v.target
    {
    }
    hide Names;
  }

  lemma {:induction false} CycleIsDefect(d: Document)
    ensures HasCycle(d) <==> Defect(d, Cycle)
  {
  }
}
