/** Expanding type sets that refer to each other. A parser with a memo, a stack and shared budgets
    gives what plain recursion without a memo gives, and never accepts a cycle. */
module TypeSets {
  import opened Optional
  import opened Sequences
  import opened TypeItems

  const MAX_TYPE_SET_DEPTH: nat := 32
  const MAX_DOMAIN_ENTRIES: nat := 4096
  const MAX_EXPANDED_ENTRIES: nat := 100000

  datatype Category = ObjectType | RefType | ListType | OtherType

  datatype Generated = Generated(typeId: string, category: Category)

  datatype Entry =
    | BooleanEntry | StringEntry(length: nat, variable: bool) | NumericEntry(digits: nat, fraction: nat, nonNegative: bool)
    | DateEntry(date: bool, time: bool) | BinaryEntry(length: nat, variable: bool)
    | ValueListEntry | ValueTableEntry | ValueTreeEntry
    | ObjectEntry(typeId: string) | ReferenceEntry(typeId: string) | ListEntry(typeId: string)

  /** The types of a configuration: generated ones, and named sets of types with their descriptions. */
  datatype Schema = Schema(generated: map<string, Generated>, typeSets: map<string, Option<Node>>)

  /** A domain, the name of a type that could not be resolved, or neither. */
  datatype Parsed = Parsed(domain: Option<seq<Entry>>, unresolved: Option<string>)

  /** The entry that a type name stands for, if it is a known one. */
  function EntryOf(s: Schema, q: Qualifiers, name: QName): Option<Entry> {
    match name.uri
    case SchemaNs =>
      if name.local == "boolean" then Some(BooleanEntry)
      else if name.local == "string" then Some(StringEntry(q.stringLength, q.stringVariable))
      else if name.local == "decimal" then Some(NumericEntry(q.digits, q.fraction, q.nonNegative))
      else if name.local == "dateTime" then Some(DateEntry(q.date, q.time))
      else if name.local == "base64Binary" then Some(BinaryEntry(q.binaryLength, q.binaryVariable))
      else None
    case CoreNs =>
      if name.local == "ValueList" then Some(ValueListEntry)
      else if name.local == "ValueTable" then Some(ValueTableEntry)
      else if name.local == "ValueTree" then Some(ValueTreeEntry)
      else None
    case ConfigNs =>
      if name.local !in s.generated then None
      else (match s.generated[name.local].category
            case ObjectType => Some(ObjectEntry(s.generated[name.local].typeId))
            case RefType => Some(ReferenceEntry(s.generated[name.local].typeId))
            case ListType => Some(ListEntry(s.generated[name.local].typeId))
            case OtherType => None)
    case OtherNs => None
  }

  // ---------- Plain expansion ----------

  /** What plain recursion finds: the entries in document order, the last unresolved name, what it would
      charge, whether it stays within every limit, and whether it is regular: no type set contains itself,
      and the content of every element is a name. */
  datatype Plain = Plain(entries: seq<Entry>, unresolved: Option<string>, charge: nat, bounded: bool, regular: bool)

  const NOTHING: Plain := Plain([], None, 0, true, true)
  const CYCLIC: Plain := Plain([], None, 0, false, false)

  /** A description with an unresolved name has no domain; an empty domain is none. */
  function ParsedOf(p: Plain): Parsed {
    if p.unresolved.Some? then Parsed(None, p.unresolved)
    else if p.entries == [] then Parsed(None, None)
    else Parsed(Some(p.entries), None)
  }

  function DomainSize(r: Parsed): nat {
    match r.domain case None => 0 case Some(d) => |d|
  }

  function WithEntry(p: Plain, e: Entry): Plain {
    p.(entries := p.entries + [e], charge := p.charge + 1, bounded := p.bounded && |p.entries| < MAX_DOMAIN_ENTRIES)
  }

  function WithUnresolved(p: Plain, name: string): Plain {
    p.(unresolved := Some(name))
  }

  /** The expansion of a type set is appended, and charged once more. */
  function WithSet(p: Plain, inner: Plain, name: string): Plain {
    var r := ParsedOf(inner);
    var q := p.(charge := p.charge + inner.charge + DomainSize(r), regular := p.regular && inner.regular,
                bounded := p.bounded && inner.bounded && |p.entries| + DomainSize(r) <= MAX_DOMAIN_ENTRIES);
    match r.domain
    case Some(d) => q.(entries := q.entries + d)
    case None => q.(unresolved := Some(name))
  }

  predicate IsSetReference(s: Schema, item: Node) {
    item.kind == TypeSetElement && item.content.Some? && item.content.value.uri == ConfigNs
    && item.content.value.local in s.typeSets
  }

  /** One type element, after those before it. */
  function PlainItem(s: Schema, q: Qualifiers, before: Plain, item: Node, path: set<string>, depth: nat): Plain
    decreases |s.typeSets.Keys - path|, 1
  {
    match item.content
    case None => before.(bounded := false, regular := false)
    case Some(name) =>
      if IsSetReference(s, item) then WithSet(before, PlainSet(s, name.local, path, depth + 1), name.written)
      else if item.kind == TypeSetElement then WithUnresolved(before, name.written)
      else (match EntryOf(s, q, name)
            case Some(e) => WithEntry(before, e)
            case None => WithUnresolved(before, name.written))
  }

  function PlainItems(s: Schema, q: Qualifiers, items: seq<Node>, path: set<string>, depth: nat): Plain
    decreases |s.typeSets.Keys - path|, 2, |items|
  {
    if items == [] then NOTHING
    else PlainItem(s, q, PlainItems(s, q, items[..|items| - 1], path, depth), items[|items| - 1], path, depth)
  }

  function PlainNode(s: Schema, node: Option<Node>, path: set<string>, depth: nat): Plain
    decreases |s.typeSets.Keys - path|, 3
  {
    match node
    case None => NOTHING
    case Some(n) =>
      var p := PlainItems(s, n.qualifiers, Items(n), path, depth);
      p.(bounded := p.bounded && Traversable(n))
  }

  /** A set met again inside itself is a cycle. */
  function PlainSet(s: Schema, name: string, path: set<string>, depth: nat): Plain
    requires name in s.typeSets
    decreases |s.typeSets.Keys - path|, 0
  {
    if name in path then CYCLIC
    else
      PathGrows(s, name, path);
      var p := PlainNode(s, s.typeSets[name], path + {name}, depth + 1);
      p.(charge := p.charge + DomainSize(ParsedOf(p)), bounded := p.bounded && depth <= MAX_TYPE_SET_DEPTH)
  }

  lemma {:induction false} PathGrows(s: Schema, name: string, path: set<string>)
    requires name in s.typeSets && name !in path
    ensures |s.typeSets.Keys - (path + {name})| < |s.typeSets.Keys - path|
  {
    var before, after := s.typeSets.Keys - path, s.typeSets.Keys - (path + {name});
    assert name in before && after == before - {name};
  }

  // ---------- An order without forward references ----------

  ghost predicate ItemsWithin(s: Schema, items: seq<Node>, known: seq<string>) {
    (forall i :: 0 <= i < |items| ==> items[i].content.Some?) &&
    forall i :: 0 <= i < |items| && IsSetReference(s, items[i]) ==> items[i].content.value.local in known
  }

  /** Every type set that a description refers to is known, and every element has a name. */
  ghost predicate NodeWithin(s: Schema, node: Option<Node>, known: seq<string>) {
    node.Some? ==> ItemsWithin(s, Items(node.value), known)
  }

  /** Type sets in an order in which each refers to earlier ones alone. */
  ghost predicate Ordered(s: Schema, order: seq<string>) {
    && (forall i :: 0 <= i < |order| ==> order[i] in s.typeSets)
    && (forall i :: 0 <= i < |order| ==> order[i] !in order[..i] && NodeWithin(s, s.typeSets[order[i]], order[..i]))
  }

  ghost predicate Apart(path: set<string>, known: seq<string>) {
    forall x :: x in known ==> x !in path
  }

  /** The same expansion, and no cycle. */
  ghost predicate Same(p: Plain, q: Plain) {
    p.entries == q.entries && p.unresolved == q.unresolved && p.regular && q.regular
  }

  /** Plain recursion over ordered sets does not depend on where it comes from. */
  lemma {:induction false} StableItems(s: Schema, q: Qualifiers, items: seq<Node>, order: seq<string>, n: nat,
                                       p1: set<string>, d1: nat, p2: set<string>, d2: nat)
    requires Ordered(s, order) && n <= |order| && ItemsWithin(s, items, order[..n])
    requires Apart(p1, order[..n]) && Apart(p2, order[..n])
    ensures Same(PlainItems(s, q, items, p1, d1), PlainItems(s, q, items, p2, d2))
    decreases n, 1, |items|
  {
    hide PlainSet, EntryOf, Items, NodeWithin;
    if items != [] {
      var front, item := items[..|items| - 1], items[|items| - 1];
      StableItems(s, q, front, order, n, p1, d1, p2, d2);
      if IsSetReference(s, item) {
        var name := item.content.value.local;
        var i :| 0 <= i < n && order[..n][i] == name;
        ApartPrefix(p1, order, i + 1, n);
        ApartPrefix(p2, order, i + 1, n);
        StableSet(s, order, i, p1, d1 + 1, p2, d2 + 1);
      }
    }
  }

  lemma {:induction false} ApartPrefix(path: set<string>, order: seq<string>, i: nat, n: nat)
    requires i <= n <= |order| && Apart(path, order[..n])
    ensures Apart(path, order[..i])
  {
    assert order[..i] == order[..n][..i];
  }

  lemma {:induction false} StableSet(s: Schema, order: seq<string>, i: nat, p1: set<string>, d1: nat, p2: set<string>,
                                     d2: nat)
    requires Ordered(s, order) && i < |order| && Apart(p1, order[..i + 1]) && Apart(p2, order[..i + 1])
    ensures Same(PlainSet(s, order[i], p1, d1), PlainSet(s, order[i], p2, d2))
    decreases i + 1, 0, 0
  {
    hide PlainItems, Items, ItemsWithin, PlainItem;
    var name := order[i];
    assert order[..i + 1][i] == name;
    assert name !in p1 && name !in p2;
    ApartPrefix(p1, order, i, i + 1);
    ApartPrefix(p2, order, i, i + 1);
    if s.typeSets[name].Some? {
      var n := s.typeSets[name].value;
      StableItems(s, n.qualifiers, Items(n), order, i, p1 + {name}, d1 + 1, p2 + {name}, d2 + 1);
    }
  }

  /** A chain of references that starts in such an order never comes back. */
  lemma {:induction false} OrderedAcyclic(s: Schema, order: seq<string>, chain: seq<string>, i: nat) returns (j: nat)
    requires Ordered(s, order) && |chain| >= 2 && i < |order| && order[i] == chain[0]
    requires forall k, l :: 0 <= k && l == k + 1 && l < |chain| ==> RefersTo(s, chain[k], chain[l])
    ensures j < i && order[j] == chain[|chain| - 1] && chain[0] != chain[|chain| - 1]
    decreases |chain|
  {
    hide IsSetReference;
    assert RefersTo(s, chain[0], chain[1]);
    assert chain[1] in order[..i];
    var m :| 0 <= m < i && order[..i][m] == chain[1];
    if |chain| == 2 {
      j := m;
    } else {
      var rest := chain[1..];
      forall k, l | 0 <= k && l == k + 1 && l < |rest| ensures RefersTo(s, rest[k], rest[l]) {
        assert RefersTo(s, chain[k + 1], chain[l + 1]);
      }
      j := OrderedAcyclic(s, order, rest, m);
    }
    assert order[i] !in order[..i];
    assert order[..i][j] == order[j];
  }

  /** One type set refers to another. */
  ghost predicate RefersTo(s: Schema, name: string, other: string) {
    name in s.typeSets && s.typeSets[name].Some? &&
    exists k :: 0 <= k < |Items(s.typeSets[name].value)| && ReferenceTo(s, Items(s.typeSets[name].value)[k], other)
  }

  ghost predicate ReferenceTo(s: Schema, item: Node, other: string) {
    IsSetReference(s, item) && item.content.value.local == other
  }

  // ---------- What a domain means ----------

  /** An entry says what a name says, with the qualifiers beside it. */
  predicate StandsFor(s: Schema, q: Qualifiers, name: QName, e: Entry) {
    match e
    case BooleanEntry => name.uri == SchemaNs && name.local == "boolean"
    case StringEntry(length, variable) =>
      name.uri == SchemaNs && name.local == "string" && q.stringLength == length && q.stringVariable == variable
    case NumericEntry(digits, fraction, nonNegative) =>
      && name.uri == SchemaNs && name.local == "decimal"
      && q.digits == digits && q.fraction == fraction && q.nonNegative == nonNegative
    case DateEntry(date, time) => name.uri == SchemaNs && name.local == "dateTime" && q.date == date && q.time == time
    case BinaryEntry(length, variable) =>
      name.uri == SchemaNs && name.local == "base64Binary" && q.binaryLength == length && q.binaryVariable == variable
    case ValueListEntry => name.uri == CoreNs && name.local == "ValueList"
    case ValueTableEntry => name.uri == CoreNs && name.local == "ValueTable"
    case ValueTreeEntry => name.uri == CoreNs && name.local == "ValueTree"
    case ObjectEntry(typeId) => Generates(s, name, typeId, ObjectType)
    case ReferenceEntry(typeId) => Generates(s, name, typeId, RefType)
    case ListEntry(typeId) => Generates(s, name, typeId, ListType)
  }

  /** A name of the configuration stands for a generated type. */
  predicate Generates(s: Schema, name: QName, typeId: string, category: Category) {
    name.uri == ConfigNs && name.local in s.generated && s.generated[name.local] == Generated(typeId, category)
  }

  lemma {:induction false} EntryOfIff(s: Schema, q: Qualifiers, name: QName, e: Entry)
    ensures EntryOf(s, q, name) == Some(e) <==> StandsFor(s, q, name, e)
  {
  }

  /** How a domain comes about: an entry, or the entries of a type set. */
  datatype Tree = Leaf(entry: Entry) | Branch(name: string, parts: seq<Tree>)

  function Leaves(t: Tree): (r: seq<Entry>)
    decreases t
  {
    match t case Leaf(e) => [e] case Branch(_, parts) => LeavesOf(t, |parts|)
  }

  /** The entries of the first n parts. */
  function LeavesOf(t: Tree, n: nat): seq<Entry>
    requires t.Branch? && n <= |t.parts|
    decreases t, n
  {
    if n == 0 then [] else LeavesOf(t, n - 1) + Leaves(t.parts[n - 1])
  }

  /** A tree tells how a type element is read. */
  ghost predicate Fits(s: Schema, q: Qualifiers, item: Node, t: Tree)
    decreases t
  {
    item.content.Some? &&
    match t
    case Leaf(e) => item.kind != TypeSetElement && StandsFor(s, q, item.content.value, e)
    case Branch(name, parts) =>
      && item.kind == TypeSetElement && item.content.value.uri == ConfigNs && item.content.value.local == name
      && name in s.typeSets && s.typeSets[name].Some? && parts != []
      && |parts| == |Items(s.typeSets[name].value)|
      && forall k :: 0 <= k < |parts| ==>
           Fits(s, s.typeSets[name].value.qualifiers, Items(s.typeSets[name].value)[k], parts[k])
  }

  ghost predicate Reads(s: Schema, q: Qualifiers, item: Node) {
    exists t :: Fits(s, q, item, t)
  }

  /** One tree for every element, in their order. */
  ghost predicate FitsAll(s: Schema, q: Qualifiers, items: seq<Node>, t: Tree) {
    t.Branch? && |t.parts| == |items| && forall k :: 0 <= k < |items| ==> Fits(s, q, items[k], t.parts[k])
  }

  /** The last element that cannot be read. */
  ghost predicate LastUnread(s: Schema, q: Qualifiers, items: seq<Node>, k: nat) {
    && k < |items| && items[k].content.Some? && !Reads(s, q, items[k])
    && forall i :: k < i < |items| ==> Reads(s, q, items[i])
  }

  /** The meaning of what a parse returns: every element read, in document order; or the last that cannot be. */
  ghost predicate Means(s: Schema, node: Option<Node>, r: Parsed) {
    match node
    case None => r == Parsed(None, None)
    case Some(n) =>
      var items, q := Items(n), n.qualifiers;
      match r
      case Parsed(Some(d), None) => items != [] && exists t :: FitsAll(s, q, items, t) && Leaves(t) == d
      case Parsed(None, None) => items == []
      case Parsed(None, Some(name)) =>
        exists k: nat :: LastUnread(s, q, items, k) && items[k].content.value.written == name
      case Parsed(Some(_), Some(_)) => false
  }

  lemma {:induction false} LeavesSome(s: Schema, q: Qualifiers, item: Node, t: Tree)
    requires Fits(s, q, item, t)
    ensures Leaves(t) != []
    decreases t
  {
    if t.Branch? {
      var n := s.typeSets[t.name].value;
      assert Fits(s, n.qualifiers, Items(n)[|t.parts| - 1], t.parts[|t.parts| - 1]);
      LeavesSome(s, n.qualifiers, Items(n)[|t.parts| - 1], t.parts[|t.parts| - 1]);
    }
  }

  /** There is one way to read an element. */
  lemma {:induction false} FitsOnce(s: Schema, q: Qualifiers, item: Node, t: Tree, t': Tree)
    requires Fits(s, q, item, t) && Fits(s, q, item, t')
    ensures t == t'
    decreases t
  {
    hide Items;
    match t {
      case Leaf(e) =>
        EntryOfIff(s, q, item.content.value, e);
        EntryOfIff(s, q, item.content.value, t'.entry);
      case Branch(name, parts) =>
        var n := s.typeSets[name].value;
        forall k | 0 <= k < |parts| ensures parts[k] == t'.parts[k] {
          FitsOnce(s, n.qualifiers, Items(n)[k], parts[k], t'.parts[k]);
        }
    }
  }

  /** A description has one meaning. */
  lemma {:induction false} MeansOnce(s: Schema, node: Option<Node>, r: Parsed, r': Parsed)
    requires Means(s, node, r) && Means(s, node, r')
    ensures r == r'
  {
    hide Items, Fits, Reads, FitsAll, Leaves;
    if node.Some? {
      var items, q := Items(node.value), node.value.qualifiers;
      if r.domain.Some? {
        var t :| FitsAll(s, q, items, t) && Leaves(t) == r.domain.value;
        AllRead(s, q, items, t);
        if r'.domain.Some? {
          var t' :| FitsAll(s, q, items, t') && Leaves(t') == r'.domain.value;
          SameLeaves(s, q, items, t, t');
        }
      } else if r'.domain.Some? {
        var t' :| FitsAll(s, q, items, t') && Leaves(t') == r'.domain.value;
        AllRead(s, q, items, t');
      } else if r.unresolved.Some? && r'.unresolved.Some? {
        var k: nat :| LastUnread(s, q, items, k) && items[k].content.value.written == r.unresolved.value;
        var k': nat :| LastUnread(s, q, items, k') && items[k'].content.value.written == r'.unresolved.value;
        OneLast(s, q, items, k, k');
      }
    }
  }

  lemma {:induction false} OneLast(s: Schema, q: Qualifiers, items: seq<Node>, k: nat, k': nat)
    requires LastUnread(s, q, items, k) && LastUnread(s, q, items, k')
    ensures k == k'
  {
    hide Reads;
  }

  lemma {:induction false} AllRead(s: Schema, q: Qualifiers, items: seq<Node>, t: Tree)
    requires FitsAll(s, q, items, t)
    ensures forall k :: !LastUnread(s, q, items, k)
  {
    hide Fits;
  }

  lemma {:induction false} SameLeaves(s: Schema, q: Qualifiers, items: seq<Node>, t: Tree, t': Tree)
    requires FitsAll(s, q, items, t) && FitsAll(s, q, items, t')
    ensures Leaves(t) == Leaves(t')
  {
    hide Fits, Leaves;
    forall k | 0 <= k < |items| ensures t.parts[k] == t'.parts[k] {
      FitsOnce(s, q, items[k], t.parts[k], t'.parts[k]);
    }
    assert t.parts == t'.parts;
    LeavesByParts(t, t', |t.parts|);
  }

  lemma {:induction false} LeavesByParts(t: Tree, t': Tree, n: nat)
    requires t.Branch? && t'.Branch? && n <= |t.parts| && n <= |t'.parts|
    requires forall k :: 0 <= k < n ==> t.parts[k] == t'.parts[k]
    ensures LeavesOf(t, n) == LeavesOf(t', n)
    ensures n == |t.parts| == |t'.parts| ==> Leaves(t) == Leaves(t')
  {
    if n > 0 { LeavesByParts(t, t', n - 1); }
  }

  /** One more part. */
  lemma {:induction false} LeavesSnoc(t: Tree, last: Tree, name: string)
    requires t.Branch?
    ensures Leaves(Branch(name, t.parts + [last])) == Leaves(t) + Leaves(last)
  {
    var more := Branch(name, t.parts + [last]);
    LeavesByParts(t, more, |t.parts|);
    assert more.parts[|t.parts|] == last;
  }

  /** What plain recursion makes of one element: the entries of its tree, or an unresolved name if it has none. */
  lemma {:induction false} ItemMeans(s: Schema, q: Qualifiers, before: Plain, item: Node, path: set<string>, depth: nat)
    requires PlainItem(s, q, before, item, path, depth).regular
    ensures var p := PlainItem(s, q, before, item, path, depth);
            && item.content.Some? && before.regular
            && (p.unresolved == if Reads(s, q, item) then before.unresolved else Some(item.content.value.written))
            && (!Reads(s, q, item) ==> p.entries == before.entries)
            && (forall t :: Fits(s, q, item, t) ==> p.entries == before.entries + Leaves(t))
    decreases |s.typeSets.Keys - path|, 1
  {
    hide PlainSet, EntryOf, Items;
    if IsSetReference(s, item) {
      SetMeans(s, item.content.value.local, path, depth + 1);
      SetItemMeans(s, q, before, item, path, depth);
    } else {
      NameMeans(s, q, item);
    }
  }

  lemma {:induction false} NameMeans(s: Schema, q: Qualifiers, item: Node)
    requires item.content.Some? && !IsSetReference(s, item)
    ensures Reads(s, q, item) <==> item.kind != TypeSetElement && EntryOf(s, q, item.content.value).Some?
    ensures forall t :: Fits(s, q, item, t) ==>
              t.Leaf? && EntryOf(s, q, item.content.value) == Some(t.entry) && Leaves(t) == [t.entry]
  {
    hide EntryOf, StandsFor, Items;
    forall t | Fits(s, q, item, t)
      ensures t.Leaf? && EntryOf(s, q, item.content.value) == Some(t.entry) && Leaves(t) == [t.entry]
    {
      EntryOfIff(s, q, item.content.value, t.entry);
    }
    var e := EntryOf(s, q, item.content.value);
    if item.kind != TypeSetElement && e.Some? {
      EntryOfIff(s, q, item.content.value, e.value);
      assert Fits(s, q, item, Leaf(e.value));
    }
  }

  lemma {:induction false} SetItemMeans(s: Schema, q: Qualifiers, before: Plain, item: Node, path: set<string>,
                                        depth: nat)
    requires IsSetReference(s, item)
    requires Means(s, s.typeSets[item.content.value.local], ParsedOf(PlainSet(s, item.content.value.local, path, depth + 1)))
    ensures var p := PlainItem(s, q, before, item, path, depth);
            && (p.unresolved == if Reads(s, q, item) then before.unresolved else Some(item.content.value.written))
            && (!Reads(s, q, item) ==> p.entries == before.entries)
            && (forall t :: Fits(s, q, item, t) ==> p.entries == before.entries + Leaves(t))
  {
    hide PlainSet, ParsedOf, Leaves;
    var name := item.content.value.local;
    var r := ParsedOf(PlainSet(s, name, path, depth + 1));
    ReferenceReads(s, q, item, r);
  }

  /** A reference to a type set can be read exactly if the set has a domain, which is then what it gives. */
  lemma {:induction false} ReferenceReads(s: Schema, q: Qualifiers, item: Node, r: Parsed)
    requires IsSetReference(s, item) && Means(s, s.typeSets[item.content.value.local], r)
    ensures Reads(s, q, item) <==> r.domain.Some?
    ensures forall t :: Fits(s, q, item, t) ==> r.domain == Some(Leaves(t))
  {
    hide Items, Leaves, StandsFor;
    var name := item.content.value.local;
    if s.typeSets[name].Some? {
      var n := s.typeSets[name].value;
      if r.domain.Some? {
        var t :| FitsAll(s, n.qualifiers, Items(n), t) && Leaves(t) == r.domain.value;
        assert Fits(s, q, item, Branch(name, t.parts));
      }
      forall t | Fits(s, q, item, t) ensures r.domain == Some(Leaves(t)) {
        assert FitsAll(s, n.qualifiers, Items(n), t);
        assert Means(s, s.typeSets[name], Parsed(Some(Leaves(t)), None));
        MeansOnce(s, s.typeSets[name], r, Parsed(Some(Leaves(t)), None));
      }
    }
  }

  lemma {:induction false} ItemsMean(s: Schema, q: Qualifiers, items: seq<Node>, path: set<string>, depth: nat)
    requires PlainItems(s, q, items, path, depth).regular
    ensures var p := PlainItems(s, q, items, path, depth);
            match p.unresolved
            case None => exists t :: FitsAll(s, q, items, t) && Leaves(t) == p.entries
            case Some(name) => exists k: nat :: LastUnread(s, q, items, k) && items[k].content.value.written == name
    decreases |s.typeSets.Keys - path|, 2, |items|
  {
    hide PlainItem, Fits, Reads, Leaves;
    if items == [] {
      NoLeaves(s, q);
    } else {
      var front, item := items[..|items| - 1], items[|items| - 1];
      var before := PlainItems(s, q, front, path, depth);
      ItemMeans(s, q, before, item, path, depth);
      ItemsMean(s, q, front, path, depth);
      ItemsMeanStep(s, q, items, before, PlainItem(s, q, before, item, path, depth));
    }
  }

  lemma {:induction false} NoLeaves(s: Schema, q: Qualifiers)
    ensures FitsAll(s, q, [], Branch("", [])) && Leaves(Branch("", [])) == []
  {
  }

  lemma {:induction false} ItemsMeanStep(s: Schema, q: Qualifiers, items: seq<Node>, before: Plain, p: Plain)
    requires items != [] && items[|items| - 1].content.Some?
    requires match before.unresolved
             case None => exists t :: FitsAll(s, q, items[..|items| - 1], t) && Leaves(t) == before.entries
             case Some(name) =>
               exists k: nat :: LastUnread(s, q, items[..|items| - 1], k) && items[k].content.value.written == name
    requires var item := items[|items| - 1];
             && (p.unresolved == if Reads(s, q, item) then before.unresolved else Some(item.content.value.written))
             && (forall t :: Fits(s, q, item, t) ==> p.entries == before.entries + Leaves(t))
    ensures match p.unresolved
            case None => exists t :: FitsAll(s, q, items, t) && Leaves(t) == p.entries
            case Some(name) => exists k: nat :: LastUnread(s, q, items, k) && items[k].content.value.written == name
  {
    hide Fits, Leaves;
    var front, item := items[..|items| - 1], items[|items| - 1];
    if !Reads(s, q, item) {
      assert LastUnread(s, q, items, |items| - 1);
    } else if before.unresolved.None? {
      var t :| FitsAll(s, q, front, t) && Leaves(t) == before.entries;
      var last :| Fits(s, q, item, last);
      LeavesSnoc(t, last, "");
      assert FitsAll(s, q, items, Branch("", t.parts + [last]));
    } else {
      var k: nat :| LastUnread(s, q, front, k) && items[k].content.value.written == before.unresolved.value;
      hide Reads;
      assert LastUnread(s, q, items, k);
    }
  }

  /** Plain recursion on a regular description gives its meaning, whatever path led there. */
  lemma {:induction false} NodeMeans(s: Schema, node: Option<Node>, path: set<string>, depth: nat)
    requires PlainNode(s, node, path, depth).regular
    ensures Means(s, node, ParsedOf(PlainNode(s, node, path, depth)))
    decreases |s.typeSets.Keys - path|, 3
  {
    hide PlainItems, Items, Fits, LastUnread, Leaves;
    if node.Some? {
      var n := node.value;
      ItemsMean(s, n.qualifiers, Items(n), path, depth);
      var p := PlainItems(s, n.qualifiers, Items(n), path, depth);
      if p.unresolved.None? {
        var t :| FitsAll(s, n.qualifiers, Items(n), t) && Leaves(t) == p.entries;
        if Items(n) == [] { NoParts(t); } else { FirstPart(s, n.qualifiers, Items(n), t); }
      }
    }
  }

  lemma {:induction false} NoParts(t: Tree)
    requires t.Branch? && t.parts == []
    ensures Leaves(t) == []
  {
  }

  lemma {:induction false} FirstPart(s: Schema, q: Qualifiers, items: seq<Node>, t: Tree)
    requires FitsAll(s, q, items, t) && items != []
    ensures Leaves(t) != []
  {
    LeavesSome(s, q, items[|items| - 1], t.parts[|items| - 1]);
  }

  lemma {:induction false} SetMeans(s: Schema, name: string, path: set<string>, depth: nat)
    requires name in s.typeSets && PlainSet(s, name, path, depth).regular
    ensures Means(s, s.typeSets[name], ParsedOf(PlainSet(s, name, path, depth)))
    decreases |s.typeSets.Keys - path|, 0
  {
    hide PlainNode, Means;
    PathGrows(s, name, path);
    NodeMeans(s, s.typeSets[name], path + {name}, depth + 1);
  }

  // ---------- Expansion with a memo ----------

  /** What the parser does with a memo: the names it then knows, what it charges, and whether neither a
      cycle nor a limit other than the shared budget stops it. */
  datatype Walk = Walk(known: seq<string>, charge: nat, ok: bool)

  /** The size of a type set's domain. */
  function SetSize(s: Schema, name: string, path: set<string>, depth: nat): nat
    requires name in s.typeSets
  {
    DomainSize(ParsedOf(PlainSet(s, name, path, depth)))
  }

  /** One type element, when those before it gave n entries. */
  function WalkItem(s: Schema, q: Qualifiers, w: Walk, n: nat, item: Node, path: set<string>, depth: nat): Walk
    decreases |s.typeSets.Keys - path|, 1
  {
    match item.content
    case None => w.(ok := false)
    case Some(name) =>
      if IsSetReference(s, item) then
        var inner := WalkSet(s, name.local, path, depth + 1, w.known);
        var size := SetSize(s, name.local, path, depth + 1);
        Walk(inner.known, w.charge + inner.charge + size, w.ok && inner.ok && n + size <= MAX_DOMAIN_ENTRIES)
      else if item.kind == TypeSetElement || EntryOf(s, q, name).None? then w
      else w.(charge := w.charge + 1, ok := w.ok && n < MAX_DOMAIN_ENTRIES)
  }

  function WalkItems(s: Schema, q: Qualifiers, items: seq<Node>, path: set<string>, depth: nat, known: seq<string>): Walk
    decreases |s.typeSets.Keys - path|, 2, |items|
  {
    if items == [] then Walk(known, 0, true)
    else
      var front := items[..|items| - 1];
      WalkItem(s, q, WalkItems(s, q, front, path, depth, known), |PlainItems(s, q, front, path, depth).entries|,
               items[|items| - 1], path, depth)
  }

  function WalkNode(s: Schema, node: Option<Node>, path: set<string>, depth: nat, known: seq<string>): Walk
    decreases |s.typeSets.Keys - path|, 3
  {
    match node
    case None => Walk(known, 0, true)
    case Some(n) =>
      var w := WalkItems(s, n.qualifiers, Items(n), path, depth, known);
      w.(ok := w.ok && Traversable(n))
  }

  /** A known set is charged its domain; any other is expanded and then known. */
  function WalkSet(s: Schema, name: string, path: set<string>, depth: nat, known: seq<string>): Walk
    requires name in s.typeSets
    decreases |s.typeSets.Keys - path|, 0
  {
    if name in known then Walk(known, SetSize(s, name, path, depth), true)
    else if depth > MAX_TYPE_SET_DEPTH || name in path then Walk(known, 0, false)
    else
      PathGrows(s, name, path);
      var w := WalkNode(s, s.typeSets[name], path + {name}, depth + 1, known);
      Walk(w.known + [name], w.charge + SetSize(s, name, path, depth), w.ok)
  }

  ghost predicate Prolongs(w: Walk, w': Walk) {
    w.charge <= w'.charge && (w'.ok ==> w.ok)
  }

  lemma {:induction false} WalkProlongs(s: Schema, q: Qualifiers, items: seq<Node>, i: nat, path: set<string>,
                                        depth: nat, known: seq<string>)
    requires i <= |items|
    ensures Prolongs(WalkItems(s, q, items[..i], path, depth, known), WalkItems(s, q, items, path, depth, known))
    decreases |items| - i
  {
    hide WalkItem, PlainItems;
    if i == |items| {
      assert items[..i] == items;
    } else {
      WalkProlongs(s, q, items, i + 1, path, depth, known);
      assert items[..i + 1][..i] == items[..i];
      WalkItemProlongs(s, q, WalkItems(s, q, items[..i], path, depth, known),
                       |PlainItems(s, q, items[..i], path, depth).entries|, items[i], path, depth);
    }
  }

  lemma {:induction false} WalkItemProlongs(s: Schema, q: Qualifiers, w: Walk, n: nat, item: Node, path: set<string>,
                                            depth: nat)
    ensures Prolongs(w, WalkItem(s, q, w, n, item, path, depth))
  {
    hide WalkSet, SetSize, EntryOf;
  }

  // ---------- Plain recursion is the worst case ----------

  lemma {:induction false} PlainItemsWorst(s: Schema, q: Qualifiers, items: seq<Node>, path: set<string>, depth: nat,
                                           known: seq<string>)
    requires Apart(path, known)
    ensures var p, w := PlainItems(s, q, items, path, depth), WalkItems(s, q, items, path, depth, known);
            Apart(path, w.known) && (p.regular && p.bounded ==> w.ok && w.charge <= p.charge)
    decreases |s.typeSets.Keys - path|, 2, |items|
  {
    hide PlainSet, WalkSet, EntryOf;
    if items != [] {
      var front, item := items[..|items| - 1], items[|items| - 1];
      PlainItemsWorst(s, q, front, path, depth, known);
      var w := WalkItems(s, q, front, path, depth, known);
      if IsSetReference(s, item) { PlainSetWorst(s, item.content.value.local, path, depth + 1, w.known); }
    }
  }

  /** Where plain recursion meets no cycle and stays within every limit, so does the memo, and charges no more. */
  lemma {:induction false} PlainSetWorst(s: Schema, name: string, path: set<string>, depth: nat, known: seq<string>)
    requires name in s.typeSets && Apart(path, known)
    ensures var p, w := PlainSet(s, name, path, depth), WalkSet(s, name, path, depth, known);
            Apart(path, w.known) && (p.regular && p.bounded ==> w.ok && w.charge <= p.charge)
    decreases |s.typeSets.Keys - path|, 0
  {
    hide PlainNode, WalkNode;
    if name !in known && name !in path {
      PathGrows(s, name, path);
      PlainNodeWorst(s, s.typeSets[name], path + {name}, depth + 1, known);
    }
  }

  lemma {:induction false} PlainNodeWorst(s: Schema, node: Option<Node>, path: set<string>, depth: nat,
                                          known: seq<string>)
    requires Apart(path, known)
    ensures var p, w := PlainNode(s, node, path, depth), WalkNode(s, node, path, depth, known);
            Apart(path, w.known) && (p.regular && p.bounded ==> w.ok && w.charge <= p.charge)
    decreases |s.typeSets.Keys - path|, 3
  {
    hide PlainItems, WalkItems, Items, Traversable;
    if node.Some? {
      PlainItemsWorst(s, node.value.qualifiers, Items(node.value), path, depth, known);
    }
  }

  // ---------- Every type set is charged for once ----------

  /** A type element by itself: an entry is charged once, a reference twice the size of the domain it names. */
  function OwnItem(s: Schema, q: Qualifiers, item: Node): nat {
    if IsSetReference(s, item) then 2 * SetSize(s, item.content.value.local, {}, 0)
    else if item.kind == TypeSetElement || item.content.None? || EntryOf(s, q, item.content.value).None? then 0
    else 1
  }

  function OwnItems(s: Schema, q: Qualifiers, items: seq<Node>): nat {
    if items == [] then 0
    else OwnItems(s, q, items[..|items| - 1]) + OwnItem(s, q, items[|items| - 1])
  }

  function OwnNode(s: Schema, node: Option<Node>): nat {
    match node case None => 0 case Some(n) => OwnItems(s, n.qualifiers, Items(n))
  }

  /** The type elements of all these sets. */
  function OwnAll(s: Schema, names: seq<string>): nat {
    if names == [] then 0
    else
      var name := names[|names| - 1];
      OwnAll(s, names[..|names| - 1]) + (if name in s.typeSets then OwnNode(s, s.typeSets[name]) else 0)
  }

  lemma {:induction false} OwnAllConcat(s: Schema, a: seq<string>, b: seq<string>)
    ensures OwnAll(s, a + b) == OwnAll(s, a) + OwnAll(s, b)
  {
    hide OwnNode;
    if b == [] {
      assert a + b == a;
    } else {
      assert (a + b)[..|a + b| - 1] == a + b[..|b| - 1];
      OwnAllConcat(s, a, b[..|b| - 1]);
    }
  }

  lemma {:induction false} OwnAllSuffix(s: Schema, a: seq<string>, b: seq<string>, c: seq<string>)
    requires a <= b <= c
    ensures OwnAll(s, c[|a|..]) == OwnAll(s, b[|a|..]) + OwnAll(s, c[|b|..])
  {
    hide OwnAll;
    assert c[|a|..] == b[|a|..] + c[|b|..];
    OwnAllConcat(s, b[|a|..], c[|b|..]);
  }

  /** The names that are new after a walk, each charged for its own elements once. */
  ghost predicate ChargedOnce(s: Schema, known: seq<string>, w: Walk, own: nat) {
    known <= w.known && w.charge == own + OwnAll(s, w.known[|known|..])
  }

  lemma {:induction false} WalkItemsOnce(s: Schema, q: Qualifiers, items: seq<Node>, path: set<string>, depth: nat,
                                         known: seq<string>)
    requires Ordered(s, known) && Apart(path, known)
    ensures var w := WalkItems(s, q, items, path, depth, known);
            w.ok ==> Apart(path, w.known) && Ordered(s, w.known) && ItemsWithin(s, items, w.known) &&
                     ChargedOnce(s, known, w, OwnItems(s, q, items))
    decreases |s.typeSets.Keys - path|, 2, |items|
  {
    hide Ordered, Apart, WalkSet, SetSize, EntryOf, ItemsWithin, OwnAll, PlainItems;
    if items == [] {
      NothingOwned(s, known);
    } else if WalkItems(s, q, items, path, depth, known).ok {
      var front, item := items[..|items| - 1], items[|items| - 1];
      var w0, w := WalkItems(s, q, front, path, depth, known), WalkItems(s, q, items, path, depth, known);
      WalkItemsOnce(s, q, front, path, depth, known);
      WalkItemProlongs(s, q, w0, |PlainItems(s, q, front, path, depth).entries|, item, path, depth);
      if IsSetReference(s, item) {
        WalkSetOnce(s, item.content.value.local, path, depth + 1, w0.known);
        OwnAllSuffix(s, known, w0.known, w.known);
      }
      WithinOne(s, item, w.known);
      assert items[..|items|] == items;
      WithinSnoc(s, items, |items| - 1, w0.known, w.known);
    }
  }

  lemma {:induction false} NothingOwned(s: Schema, known: seq<string>)
    ensures OwnAll(s, known[|known|..]) == 0 && ItemsWithin(s, [], known)
  {
  }

  lemma {:induction false} WithinOne(s: Schema, item: Node, known: seq<string>)
    requires item.content.Some? && (IsSetReference(s, item) ==> item.content.value.local in known)
    ensures ItemsWithin(s, [item], known)
  {
  }

  lemma {:induction false} WalkSetOnce(s: Schema, name: string, path: set<string>, depth: nat, known: seq<string>)
    requires name in s.typeSets && Ordered(s, known) && Apart(path, known)
    ensures var w := WalkSet(s, name, path, depth, known);
            w.ok ==> Apart(path, w.known) && Ordered(s, w.known) && name in w.known &&
                     SetSize(s, name, path, depth) == SetSize(s, name, {}, 0) &&
                     ChargedOnce(s, known, w, SetSize(s, name, {}, 0))
    decreases |s.typeSets.Keys - path|, 0
  {
    hide Ordered, Apart, WalkNode, SetSize, OwnNode, NodeWithin, OwnAll;
    var w := WalkSet(s, name, path, depth, known);
    if name in known {
      NothingOwned(s, known);
      SizeStable(s, name, path, depth, known);
    } else if w.ok {
      PathGrows(s, name, path);
      var inner := WalkNode(s, s.typeSets[name], path + {name}, depth + 1, known);
      ApartSnoc(path, known, name);
      WalkNodeOnce(s, s.typeSets[name], path + {name}, depth + 1, known);
      ApartBoth(path, inner.known, name);
      OrderedSnoc(s, inner.known, name);
      SizeStable(s, name, path, depth, w.known);
      OwnAllSuffix(s, known, inner.known, w.known);
      OwnAllOne(s, inner.known, name);
    }
  }

  lemma {:induction false} OwnAllOne(s: Schema, known: seq<string>, name: string)
    requires name in s.typeSets
    ensures OwnAll(s, (known + [name])[|known|..]) == OwnNode(s, s.typeSets[name])
  {
    hide OwnNode;
    assert (known + [name])[|known|..] == [name];
    assert [name][..0] == [];
  }

  lemma {:induction false} ApartBoth(path: set<string>, known: seq<string>, name: string)
    requires Apart(path + {name}, known) && name !in path
    ensures Apart(path, known + [name]) && name !in known
  {
    assert name in path + {name};
  }

  lemma {:induction false} SizeStable(s: Schema, name: string, path: set<string>, depth: nat, known: seq<string>)
    requires Ordered(s, known) && Apart(path, known) && name in known && name in s.typeSets
    ensures SetSize(s, name, path, depth) == SetSize(s, name, {}, 0)
  {
    hide PlainSet, Ordered;
    var i :| 0 <= i < |known| && known[i] == name;
    assert known[..|known|] == known;
    ApartPrefix(path, known, i + 1, |known|);
    StableSet(s, known, i, path, depth, {}, 0);
  }

  /** Expanding a description charges for its own elements, and for those of every set that was not known
      before: once each, however many references lead there and wherever they stand. */
  lemma {:induction false} WalkNodeOnce(s: Schema, node: Option<Node>, path: set<string>, depth: nat, known: seq<string>)
    requires Ordered(s, known) && Apart(path, known)
    ensures var w := WalkNode(s, node, path, depth, known);
            w.ok ==> Apart(path, w.known) && Ordered(s, w.known) && NodeWithin(s, node, w.known) &&
                     ChargedOnce(s, known, w, OwnNode(s, node))
    decreases |s.typeSets.Keys - path|, 3
  {
    hide Ordered, Apart, WalkItems, ItemsWithin, OwnItems, OwnAll, Items, Traversable;
    match node
    case None => NothingOwned(s, known);
    case Some(n) => WalkItemsOnce(s, n.qualifiers, Items(n), path, depth, known);
  }

  // ---------- The parser ----------

  class TypeParser {
    const schema: Schema
    var stack: seq<string>
    var memo: map<string, Parsed>
    var expanded: nat
    /** The names in the memo, in the order in which they got there. */
    ghost var order: seq<string>

    constructor (schema: Schema)
      ensures Valid() && this.schema == schema && stack == [] && expanded == 0
    {
      this.schema := schema;
      stack, memo, expanded, order := [], map[], 0, [];
    }

    /** The memo holds plain expansions, and no set that is still being expanded. */
    ghost predicate Valid()
      reads this
    {
      && Ordered(schema, order) && expanded <= MAX_EXPANDED_ENTRIES
      && (forall x :: x in memo <==> x in order) && Apart(Elements(stack), order)
      && forall x :: x in order ==> Remembered(x)
    }

    ghost predicate Remembered(x: string)
      reads this
    {
      x in memo && x in schema.typeSets && memo[x] == ParsedOf(PlainSet(schema, x, {}, 0))
    }

    method Charge(count: nat) returns (ok: bool)
      requires expanded <= MAX_EXPANDED_ENTRIES
      modifies this`expanded
      ensures ok <==> old(expanded) + count <= MAX_EXPANDED_ENTRIES
      ensures expanded == if ok then old(expanded) + count else old(expanded)
    {
      var room: nat := MAX_EXPANDED_ENTRIES - expanded;
      if count > room { return false; }
      expanded := expanded + count;
      ok := true;
    }

    method AppendEntries(domain: seq<Entry>, addition: seq<Entry>) returns (r: Option<seq<Entry>>)
      requires expanded <= MAX_EXPANDED_ENTRIES && |domain| <= MAX_DOMAIN_ENTRIES
      modifies this`expanded
      ensures expanded <= MAX_EXPANDED_ENTRIES
      ensures r.Some? <==> |domain| + |addition| <= MAX_DOMAIN_ENTRIES && old(expanded) + |addition| <= MAX_EXPANDED_ENTRIES
      ensures r.Some? ==> r.value == domain + addition && expanded == old(expanded) + |addition|
    {
      var room: nat := MAX_DOMAIN_ENTRIES - |domain|;
      if |addition| > room { return None; }
      var ok := Charge(|addition|);
      r := if ok then Some(domain + addition) else None;
    }

    /** Expands a type set by name; None stands for the exception. It succeeds exactly if the expansion
        with the memo does and its charge fits the shared budget; plain recursion then agrees and met no cycle. */
    method ParseTypeSet(name: string, depth: nat) returns (r: Option<Parsed>)
      requires Valid()
      modifies this
      ensures name !in schema.typeSets ==> r == Some(Parsed(None, Some(name))) && Valid() && stack == old(stack) &&
                                           order == old(order) && expanded == old(expanded)
      ensures r.Some? ==> Valid() && stack == old(stack) && old(order) <= order
      ensures r.Some? && name in schema.typeSets ==>
                var p := PlainSet(schema, name, Elements(old(stack)), depth);
                name in order && p.regular && r.value == ParsedOf(p) && Means(schema, schema.typeSets[name], r.value)
      ensures name in schema.typeSets ==>
                var w := WalkSet(schema, name, Elements(old(stack)), depth, old(order));
                (r.Some? <==> w.ok && old(expanded) + w.charge <= MAX_EXPANDED_ENTRIES) &&
                (r.Some? ==> order == w.known && expanded == old(expanded) + w.charge)
      decreases if depth > MAX_TYPE_SET_DEPTH then 0 else MAX_TYPE_SET_DEPTH + 1 - depth, 0
    {
      hide PlainNode, PlainSet, WalkSet, WalkNode, Ordered, ParsedOf, Elements, SetSize, Means;
      if name !in schema.typeSets { return Some(Parsed(None, Some(name))); }
      ghost var path := Elements(stack);
      WalkSetIs(schema, name, path, depth, order);
      if name in memo {
        var cached := memo[name];
        RememberedSet(name, depth);
        if cached.domain.Some? {
          var ok := Charge(|cached.domain.value|);
          if !ok { return None; }
        }
        return Some(cached);
      }
      PlainSetIs(schema, name, path, depth);
      ElementsMeans(stack, name);
      if depth > MAX_TYPE_SET_DEPTH || name in stack { return None; }
      ghost var before := stack;
      stack := stack + [name];
      ElementsSnoc(before, name);
      ApartSnoc(path, order, name);
      var result := ParseTypeNode(schema.typeSets[name], depth + 1);
      if result.None? { return None; }
      stack := stack[..|stack| - 1];
      assert stack == before;
      if result.value.domain.Some? {
        var ok := Charge(|result.value.domain.value|);
        if !ok { return None; }
      }
      ghost var order1 := order;
      memo := memo[name := result.value];
      order := order + [name];
      Memoised(order1, name, path, depth);
      r := Some(result.value);
    }

    /** A remembered set: its plain expansion from here is the remembered one. */
    lemma {:induction false} RememberedSet(name: string, depth: nat)
      requires Valid() && name in memo
      ensures var p := PlainSet(schema, name, Elements(stack), depth);
              p.regular && memo[name] == ParsedOf(p) && Means(schema, schema.typeSets[name], memo[name])
    {
      hide PlainNode, Ordered, Means;
      var i :| 0 <= i < |order| && order[i] == name;
      assert Remembered(name);
      assert order[..|order|] == order;
      ApartPrefix(Elements(stack), order, i + 1, |order|);
      StableSet(schema, order, i, Elements(stack), depth, {}, 0);
      SetMeans(schema, name, Elements(stack), depth);
    }

    /** Remembering one more set keeps the order and what is remembered. */
    lemma {:induction false} Memoised(order1: seq<string>, name: string, path: set<string>, depth: nat)
      requires Ordered(schema, order1) && order == order1 + [name] && name in schema.typeSets && name !in order1
      requires NodeWithin(schema, schema.typeSets[name], order1) && Apart(path, order1) && name !in path
      requires name in memo && PlainSet(schema, name, path, depth).regular
      requires memo[name] == ParsedOf(PlainSet(schema, name, path, depth))
      ensures Ordered(schema, order) && Remembered(name) && Apart(path, order)
    {
      hide PlainNode, PlainSet, NodeWithin;
      OrderedSnoc(schema, order1, name);
      var i := |order1|;
      assert order[i] == name && order[..i + 1] == order;
      assert Apart(path, order) && Apart({}, order);
      StableSet(schema, order, i, path, depth, {}, 0);
    }

    /** Expands a type description. */
    method ParseTypeNode(node: Option<Node>, depth: nat) returns (r: Option<Parsed>)
      requires Valid()
      modifies this
      ensures r.Some? ==> Valid() && stack == old(stack) && old(order) <= order
      ensures r.Some? ==>
                var p := PlainNode(schema, node, Elements(old(stack)), depth);
                NodeWithin(schema, node, order) && p.regular && r.value == ParsedOf(p) && Means(schema, node, r.value)
      ensures var w := WalkNode(schema, node, Elements(old(stack)), depth, old(order));
              (r.Some? <==> w.ok && old(expanded) + w.charge <= MAX_EXPANDED_ENTRIES) &&
              (r.Some? ==> order == w.known && expanded == old(expanded) + w.charge)
      decreases if depth > MAX_TYPE_SET_DEPTH then 0 else MAX_TYPE_SET_DEPTH + 1 - depth, 3
    {
      hide PlainItems, PlainItem, WalkItems, Ordered, Traversable, Items, ItemsWithin, Elements, Means;
      ghost var path := Elements(stack);
      if node.None? {
        NodeMeans(schema, node, path, depth);
        return Some(Parsed(None, None));
      }
      var n := node.value;
      var items := CollectItems(n);
      if items.None? { return None; }
      var result := ParseItems(n.qualifiers, items.value, depth);
      if result.None? { return None; }
      var (domain, unresolved) := result.value;
      NodeMeans(schema, node, path, depth);
      if unresolved.Some? { return Some(Parsed(None, unresolved)); }
      if domain == [] { return Some(Parsed(None, None)); }
      r := Some(Parsed(Some(domain), None));
    }

    method ParseItems(q: Qualifiers, items: seq<Node>, depth: nat) returns (r: Option<(seq<Entry>, Option<string>)>)
      requires Valid()
      modifies this
      ensures r.Some? ==> Valid() && stack == old(stack) && old(order) <= order
      ensures r.Some? ==>
                var p := PlainItems(schema, q, items, Elements(old(stack)), depth);
                ItemsWithin(schema, items, order) && p.regular && r.value == (p.entries, p.unresolved)
      ensures var w := WalkItems(schema, q, items, Elements(old(stack)), depth, old(order));
              (r.Some? <==> w.ok && old(expanded) + w.charge <= MAX_EXPANDED_ENTRIES) &&
              (r.Some? ==> order == w.known && expanded == old(expanded) + w.charge)
      decreases if depth > MAX_TYPE_SET_DEPTH then 0 else MAX_TYPE_SET_DEPTH + 1 - depth, 2
    {
      hide PlainItem, WalkItem, Ordered, Elements;
      ghost var path, known := Elements(stack), order;
      var domain: seq<Entry>, unresolved: Option<string> := [], None;
      var i := 0;
      while i < |items|
        invariant 0 <= i <= |items| && Valid() && stack == old(stack) && old(order) <= order
        invariant ItemsWithin(schema, items[..i], order) && |domain| <= MAX_DOMAIN_ENTRIES
        invariant var p := PlainItems(schema, q, items[..i], path, depth);
                  p.regular && domain == p.entries && unresolved == p.unresolved
        invariant var w := WalkItems(schema, q, items[..i], path, depth, known);
                  w.ok && order == w.known && expanded == old(expanded) + w.charge
      {
        ghost var before := PlainItems(schema, q, items[..i], path, depth);
        ghost var w := WalkItems(schema, q, items[..i], path, depth, known);
        WalkProlongs(schema, q, items, i + 1, path, depth, known);
        assert items[..i + 1][..i] == items[..i];
        ghost var order0 := order;
        var result := ParseItem(q, items[i], domain, unresolved, depth, before, w);
        if result.None? { return None; }
        domain, unresolved := result.value.0, result.value.1;
        WithinSnoc(schema, items, i, order0, order);
        i := i + 1;
      }
      assert items[..i] == items;
      r := Some((domain, unresolved));
    }

    /** One type element. */
    method ParseItem(q: Qualifiers, item: Node, domain: seq<Entry>, unresolved: Option<string>, depth: nat,
                     ghost before: Plain, ghost w: Walk)
      returns (r: Option<(seq<Entry>, Option<string>)>)
      requires Valid() && |domain| <= MAX_DOMAIN_ENTRIES
      requires before.regular && domain == before.entries && unresolved == before.unresolved
      requires w.ok && w.known == order
      modifies this
      ensures r.Some? ==> Valid() && stack == old(stack) && old(order) <= order && |r.value.0| <= MAX_DOMAIN_ENTRIES
      ensures r.Some? ==>
                var p := PlainItem(schema, q, before, item, Elements(old(stack)), depth);
                ItemsWithin(schema, [item], order) && p.regular && r.value == (p.entries, p.unresolved)
      ensures var w' := WalkItem(schema, q, w, |domain|, item, Elements(old(stack)), depth);
              (r.Some? <==> w'.ok && old(expanded) + w'.charge <= MAX_EXPANDED_ENTRIES + w.charge) &&
              (r.Some? ==> order == w'.known && expanded + w.charge == old(expanded) + w'.charge)
      decreases if depth > MAX_TYPE_SET_DEPTH then 0 else MAX_TYPE_SET_DEPTH + 1 - depth, 1
    {
      hide PlainSet, WalkSet, Ordered, Elements, EntryOf, ParsedOf, SetSize, ItemsWithin, PlainItem, WalkItem, WithSet;
      ItemIs(schema, q, before, w, item, Elements(stack), depth);
      if item.content.None? { return None; }
      var name := item.content.value;
      if !IsSetReference(schema, item) { WithinOne(schema, item, order); }
      if item.kind == TypeSetElement {
        if name.uri != ConfigNs { return Some((domain, Some(name.written))); }
        var inner := ParseTypeSet(name.local, depth + 1);
        if inner.None? { return None; }
        WithinOne(schema, item, order);
        if inner.value.domain.Some? {
          var appended := AppendEntries(domain, inner.value.domain.value);
          if appended.None? { return None; }
          return Some((appended.value, unresolved));
        }
        return Some((domain, Some(name.written)));
      }
      var entry := EntryOf(schema, q, name);
      if entry.None? { return Some((domain, Some(name.written))); }
      if |domain| >= MAX_DOMAIN_ENTRIES { return None; }
      var ok := Charge(1);
      if !ok { return None; }
      r := Some((domain + [entry.value], unresolved));
    }
  }

  lemma {:induction false} PlainSetIs(s: Schema, name: string, path: set<string>, depth: nat)
    requires name in s.typeSets
    ensures name in path ==> PlainSet(s, name, path, depth) == CYCLIC
    ensures name !in path ==>
              var p := PlainNode(s, s.typeSets[name], path + {name}, depth + 1);
              var r := PlainSet(s, name, path, depth);
              && r.regular == p.regular && ParsedOf(r) == ParsedOf(p) && r.charge == p.charge + DomainSize(ParsedOf(p))
              && r.bounded == (p.bounded && depth <= MAX_TYPE_SET_DEPTH)
  {
    hide PlainNode;
  }

  lemma {:induction false} ItemIs(s: Schema, q: Qualifiers, before: Plain, w: Walk, item: Node, path: set<string>,
                                  depth: nat)
    ensures var p, w' := PlainItem(s, q, before, item, path, depth), WalkItem(s, q, w, |before.entries|, item, path, depth);
            match item.content
            case None => !w'.ok
            case Some(name) =>
              if IsSetReference(s, item) then
                var found := PlainSet(s, name.local, path, depth + 1);
                var r, inner := ParsedOf(found), WalkSet(s, name.local, path, depth + 1, w.known);
                && p.regular == (before.regular && found.regular)
                && p.entries == (if r.domain.Some? then before.entries + r.domain.value else before.entries)
                && p.unresolved == (if r.domain.Some? then before.unresolved else Some(name.written))
                && w' == Walk(inner.known, w.charge + inner.charge + DomainSize(r),
                              w.ok && inner.ok && |before.entries| + DomainSize(r) <= MAX_DOMAIN_ENTRIES)
              else if item.kind == TypeSetElement || EntryOf(s, q, name).None? then
                p == WithUnresolved(before, name.written) && w' == w
              else
                && p == WithEntry(before, EntryOf(s, q, name).value)
                && w' == w.(charge := w.charge + 1, ok := w.ok && |before.entries| < MAX_DOMAIN_ENTRIES)
  {
    hide PlainSet, WalkSet, EntryOf, ParsedOf;
  }

  lemma {:induction false} WalkSetIs(s: Schema, name: string, path: set<string>, depth: nat, known: seq<string>)
    requires name in s.typeSets
    ensures var size := DomainSize(ParsedOf(PlainSet(s, name, path, depth)));
            WalkSet(s, name, path, depth, known) ==
            if name in known then Walk(known, size, true)
            else if depth > MAX_TYPE_SET_DEPTH || name in path then Walk(known, 0, false)
            else
              var w := WalkNode(s, s.typeSets[name], path + {name}, depth + 1, known);
              Walk(w.known + [name], w.charge + size, w.ok)
  {
    hide WalkNode, PlainSet;
  }

  lemma {:induction false} ElementsMeans(stack: seq<string>, name: string)
    ensures name in Elements(stack) <==> name in stack
  {
  }

  lemma {:induction false} ElementsSnoc(stack: seq<string>, name: string)
    ensures Elements(stack + [name]) == Elements(stack) + {name}
  {
  }

  lemma {:induction false} ApartSnoc(path: set<string>, known: seq<string>, name: string)
    requires Apart(path, known) && name !in known
    ensures Apart(path + {name}, known)
  {
  }

  lemma {:induction false} OrderedSnoc(s: Schema, order: seq<string>, name: string)
    requires Ordered(s, order) && name in s.typeSets && name !in order && NodeWithin(s, s.typeSets[name], order)
    ensures Ordered(s, order + [name])
  {
    hide NodeWithin;
    var longer := order + [name];
    forall i | 0 <= i < |longer| ensures longer[i] !in longer[..i] && NodeWithin(s, s.typeSets[longer[i]], longer[..i]) {
      assert longer[..i] == order[..i];
      assert order[..|order|] == order;
    }
  }

  lemma {:induction false} WithinSnoc(s: Schema, items: seq<Node>, i: nat, known: seq<string>, more: seq<string>)
    requires i < |items| && ItemsWithin(s, items[..i], known) && known <= more && ItemsWithin(s, [items[i]], more)
    ensures ItemsWithin(s, items[..i + 1], more)
  {
    var longer := items[..i + 1];
    forall k | 0 <= k < |longer| ensures longer[k].content.Some? {
      if k < i {
        assert items[..i][k] == longer[k];
      } else {
        assert [items[i]][0] == longer[k];
      }
    }
    forall k | 0 <= k < |longer| && IsSetReference(s, longer[k]) ensures longer[k].content.value.local in more {
      if k < i {
        assert items[..i][k] == longer[k];
      } else {
        assert [items[i]][0] == longer[k];
      }
    }
  }
}
