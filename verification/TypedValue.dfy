/** Checking a typed value against a node budget and a depth limit. The walk spends the budget as it
    goes and turns collections away by their size before it looks inside. */
module TypedValue {
  import opened Limits
  import opened Optional

  const MAX_DEPTH: nat := 64
  const MAX_NODES: nat := 1000000

  /** A leaf passes its own check or not, may be a text, and may serve as a map key. */
  datatype Value =
    | Leaf(sound: bool, text: bool, key: Option<string>)
    | TypeDomain(entries: nat, canonical: bool)
    | List(list: ValueList)
    | Array(items: seq<Value>)
    | Structure(fields: seq<Field>)
    | Map(pairs: seq<MapEntry>)

  datatype Field = Field(name: string, utf8: bool, value: Value)

  datatype MapEntry = MapEntry(key: Value, value: Value)

  /** A picture is a known standard one or not. */
  datatype Item = Item(id: nat, value: Value, presentation: Value, picture: Option<bool>)

  datatype ValueList = ValueList(
    items: seq<Item>, typeEntries: nat, typeCanonical: bool, available: seq<ValueList>, lastId: Option<nat>)

  // ---------- What a value costs ----------

  /** A number of nodes, the levels they need, and whether everything is sound. */
  datatype Cost = Cost(nodes: nat, height: nat, sound: bool)

  function Max(a: nat, b: nat): nat {
    if a < b then b else a
  }

  function Plus(a: Cost, b: Cost): Cost {
    Cost(a.nodes + b.nodes, Max(a.height, b.height), a.sound && b.sound)
  }

  function Deeper(levels: nat, a: Cost): Cost {
    a.(height := a.height + levels)
  }

  const FREE: Cost := Cost(0, 0, true)

  predicate NoMoreThan(a: Cost, b: Cost) {
    a.nodes <= b.nodes && a.height <= b.height && (b.sound ==> a.sound)
  }

  predicate Fits(c: Cost, nodes: nat, depth: nat) {
    c.sound && nodes + c.nodes <= MAX_NODES && depth + c.height <= MAX_DEPTH
  }

  /** The key a value has in a map: only leaves have one. */
  function MapKey(v: Value): Option<string> {
    if v.Leaf? then v.key else None
  }

  function Measure(v: Value): (c: Cost)
    ensures c.nodes >= 1
    decreases v
  {
    match v
    case Leaf(sound, _, _) => Cost(1, 0, sound)
    case TypeDomain(entries, canonical) => Cost(1 + entries, 0, canonical)
    case List(l) => Plus(Cost(1, 0, true), ListCost(l))
    case Array(items) => Plus(Cost(1, 0, true), ArrayCost(v, |items|))
    case Structure(fields) => Plus(Cost(1, 0, true), StructureCost(v, |fields|))
    case Map(pairs) => Plus(Cost(1, 0, true), MapCost(v, |pairs|))
  }

  function ArrayCost(v: Value, n: nat): (c: Cost)
    requires v.Array? && n <= |v.items|
    ensures c.nodes >= n
    decreases v, n
  {
    if n == 0 then FREE
    else Plus(ArrayCost(v, n - 1), Deeper(1, Measure(v.items[n - 1])))
  }

  /** A field needs a name of its own. */
  predicate NameOk(v: Value, i: nat)
    requires v.Structure? && i < |v.fields|
  {
    v.fields[i].name != "" && v.fields[i].utf8 && forall j :: 0 <= j < i ==> v.fields[j].name != v.fields[i].name
  }

  function StructureCost(v: Value, n: nat): (c: Cost)
    requires v.Structure? && n <= |v.fields|
    ensures c.nodes >= n
    decreases v, n
  {
    if n == 0 then FREE
    else Plus(StructureCost(v, n - 1), Plus(Cost(0, 0, NameOk(v, n - 1)), Deeper(1, Measure(v.fields[n - 1].value))))
  }

  /** A map entry needs a key, and one of its own. */
  predicate KeyOk(v: Value, i: nat)
    requires v.Map? && i < |v.pairs|
  {
    MapKey(v.pairs[i].key).Some? && forall j :: 0 <= j < i ==> MapKey(v.pairs[j].key) != MapKey(v.pairs[i].key)
  }

  function EntryCost(v: Value, i: nat): (c: Cost)
    requires v.Map? && i < |v.pairs|
    ensures c.nodes >= 2
    decreases v, 0
  {
    Plus(Cost(0, 0, KeyOk(v, i)), Deeper(1, Plus(Measure(v.pairs[i].key), Measure(v.pairs[i].value))))
  }

  function MapCost(v: Value, n: nat): (c: Cost)
    requires v.Map? && n <= |v.pairs|
    ensures c.nodes >= 2 * n
    decreases v, 1 + n
  {
    if n == 0 then FREE else Plus(MapCost(v, n - 1), EntryCost(v, n - 1))
  }


  /** Item IDs fit in 64 signed bits, and a stored last ID covers them. */
  predicate LastIdOk(l: ValueList) {
    && (forall i :: 0 <= i < |l.items| ==> l.items[i].id <= MAX_INT64)
    && (l.lastId.Some? ==> l.lastId.value <= MAX_INT64 && forall i :: 0 <= i < |l.items| ==> l.items[i].id <= l.lastId.value)
  }

  /** A list has at most one list of available values. */
  function ListCost(l: ValueList): Cost
    decreases l
  {
    Plus(Cost(l.typeEntries, 0, |l.available| <= 1 && LastIdOk(l) && l.typeCanonical),
         Plus(ItemsCost(l, |l.items|), AvailableCost(l, |l.available|)))
  }

  /** An item needs an ID of its own and a text to present it. */
  predicate ItemOk(l: ValueList, i: nat)
    requires i < |l.items|
  {
    && (l.items[i].presentation.Leaf? && l.items[i].presentation.text)
    && forall j :: 0 <= j < i ==> l.items[j].id != l.items[i].id
  }

  function PictureCost(p: Option<bool>): Cost {
    match p case None => FREE case Some(known) => Cost(1, 0, known)
  }

  function ItemCost(l: ValueList, i: nat): (c: Cost)
    requires i < |l.items|
    ensures c.nodes >= 3
    decreases l, 0
  {
    var item := l.items[i];
    Plus(Plus(Cost(1, 2, ItemOk(l, i)), Deeper(2, Plus(Measure(item.value), Measure(item.presentation)))), PictureCost(item.picture))
  }

  function ItemsCost(l: ValueList, n: nat): (c: Cost)
    requires n <= |l.items|
    ensures c.nodes >= 3 * n
    decreases l, 1 + n
  {
    if n == 0 then FREE else Plus(ItemsCost(l, n - 1), ItemCost(l, n - 1))
  }

  function AvailableCost(l: ValueList, n: nat): Cost
    requires n <= |l.available|
    decreases l, n
  {
    if n == 0 then FREE
    else Plus(AvailableCost(l, n - 1), Plus(Cost(1, 1, true), Deeper(1, ListCost(l.available[n - 1]))))
  }

  // ---------- Parts cost no more than the whole ----------

  lemma {:induction false} ArrayGrows(v: Value, i: nat, n: nat)
    requires v.Array? && i <= n <= |v.items|
    ensures NoMoreThan(ArrayCost(v, i), ArrayCost(v, n))
    decreases n - i
  {
    if i < n { ArrayGrows(v, i + 1, n); }
  }

  lemma {:induction false} StructureGrows(v: Value, i: nat, n: nat)
    requires v.Structure? && i <= n <= |v.fields|
    ensures NoMoreThan(StructureCost(v, i), StructureCost(v, n))
    decreases n - i
  {
    if i < n { StructureGrows(v, i + 1, n); }
  }

  lemma {:induction false} MapGrows(v: Value, i: nat, n: nat)
    requires v.Map? && i <= n <= |v.pairs|
    ensures NoMoreThan(MapCost(v, i), MapCost(v, n))
    decreases n - i
  {
    if i < n { MapGrows(v, i + 1, n); }
  }

  lemma {:induction false} ItemsGrow(l: ValueList, i: nat, n: nat)
    requires i <= n <= |l.items|
    ensures NoMoreThan(ItemsCost(l, i), ItemsCost(l, n))
    decreases n - i
  {
    hide ItemCost;
    if i < n { ItemsGrow(l, i + 1, n); }
  }

  // ---------- The walk ----------

  class Budget {
    var nodes: nat

    constructor (nodes: nat)
      ensures this.nodes == nodes
    {
      this.nodes := nodes;
    }
  }

  /** Charges a type description's entries, unless they are too many. */
  method ValidateDescription(entries: nat, canonical: bool, budget: Budget) returns (ok: bool)
    requires budget.nodes <= MAX_NODES
    modifies budget
    ensures budget.nodes <= MAX_NODES
    ensures ok <==> canonical && old(budget.nodes) + entries <= MAX_NODES
    ensures ok ==> budget.nodes == old(budget.nodes) + entries
  {
    var room: nat := MAX_NODES - budget.nodes;
    if entries > room { return false; }
    budget.nodes := budget.nodes + entries;
    ok := canonical;
  }

  /** Accepts a value exactly when it is sound and fits, and then spends exactly what it costs. */
  method ValidateNode(v: Value, budget: Budget, depth: nat) returns (ok: bool)
    modifies budget
    ensures budget.nodes <= Max(old(budget.nodes), MAX_NODES)
    ensures ok <==> Fits(Measure(v), old(budget.nodes), depth)
    ensures ok ==> budget.nodes == old(budget.nodes) + Measure(v).nodes
    decreases v, 1
  {
    if depth > MAX_DEPTH || budget.nodes >= MAX_NODES { return false; }
    budget.nodes := budget.nodes + 1;
    match v {
      case Leaf(sound, _, _) => ok := sound;
      case TypeDomain(entries, canonical) => ok := ValidateDescription(entries, canonical, budget);
      case List(l) => ok := ValidateContents(l, budget, depth);
      case Array(_) => ok := ValidateArray(v, budget, depth);
      case Structure(_) => ok := ValidateStructure(v, budget, depth);
      case Map(_) => ok := ValidateMap(v, budget, depth);
    }
  }

  method ValidateArray(v: Value, budget: Budget, depth: nat) returns (ok: bool)
    requires v.Array? && budget.nodes <= MAX_NODES && depth <= MAX_DEPTH
    modifies budget
    ensures budget.nodes <= MAX_NODES
    ensures ok <==> Fits(ArrayCost(v, |v.items|), old(budget.nodes), depth)
    ensures ok ==> budget.nodes == old(budget.nodes) + ArrayCost(v, |v.items|).nodes
    decreases v, 0
  {
    hide Measure;
    ghost var start := budget.nodes;
    var room: nat := MAX_NODES - budget.nodes;
    if |v.items| > room { return false; }
    var i := 0;
    while i < |v.items|
      invariant 0 <= i <= |v.items|
      invariant budget.nodes == start + ArrayCost(v, i).nodes && Fits(ArrayCost(v, i), start, depth)
    {
      ArrayGrows(v, i + 1, |v.items|);
      ok := ValidateNode(v.items[i], budget, depth + 1);
      if !ok { return; }
      i := i + 1;
    }
    ok := true;
  }

  method ValidateStructure(v: Value, budget: Budget, depth: nat) returns (ok: bool)
    requires v.Structure? && budget.nodes <= MAX_NODES && depth <= MAX_DEPTH
    modifies budget
    ensures budget.nodes <= MAX_NODES
    ensures ok <==> Fits(StructureCost(v, |v.fields|), old(budget.nodes), depth)
    ensures ok ==> budget.nodes == old(budget.nodes) + StructureCost(v, |v.fields|).nodes
    decreases v, 0
  {
    hide Measure;
    ghost var start := budget.nodes;
    var room: nat := MAX_NODES - budget.nodes;
    if |v.fields| > room { return false; }
    var names: set<string> := {};
    var i := 0;
    while i < |v.fields|
      invariant 0 <= i <= |v.fields| && names == set j | 0 <= j < i :: v.fields[j].name
      invariant budget.nodes == start + StructureCost(v, i).nodes && Fits(StructureCost(v, i), start, depth)
    {
      StructureGrows(v, i + 1, |v.fields|);
      var name := v.fields[i].name;
      assert NameOk(v, i) <==> name != "" && v.fields[i].utf8 && name !in names;
      if name == "" || !v.fields[i].utf8 || name in names { return false; }
      names := names + {name};
      ok := ValidateNode(v.fields[i].value, budget, depth + 1);
      if !ok { return; }
      i := i + 1;
    }
    ok := true;
  }

  method ValidateMap(v: Value, budget: Budget, depth: nat) returns (ok: bool)
    requires v.Map? && budget.nodes <= MAX_NODES && depth <= MAX_DEPTH
    modifies budget
    ensures budget.nodes <= MAX_NODES
    ensures ok <==> Fits(MapCost(v, |v.pairs|), old(budget.nodes), depth)
    ensures ok ==> budget.nodes == old(budget.nodes) + MapCost(v, |v.pairs|).nodes
    decreases v, 0, 1
  {
    hide EntryCost, KeyOk;
    ghost var start := budget.nodes;
    var room: nat := MAX_NODES - budget.nodes;
    if |v.pairs| > room / 2 { return false; }
    var keys: set<string> := {};
    var i := 0;
    while i < |v.pairs|
      invariant 0 <= i <= |v.pairs| && KeysBefore(v, i, keys)
      invariant budget.nodes == start + MapCost(v, i).nodes && Fits(MapCost(v, i), start, depth)
    {
      MapGrows(v, i + 1, |v.pairs|);
      ok := ValidateEntry(v, i, budget, depth, keys);
      if !ok { return; }
      EntrySound(v, i);
      KeysGrow(v, i, keys);
      keys := keys + {MapKey(v.pairs[i].key).value};
      i := i + 1;
    }
    ok := true;
  }

  /** The keys of the entries before the i-th. */
  ghost predicate KeysBefore(v: Value, i: nat, keys: set<string>)
    requires v.Map? && i <= |v.pairs|
  {
    && (forall j :: 0 <= j < i ==> MapKey(v.pairs[j].key).Some? && MapKey(v.pairs[j].key).value in keys)
    && forall k :: k in keys ==> exists j :: 0 <= j < i && MapKey(v.pairs[j].key) == Some(k)
  }

  lemma {:induction false} EntrySound(v: Value, i: nat)
    requires v.Map? && i < |v.pairs| && EntryCost(v, i).sound
    ensures KeyOk(v, i)
  {
  }

  lemma {:induction false} KeysGrow(v: Value, i: nat, keys: set<string>)
    requires v.Map? && i < |v.pairs| && KeysBefore(v, i, keys) && KeyOk(v, i)
    ensures KeysBefore(v, i + 1, keys + {MapKey(v.pairs[i].key).value})
  {
    hide MapKey;
  }

  lemma {:induction false} KeyOkIff(v: Value, i: nat, keys: set<string>)
    requires v.Map? && i < |v.pairs| && KeysBefore(v, i, keys)
    ensures KeyOk(v, i) <==> MapKey(v.pairs[i].key).Some? && MapKey(v.pairs[i].key).value !in keys
  {
    hide MapKey;
  }

  method ValidateEntry(v: Value, i: nat, budget: Budget, depth: nat, keys: set<string>) returns (ok: bool)
    requires v.Map? && i < |v.pairs| && budget.nodes <= MAX_NODES && depth <= MAX_DEPTH && KeysBefore(v, i, keys)
    modifies budget
    ensures budget.nodes <= MAX_NODES
    ensures ok <==> Fits(EntryCost(v, i), old(budget.nodes), depth)
    ensures ok ==> budget.nodes == old(budget.nodes) + EntryCost(v, i).nodes
    decreases v, 0, 0
  {
    hide Measure, KeyOk, KeysBefore;
    KeyOkIff(v, i, keys);
    ok := ValidateNode(v.pairs[i].key, budget, depth + 1);
    if !ok { return; }
    var key := MapKey(v.pairs[i].key);
    if key.None? || key.value in keys { return false; }
    ok := ValidateNode(v.pairs[i].value, budget, depth + 1);
  }

  /** The last ID that counts as assigned: the stored one, else the highest in use, else -1. None stands
      for the exception. */
  method EffectiveLastId(l: ValueList) returns (last: Option<int>)
    ensures last.Some? <==> LastIdOk(l)
    ensures last.Some? ==> forall i :: 0 <= i < |l.items| ==> l.items[i].id <= last.value
    ensures last.Some? ==> last.value == (if l.lastId.Some? then l.lastId.value else last.value) &&
                           (last.value == -1 || l.lastId == Some(last.value) || exists i :: 0 <= i < |l.items| && l.items[i].id == last.value)
  {
    var maximum: int := -1;
    var i := 0;
    while i < |l.items|
      invariant 0 <= i <= |l.items|
      invariant forall j :: 0 <= j < i ==> l.items[j].id <= maximum && l.items[j].id <= MAX_INT64
      invariant maximum == -1 || exists j :: 0 <= j < i && l.items[j].id == maximum
    {
      if l.items[i].id > MAX_INT64 { return None; }
      if l.items[i].id > maximum { maximum := l.items[i].id; }
      i := i + 1;
    }
    match l.lastId {
      case None => last := Some(maximum);
      case Some(stored) => last := if stored > MAX_INT64 || stored < maximum then None else Some(stored);
    }
  }

  /** Accepts the contents of a list exactly when they are sound and fit, and spends what they cost. */
  method ValidateContents(l: ValueList, budget: Budget, depth: nat) returns (ok: bool)
    requires budget.nodes <= MAX_NODES && depth <= MAX_DEPTH
    modifies budget
    ensures budget.nodes <= MAX_NODES
    ensures ok <==> Fits(ListCost(l), old(budget.nodes), depth)
    ensures ok ==> budget.nodes == old(budget.nodes) + ListCost(l).nodes
    decreases l, 2
  {
    hide Measure, ItemsCost, AvailableCost, LastIdOk;
    ghost var start := budget.nodes;
    var room: nat := MAX_NODES - budget.nodes;
    if |l.available| > 1 || |l.items| > room / 3 { return false; }
    var minimum := |l.items| * 3;
    var last := EffectiveLastId(l);
    if last.None? { return false; }
    var left: nat := MAX_NODES - budget.nodes - minimum;
    if l.typeEntries > left { return false; }
    ok := ValidateDescription(l.typeEntries, l.typeCanonical, budget);
    if !ok { return; }
    ok := ValidateItems(l, budget, depth);
    if !ok { return; }
    ok := ValidateAvailable(l, budget, depth);
  }

  method ValidateItem(l: ValueList, i: nat, budget: Budget, depth: nat, newId: bool) returns (ok: bool)
    requires i < |l.items| && budget.nodes <= MAX_NODES && depth <= MAX_DEPTH
    requires newId <==> forall j :: 0 <= j < i ==> l.items[j].id != l.items[i].id
    modifies budget
    ensures budget.nodes <= MAX_NODES
    ensures ok <==> Fits(ItemCost(l, i), old(budget.nodes), depth)
    ensures ok ==> budget.nodes == old(budget.nodes) + ItemCost(l, i).nodes
    decreases l, 0
  {
    hide Measure;
    var item := l.items[i];
    if depth + 2 > MAX_DEPTH || budget.nodes >= MAX_NODES || !newId { return false; }
    budget.nodes := budget.nodes + 1;
    if !(item.presentation.Leaf? && item.presentation.text) { return false; }
    ok := ValidateNode(item.value, budget, depth + 2);
    if !ok { return; }
    ok := ValidateNode(item.presentation, budget, depth + 2);
    if !ok { return; }
    if item.picture.Some? {
      if budget.nodes >= MAX_NODES || !item.picture.value { return false; }
      budget.nodes := budget.nodes + 1;
    }
  }

  method ValidateItems(l: ValueList, budget: Budget, depth: nat) returns (ok: bool)
    requires budget.nodes <= MAX_NODES && depth <= MAX_DEPTH
    modifies budget
    ensures budget.nodes <= MAX_NODES
    ensures ok <==> Fits(ItemsCost(l, |l.items|), old(budget.nodes), depth)
    ensures ok ==> budget.nodes == old(budget.nodes) + ItemsCost(l, |l.items|).nodes
    decreases l, 1
  {
    hide ItemCost;
    ghost var start := budget.nodes;
    var ids: set<nat> := {};
    var i := 0;
    while i < |l.items|
      invariant 0 <= i <= |l.items| && ids == set j | 0 <= j < i :: l.items[j].id
      invariant budget.nodes == start + ItemsCost(l, i).nodes && Fits(ItemsCost(l, i), start, depth)
    {
      ItemsGrow(l, i + 1, |l.items|);
      ok := ValidateItem(l, i, budget, depth, l.items[i].id !in ids);
      if !ok { return; }
      ids := ids + {l.items[i].id};
      i := i + 1;
    }
    ok := true;
  }

  method ValidateAvailable(l: ValueList, budget: Budget, depth: nat) returns (ok: bool)
    requires budget.nodes <= MAX_NODES && depth <= MAX_DEPTH && |l.available| <= 1
    modifies budget
    ensures budget.nodes <= MAX_NODES
    ensures ok <==> Fits(AvailableCost(l, |l.available|), old(budget.nodes), depth)
    ensures ok ==> budget.nodes == old(budget.nodes) + AvailableCost(l, |l.available|).nodes
    decreases l, 1
  {
    hide ListCost;
    ghost var start := budget.nodes;
    var i := 0;
    while i < |l.available|
      invariant 0 <= i <= |l.available|
      invariant budget.nodes == start + AvailableCost(l, i).nodes && Fits(AvailableCost(l, i), start, depth)
    {
      if depth >= MAX_DEPTH || budget.nodes >= MAX_NODES { return false; }
      budget.nodes := budget.nodes + 1;
      ok := ValidateContents(l.available[i], budget, depth + 1);
      if !ok { return; }
      i := i + 1;
    }
    ok := true;
  }
}
