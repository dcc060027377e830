/** What the budget of a typed value counts: the places that are visited, each at its depth; and what makes a
    value sound, said without the walk. */
module TypedValueVisits {
  import opened Limits
  import opened Optional
  import opened TypedValue

  // ---------- The visits ----------

  function Same(n: nat, depth: nat): (r: seq<nat>)
    ensures |r| == n && forall i :: 0 <= i < n ==> r[i] == depth
  {
    seq(n, _ => depth)
  }

  /** The depth of every visit, in the order of the walk. Entries of a type description count where it stands. */
  function Visits(v: Value, depth: nat): seq<nat>
    decreases v
  {
    match v
    case Leaf(_, _, _) => [depth]
    case TypeDomain(entries, _) => Same(1 + entries, depth)
    case List(l) => [depth] + ListVisits(l, depth)
    case Array(items) => [depth] + ArrayVisits(v, |items|, depth)
    case Structure(fields) => [depth] + StructureVisits(v, |fields|, depth)
    case Map(pairs) => [depth] + MapVisits(v, |pairs|, depth)
  }

  function ArrayVisits(v: Value, n: nat, depth: nat): seq<nat>
    requires v.Array? && n <= |v.items|
    decreases v, n
  {
    if n == 0 then [] else ArrayVisits(v, n - 1, depth) + Visits(v.items[n - 1], depth + 1)
  }

  function StructureVisits(v: Value, n: nat, depth: nat): seq<nat>
    requires v.Structure? && n <= |v.fields|
    decreases v, n
  {
    if n == 0 then [] else StructureVisits(v, n - 1, depth) + Visits(v.fields[n - 1].value, depth + 1)
  }

  function MapVisits(v: Value, n: nat, depth: nat): seq<nat>
    requires v.Map? && n <= |v.pairs|
    decreases v, n
  {
    if n == 0 then []
    else
      MapVisits(v, n - 1, depth) + (Visits(v.pairs[n - 1].key, depth + 1) + Visits(v.pairs[n - 1].value, depth + 1))
  }

  function ListVisits(l: ValueList, depth: nat): seq<nat>
    decreases l
  {
    Same(l.typeEntries, depth) + (ItemVisits(l, |l.items|, depth) + AvailableVisits(l, |l.available|, depth))
  }

  /** An item, its value and its presentation are two levels deeper than their list, and so is a picture. */
  function ItemVisits(l: ValueList, n: nat, depth: nat): seq<nat>
    requires n <= |l.items|
    decreases l, n
  {
    if n == 0 then []
    else
      var item := l.items[n - 1];
      ItemVisits(l, n - 1, depth) +
      ((([depth + 2] + (Visits(item.value, depth + 2) + Visits(item.presentation, depth + 2)))) +
       if item.picture.Some? then [depth + 2] else [])
  }

  /** A list of available values is one level deeper. */
  function AvailableVisits(l: ValueList, n: nat, depth: nat): seq<nat>
    requires n <= |l.available|
    decreases l, n
  {
    if n == 0 then []
    else AvailableVisits(l, n - 1, depth) + ([depth + 1] + ListVisits(l.available[n - 1], depth + 1))
  }

  // ---------- Costs and visits ----------

  /** As many visits as nodes, none above the depth, and the deepest at the height. */
  ghost predicate Agrees(c: Cost, visits: seq<nat>, depth: nat) {
    && c.nodes == |visits| && (forall i :: 0 <= i < |visits| ==> depth <= visits[i] <= depth + c.height)
    && (c.height > 0 ==> exists i :: 0 <= i < |visits| && visits[i] == depth + c.height)
  }

  lemma {:induction false} AgreesFree(depth: nat, sound: bool)
    ensures Agrees(Cost(0, 0, sound), [], depth) && Agrees(FREE, [], depth)
  {
  }

  lemma {:induction false} AgreesOne(depth: nat, sound: bool)
    ensures Agrees(Cost(1, 0, sound), [depth], depth)
  {
  }

  lemma {:induction false} AgreesSame(n: nat, depth: nat, sound: bool)
    ensures Agrees(Cost(n, 0, sound), Same(n, depth), depth)
  {
  }

  lemma {:induction false} AgreesPlus(a: Cost, x: seq<nat>, b: Cost, y: seq<nat>, depth: nat)
    requires Agrees(a, x, depth) && Agrees(b, y, depth)
    ensures Agrees(Plus(a, b), x + y, depth)
  {
    var c := Plus(a, b);
    if c.height > 0 {
      if a.height >= b.height {
        var i :| 0 <= i < |x| && x[i] == depth + a.height;
        assert (x + y)[i] == depth + c.height;
      } else {
        var i :| 0 <= i < |y| && y[i] == depth + b.height;
        assert (x + y)[|x| + i] == depth + c.height;
      }
    }
  }

  lemma {:induction false} AgreesDeeper(levels: nat, a: Cost, x: seq<nat>, depth: nat)
    requires Agrees(a, x, depth + levels) && x != []
    ensures Agrees(Deeper(levels, a), x, depth)
  {
    if a.height == 0 { assert x[0] == depth + levels; }
  }

  lemma {:induction false} VisitsSome(v: Value, depth: nat)
    ensures Visits(v, depth) != [] && Visits(v, depth)[0] == depth
  {
    hide ArrayVisits, StructureVisits, MapVisits, ListVisits;
  }

  lemma {:induction false} ValueAgrees(v: Value, depth: nat)
    ensures Agrees(Measure(v), Visits(v, depth), depth)
    decreases v
  {
    hide Agrees, ArrayCost, StructureCost, MapCost, ListCost, ArrayVisits, StructureVisits, MapVisits, ListVisits;
    AgreesOne(depth, true);
    match v {
      case Leaf(sound, _, _) => AgreesOne(depth, sound);
      case TypeDomain(entries, canonical) => AgreesSame(1 + entries, depth, canonical);
      case List(l) =>
        ListAgrees(l, depth);
        AgreesPlus(Cost(1, 0, true), [depth], ListCost(l), ListVisits(l, depth), depth);
      case Array(items) =>
        ArrayAgrees(v, |items|, depth);
        AgreesPlus(Cost(1, 0, true), [depth], ArrayCost(v, |items|), ArrayVisits(v, |items|, depth), depth);
      case Structure(fields) =>
        StructureAgrees(v, |fields|, depth);
        AgreesPlus(Cost(1, 0, true), [depth], StructureCost(v, |fields|), StructureVisits(v, |fields|, depth), depth);
      case Map(pairs) =>
        MapAgrees(v, |pairs|, depth);
        AgreesPlus(Cost(1, 0, true), [depth], MapCost(v, |pairs|), MapVisits(v, |pairs|, depth), depth);
    }
  }

  lemma {:induction false} DeeperAgrees(v: Value, levels: nat, depth: nat)
    requires Agrees(Measure(v), Visits(v, depth + levels), depth + levels)
    ensures Agrees(Deeper(levels, Measure(v)), Visits(v, depth + levels), depth)
  {
    hide Agrees, Measure, Visits;
    VisitsSome(v, depth + levels);
    AgreesDeeper(levels, Measure(v), Visits(v, depth + levels), depth);
  }

  lemma {:induction false} ArrayAgrees(v: Value, n: nat, depth: nat)
    requires v.Array? && n <= |v.items|
    ensures Agrees(ArrayCost(v, n), ArrayVisits(v, n, depth), depth)
    decreases v, n
  {
    hide Agrees, Measure, Visits;
    AgreesFree(depth, true);
    if n > 0 {
      var item := v.items[n - 1];
      ArrayAgrees(v, n - 1, depth);
      ValueAgrees(item, depth + 1);
      DeeperAgrees(item, 1, depth);
      AgreesPlus(ArrayCost(v, n - 1), ArrayVisits(v, n - 1, depth), Deeper(1, Measure(item)), Visits(item, depth + 1), depth);
    }
  }

  lemma {:induction false} StructureAgrees(v: Value, n: nat, depth: nat)
    requires v.Structure? && n <= |v.fields|
    ensures Agrees(StructureCost(v, n), StructureVisits(v, n, depth), depth)
    decreases v, n
  {
    hide Agrees, Measure, Visits;
    AgreesFree(depth, true);
    if n > 0 {
      var value, named := v.fields[n - 1].value, Cost(0, 0, NameOk(v, n - 1));
      StructureAgrees(v, n - 1, depth);
      ValueAgrees(value, depth + 1);
      DeeperAgrees(value, 1, depth);
      AgreesFree(depth, NameOk(v, n - 1));
      AgreesPlus(named, [], Deeper(1, Measure(value)), Visits(value, depth + 1), depth);
      assert [] + Visits(value, depth + 1) == Visits(value, depth + 1);
      AgreesPlus(StructureCost(v, n - 1), StructureVisits(v, n - 1, depth),
                 Plus(named, Deeper(1, Measure(value))), Visits(value, depth + 1), depth);
    }
  }

  lemma {:induction false} DeeperPlus(levels: nat, a: Cost, b: Cost)
    ensures Deeper(levels, Plus(a, b)) == Plus(Deeper(levels, a), Deeper(levels, b))
  {
  }

  lemma {:induction false} MapAgrees(v: Value, n: nat, depth: nat)
    requires v.Map? && n <= |v.pairs|
    ensures Agrees(MapCost(v, n), MapVisits(v, n, depth), depth)
    decreases v, n
  {
    hide Agrees, Measure, Visits, KeyOk;
    AgreesFree(depth, true);
    if n > 0 {
      var pair := v.pairs[n - 1];
      var both := Visits(pair.key, depth + 1) + Visits(pair.value, depth + 1);
      MapAgrees(v, n - 1, depth);
      ValueAgrees(pair.key, depth + 1);
      DeeperAgrees(pair.key, 1, depth);
      ValueAgrees(pair.value, depth + 1);
      DeeperAgrees(pair.value, 1, depth);
      DeeperPlus(1, Measure(pair.key), Measure(pair.value));
      AgreesPlus(Deeper(1, Measure(pair.key)), Visits(pair.key, depth + 1),
                 Deeper(1, Measure(pair.value)), Visits(pair.value, depth + 1), depth);
      AgreesFree(depth, KeyOk(v, n - 1));
      AgreesPlus(Cost(0, 0, KeyOk(v, n - 1)), [], Deeper(1, Plus(Measure(pair.key), Measure(pair.value))), both, depth);
      assert [] + both == both;
      AgreesPlus(MapCost(v, n - 1), MapVisits(v, n - 1, depth), EntryCost(v, n - 1), both, depth);
    }
  }

  lemma {:induction false} ListAgrees(l: ValueList, depth: nat)
    ensures Agrees(ListCost(l), ListVisits(l, depth), depth)
    decreases l
  {
    hide Agrees, ItemsCost, AvailableCost, ItemVisits, AvailableVisits, LastIdOk;
    var sound := |l.available| <= 1 && LastIdOk(l) && l.typeCanonical;
    AgreesSame(l.typeEntries, depth, sound);
    ItemsAgree(l, |l.items|, depth);
    AvailableAgrees(l, |l.available|, depth);
    AgreesPlus(ItemsCost(l, |l.items|), ItemVisits(l, |l.items|, depth),
               AvailableCost(l, |l.available|), AvailableVisits(l, |l.available|, depth), depth);
    AgreesPlus(Cost(l.typeEntries, 0, sound), Same(l.typeEntries, depth),
               Plus(ItemsCost(l, |l.items|), AvailableCost(l, |l.available|)),
               ItemVisits(l, |l.items|, depth) + AvailableVisits(l, |l.available|, depth), depth);
  }

  lemma {:induction false} ItemsAgree(l: ValueList, n: nat, depth: nat)
    requires n <= |l.items|
    ensures Agrees(ItemsCost(l, n), ItemVisits(l, n, depth), depth)
    decreases l, n
  {
    hide Agrees, Measure, Visits, ItemOk;
    AgreesFree(depth, true);
    if n > 0 {
      var item := l.items[n - 1];
      ItemsAgree(l, n - 1, depth);
      ValueAgrees(item.value, depth + 2);
      DeeperAgrees(item.value, 2, depth);
      ValueAgrees(item.presentation, depth + 2);
      DeeperAgrees(item.presentation, 2, depth);
      ItemAgrees(l, n - 1, depth);
    }
  }

  lemma {:induction false} ItemAgrees(l: ValueList, i: nat, depth: nat)
    requires i < |l.items|
    requires Agrees(Deeper(2, Measure(l.items[i].value)), Visits(l.items[i].value, depth + 2), depth)
    requires Agrees(Deeper(2, Measure(l.items[i].presentation)), Visits(l.items[i].presentation, depth + 2), depth)
    requires Agrees(ItemsCost(l, i), ItemVisits(l, i, depth), depth)
    ensures Agrees(ItemsCost(l, i + 1), ItemVisits(l, i + 1, depth), depth)
  {
    hide Agrees, Measure, Visits, ItemOk;
    var item := l.items[i];
    var a, b := Measure(item.value), Measure(item.presentation);
    var x, y := Visits(item.value, depth + 2), Visits(item.presentation, depth + 2);
    DeeperPlus(2, a, b);
    AgreesPlus(Deeper(2, a), x, Deeper(2, b), y, depth);
    ItemItself(depth, ItemOk(l, i));
    AgreesPlus(Cost(1, 2, ItemOk(l, i)), [depth + 2], Deeper(2, Plus(a, b)), x + y, depth);
    var front, picture := Plus(Cost(1, 2, ItemOk(l, i)), Deeper(2, Plus(a, b))), if item.picture.Some? then [depth + 2] else [];
    PictureAgrees(front, [depth + 2] + (x + y), item.picture, depth);
    AgreesPlus(ItemsCost(l, i), ItemVisits(l, i, depth), ItemCost(l, i), ([depth + 2] + (x + y)) + picture, depth);
  }

  lemma {:induction false} ItemItself(depth: nat, sound: bool)
    ensures Agrees(Cost(1, 2, sound), [depth + 2], depth)
  {
    assert [depth + 2][0] == depth + 2;
  }

  /** A picture is as deep as the item, so it adds no level. */
  lemma {:induction false} PictureAgrees(c: Cost, visits: seq<nat>, picture: Option<bool>, depth: nat)
    requires Agrees(c, visits, depth) && c.height >= 2
    ensures Agrees(Plus(c, PictureCost(picture)), visits + (if picture.Some? then [depth + 2] else []), depth)
  {
    var i :| 0 <= i < |visits| && visits[i] == depth + c.height;
    var more := visits + (if picture.Some? then [depth + 2] else []);
    assert more[i] == depth + c.height;
  }

  lemma {:induction false} AvailableAgrees(l: ValueList, n: nat, depth: nat)
    requires n <= |l.available|
    ensures Agrees(AvailableCost(l, n), AvailableVisits(l, n, depth), depth)
    decreases l, n
  {
    hide Agrees, ListCost, ListVisits;
    AgreesFree(depth, true);
    if n > 0 {
      var inner := l.available[n - 1];
      AvailableAgrees(l, n - 1, depth);
      ListAgrees(inner, depth + 1);
      ListDeeper(inner, depth);
      AgreesPlus(AvailableCost(l, n - 1), AvailableVisits(l, n - 1, depth),
                 Plus(Cost(1, 1, true), Deeper(1, ListCost(inner))), [depth + 1] + ListVisits(inner, depth + 1), depth);
    }
  }

  lemma {:induction false} ListDeeper(l: ValueList, depth: nat)
    requires Agrees(ListCost(l), ListVisits(l, depth + 1), depth + 1)
    ensures Agrees(Plus(Cost(1, 1, true), Deeper(1, ListCost(l))), [depth + 1] + ListVisits(l, depth + 1), depth)
  {
    hide ListCost, ListVisits;
    var c, x := ListCost(l), ListVisits(l, depth + 1);
    var all := [depth + 1] + x;
    assert all[0] == depth + 1;
    if c.height > 0 {
      var i :| 0 <= i < |x| && x[i] == depth + 1 + c.height;
      assert all[i + 1] == depth + 1 + c.height;
    }
  }

  // ---------- Sound values ----------

  /** What a value must be, apart from its size: parts that pass their checks, names and keys that are there and
      differ, and lists whose item IDs differ and fit, each item presented by a text. */
  ghost predicate WellMade(v: Value)
    decreases v
  {
    match v
    case Leaf(sound, _, _) => sound
    case TypeDomain(_, canonical) => canonical
    case List(l) => ListWellMade(l)
    case Array(items) => forall i :: 0 <= i < |items| ==> WellMade(items[i])
    case Structure(fields) =>
      && (forall i :: 0 <= i < |fields| ==> fields[i].name != "" && fields[i].utf8 && WellMade(fields[i].value))
      && (forall i, j :: 0 <= i < j < |fields| ==> fields[i].name != fields[j].name)
    case Map(pairs) =>
      && (forall i :: 0 <= i < |pairs| ==>
            pairs[i].key.Leaf? && pairs[i].key.key.Some? && WellMade(pairs[i].key) && WellMade(pairs[i].value))
      && (forall i, j :: 0 <= i < j < |pairs| && pairs[i].key.Leaf? && pairs[j].key.Leaf? ==>
            pairs[i].key.key != pairs[j].key.key)
  }

  ghost predicate ListWellMade(l: ValueList)
    decreases l
  {
    && l.typeCanonical
    && (forall i, j :: 0 <= i < j < |l.items| ==> l.items[i].id != l.items[j].id)
    && (forall i :: 0 <= i < |l.items| ==>
          && l.items[i].id <= 0x7fff_ffff_ffff_ffff
          && (l.lastId.Some? ==> l.items[i].id <= l.lastId.value)
          && WellMade(l.items[i].value) && WellMade(l.items[i].presentation)
          && l.items[i].presentation.Leaf? && l.items[i].presentation.text
          && l.items[i].picture != Some(false))
    && (l.lastId.Some? ==> l.lastId.value <= 0x7fff_ffff_ffff_ffff)
    && |l.available| <= 1
    && forall i :: 0 <= i < |l.available| ==> ListWellMade(l.available[i])
  }

  lemma {:induction false} SoundIff(v: Value)
    ensures Measure(v).sound <==> WellMade(v)
    decreases v
  {
    hide ArrayCost, StructureCost, MapCost, ListCost, ListWellMade;
    match v {
      case Leaf(_, _, _) =>
      case TypeDomain(_, _) =>
      case List(l) => ListSoundIff(l);
      case Array(items) => ArraySoundIff(v, |items|);
      case Structure(fields) =>
        StructureSoundIff(v, |fields|);
        assert forall i :: 0 <= i < |fields| ==> (NameOk(v, i) <==>
          fields[i].name != "" && fields[i].utf8 && forall j :: 0 <= j < i ==> fields[j].name != fields[i].name);
      case Map(pairs) =>
        MapSoundIff(v, |pairs|);
        MapKeysIff(v);
    }
  }

  lemma {:induction false} ArraySoundIff(v: Value, n: nat)
    requires v.Array? && n <= |v.items|
    ensures ArrayCost(v, n).sound <==> forall i :: 0 <= i < n ==> WellMade(v.items[i])
    decreases v, n
  {
    hide Measure, WellMade;
    if n > 0 {
      ArraySoundIff(v, n - 1);
      SoundIff(v.items[n - 1]);
    }
  }

  lemma {:induction false} StructureSoundIff(v: Value, n: nat)
    requires v.Structure? && n <= |v.fields|
    ensures StructureCost(v, n).sound <==> forall i :: 0 <= i < n ==> NameOk(v, i) && WellMade(v.fields[i].value)
    decreases v, n
  {
    hide Measure, WellMade, NameOk;
    if n > 0 {
      StructureSoundIff(v, n - 1);
      SoundIff(v.fields[n - 1].value);
    }
  }

  lemma {:induction false} MapSoundIff(v: Value, n: nat)
    requires v.Map? && n <= |v.pairs|
    ensures MapCost(v, n).sound <==>
            forall i :: 0 <= i < n ==> KeyOk(v, i) && WellMade(v.pairs[i].key) && WellMade(v.pairs[i].value)
    decreases v, n
  {
    hide Measure, WellMade, KeyOk;
    if n > 0 {
      MapSoundIff(v, n - 1);
      SoundIff(v.pairs[n - 1].key);
      SoundIff(v.pairs[n - 1].value);
    }
  }

  lemma {:induction false} MapKeysIff(v: Value)
    requires v.Map?
    ensures (forall i :: 0 <= i < |v.pairs| ==> KeyOk(v, i)) <==>
            && (forall i :: 0 <= i < |v.pairs| ==> v.pairs[i].key.Leaf? && v.pairs[i].key.key.Some?)
            && (forall i, j :: 0 <= i < j < |v.pairs| && v.pairs[i].key.Leaf? && v.pairs[j].key.Leaf? ==>
                  v.pairs[i].key.key != v.pairs[j].key.key)
  {
    if forall i :: 0 <= i < |v.pairs| ==> KeyOk(v, i) {
      forall i, j | 0 <= i < j < |v.pairs| && v.pairs[i].key.Leaf? && v.pairs[j].key.Leaf?
        ensures v.pairs[i].key.key != v.pairs[j].key.key
      {
        assert KeyOk(v, j);
      }
      forall i | 0 <= i < |v.pairs| ensures v.pairs[i].key.Leaf? && v.pairs[i].key.key.Some? { assert KeyOk(v, i); }
    }
    if (forall i :: 0 <= i < |v.pairs| ==> v.pairs[i].key.Leaf? && v.pairs[i].key.key.Some?) &&
       (forall i, j :: 0 <= i < j < |v.pairs| && v.pairs[i].key.Leaf? && v.pairs[j].key.Leaf? ==>
          v.pairs[i].key.key != v.pairs[j].key.key)
    {
      forall i | 0 <= i < |v.pairs| ensures KeyOk(v, i) { }
    }
  }

  lemma {:induction false} ListSoundIff(l: ValueList)
    ensures ListCost(l).sound <==> ListWellMade(l)
    decreases l
  {
    hide ItemsCost, AvailableCost, WellMade;
    ItemsSoundIff(l, |l.items|);
    AvailableSoundIff(l, |l.available|);
    UniqueIff(l);
  }

  lemma {:induction false} UniqueIff(l: ValueList)
    ensures (forall i :: 0 <= i < |l.items| ==> ItemOk(l, i)) <==>
            && (forall i, j :: 0 <= i < j < |l.items| ==> l.items[i].id != l.items[j].id)
            && (forall i :: 0 <= i < |l.items| ==> l.items[i].presentation.Leaf? && l.items[i].presentation.text)
  {
    if forall i :: 0 <= i < |l.items| ==> ItemOk(l, i) {
      forall i, j | 0 <= i < j < |l.items| ensures l.items[i].id != l.items[j].id { assert ItemOk(l, j); }
      forall i | 0 <= i < |l.items| ensures l.items[i].presentation.Leaf? && l.items[i].presentation.text {
        assert ItemOk(l, i);
      }
    }
    if (forall i, j :: 0 <= i < j < |l.items| ==> l.items[i].id != l.items[j].id) &&
       (forall i :: 0 <= i < |l.items| ==> l.items[i].presentation.Leaf? && l.items[i].presentation.text)
    {
      forall i | 0 <= i < |l.items| ensures ItemOk(l, i) { }
    }
  }

  lemma {:induction false} ItemsSoundIff(l: ValueList, n: nat)
    requires n <= |l.items|
    ensures ItemsCost(l, n).sound <==>
            forall i :: 0 <= i < n ==>
              ItemOk(l, i) && WellMade(l.items[i].value) && WellMade(l.items[i].presentation) &&
              l.items[i].picture != Some(false)
    decreases l, n
  {
    hide Measure, WellMade, ItemOk;
    if n > 0 {
      ItemsSoundIff(l, n - 1);
      SoundIff(l.items[n - 1].value);
      SoundIff(l.items[n - 1].presentation);
    }
  }

  lemma {:induction false} AvailableSoundIff(l: ValueList, n: nat)
    requires n <= |l.available|
    ensures AvailableCost(l, n).sound <==> forall i :: 0 <= i < n ==> ListWellMade(l.available[i])
    decreases l, n
  {
    hide ListCost, ListWellMade;
    if n > 0 {
      AvailableSoundIff(l, n - 1);
      ListSoundIff(l.available[n - 1]);
    }
  }

  /** What is accepted: a well-made value whose visits are few enough and nowhere too deep. */
  lemma {:induction false} AcceptedIff(v: Value, nodes: nat, depth: nat)
    ensures Fits(Measure(v), nodes, depth) <==>
            WellMade(v) && nodes + |Visits(v, depth)| <= 1000000 &&
            forall i :: 0 <= i < |Visits(v, depth)| ==> Visits(v, depth)[i] <= 64
  {
    hide Measure, Visits, WellMade;
    SoundIff(v);
    ValueAgrees(v, depth);
    VisitsSome(v, depth);
  }

  /** The same for the contents of a list. */
  lemma {:induction false} ListAcceptedIff(l: ValueList, nodes: nat, depth: nat)
    requires depth <= 64
    ensures Fits(ListCost(l), nodes, depth) <==>
            ListWellMade(l) && nodes + |ListVisits(l, depth)| <= 1000000 &&
            forall i :: 0 <= i < |ListVisits(l, depth)| ==> ListVisits(l, depth)[i] <= 64
  {
    hide ListCost, ListVisits, ListWellMade;
    ListSoundIff(l);
    ListAgrees(l, depth);
  }
}
