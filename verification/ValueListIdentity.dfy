/** A value list shared by all its aliases, and references to its rows. A row reference stays attached
    while its ID is in every version of the list, and is never attached again after that. */
module ValueListIdentity {
  import opened Optional
  import opened Sequences
  import opened TypedValue

  function IndexOfId(items: seq<Item>, id: nat): (r: Option<nat>)
    ensures r.Some? ==> r.value < |items| && items[r.value].id == id
    ensures r.None? ==> forall i :: 0 <= i < |items| ==> items[i].id != id
  {
    FirstWhere(items, (item: Item) => item.id == id)
  }

  predicate HasId(v: ValueList, id: nat) {
    exists i :: 0 <= i < |v.items| && v.items[i].id == id
  }

  ghost predicate UniqueIds(v: ValueList) {
    forall i, j :: 0 <= i < j < |v.items| ==> v.items[i].id != v.items[j].id
  }

  /** The item of an ID. */
  function ItemOf(v: ValueList, id: nat): Item
    requires HasId(v, id)
  {
    v.items[IndexOfId(v.items, id).value]
  }

  lemma {:induction false} ItemOfIs(v: ValueList, i: nat)
    requires UniqueIds(v) && i < |v.items|
    ensures HasId(v, v.items[i].id) && ItemOf(v, v.items[i].id) == v.items[i]
  {
    hide IndexOfId;
  }

  predicate Acceptable(v: ValueList) {
    Fits(ListCost(v), 1, 0)
  }

  lemma {:induction false} ItemsUnique(l: ValueList, n: nat)
    requires n <= |l.items| && ItemsCost(l, n).sound
    ensures forall i, j :: 0 <= i < j < n ==> l.items[i].id != l.items[j].id
  {
    hide Measure;
    if n > 0 { ItemsUnique(l, n - 1); }
  }

  lemma {:induction false} AcceptableMeans(v: ValueList)
    ensures Acceptable(v) <==> Fits(ListCost(v), 1, 0)
  {
  }

  lemma {:induction false} AcceptableUnique(v: ValueList)
    requires Acceptable(v)
    ensures UniqueIds(v)
  {
    hide ItemsCost, AvailableCost, LastIdOk;
    ItemsUnique(v, |v.items|);
  }

  /** An ID is in every version from one on. */
  ghost predicate PresentSince(versions: seq<ValueList>, version: nat, id: nat) {
    forall k :: version <= k < |versions| ==> HasId(versions[k], id)
  }

  lemma {:induction false} PresentSnoc(versions: seq<ValueList>, v: ValueList, version: nat, id: nat)
    requires version < |versions|
    ensures PresentSince(versions + [v], version, id) <==> PresentSince(versions, version, id) && HasId(v, id)
  {
    hide HasId;
    if PresentSince(versions + [v], version, id) {
      assert HasId((versions + [v])[|versions|], id);
      forall k | version <= k < |versions| ensures HasId(versions[k], id) { assert HasId((versions + [v])[k], id); }
    }
  }

  lemma {:induction false} PresentNow(versions: seq<ValueList>, id: nat)
    requires versions != [] && HasId(versions[|versions| - 1], id)
    ensures PresentSince(versions, |versions| - 1, id)
  {
  }

  /** What a row reference points to. */
  class ItemIdentity {
    const id: nat
    var payload: Item

    constructor (id: nat, payload: Item)
      ensures this.id == id && this.payload == payload
    {
      this.id, this.payload := id, payload;
    }
  }

  /** An ID was missing in some version after one and up to another. */
  ghost predicate WasGone(versions: seq<ValueList>, id: nat, after: nat, until: nat) {
    exists k :: after < k <= until && k < |versions| && !HasId(versions[k], id)
  }

  /** An identity is made while the list has its ID. Between the births of two identities of one ID, the
      ID was gone. */
  ghost predicate BirthsOk(versions: seq<ValueList>, born: map<ItemIdentity, nat>) {
    && (forall h :: h in born ==> born[h] < |versions| && HasId(versions[born[h]], h.id))
    && forall g, h :: g in born && h in born && g != h && g.id == h.id && born[g] <= born[h] ==>
         WasGone(versions, g.id, born[g], born[h])
  }

  lemma {:induction false} BirthsSnoc(versions: seq<ValueList>, v: ValueList, born: map<ItemIdentity, nat>)
    requires BirthsOk(versions, born)
    ensures BirthsOk(versions + [v], born)
  {
    hide HasId;
    var after := versions + [v];
    forall g, h | g in born && h in born && g != h && g.id == h.id && born[g] <= born[h]
      ensures WasGone(after, g.id, born[g], born[h])
    {
      var k :| born[g] < k <= born[h] && k < |versions| && !HasId(versions[k], g.id);
      assert !HasId(after[k], g.id);
    }
  }

  lemma {:induction false} GoneSince(versions: seq<ValueList>, id: nat, version: nat)
    requires version < |versions| && HasId(versions[version], id) && !PresentSince(versions, version, id)
    ensures WasGone(versions, id, version, |versions| - 1) && version < |versions| - 1
  {
    hide HasId;
  }

  lemma {:induction false} BirthsMore(versions: seq<ValueList>, born: map<ItemIdentity, nat>, h: ItemIdentity)
    requires BirthsOk(versions, born) && h !in born && versions != [] && HasId(versions[|versions| - 1], h.id)
    requires forall g :: g in born && g.id == h.id ==> !PresentSince(versions, born[g], g.id)
    ensures BirthsOk(versions, born[h := |versions| - 1])
  {
    hide HasId, PresentSince, WasGone;
    forall g | g in born && g.id == h.id ensures WasGone(versions, g.id, born[g], |versions| - 1) && born[g] < |versions| - 1 {
      GoneSince(versions, g.id, born[g]);
    }
  }

  class SharedValueList {
    var value: ValueList
    var identities: map<nat, ItemIdentity>
    /** Every version the list had, and the version at which each identity was made. */
    ghost var versions: seq<ValueList>
    ghost var born: map<ItemIdentity, nat>

    ghost predicate Attached(h: ItemIdentity)
      reads this
    {
      h.id in identities && identities[h.id] == h
    }

    ghost predicate Valid()
      reads this, born.Keys
    {
      && versions != [] && value == versions[|versions| - 1] && UniqueIds(value)
      && (forall id :: id in identities ==> identities[id] in born && identities[id].id == id)
      && (forall h :: h in born ==> HandleOk(h))
      && BirthsOk(versions, born)
    }

    ghost predicate HandleOk(h: ItemIdentity)
      requires h in born
      reads this, h
    {
      && born[h] < |versions|
      && (Attached(h) <==> PresentSince(versions, born[h], h.id))
      && (Attached(h) ==> HasId(value, h.id) && h.payload == ItemOf(value, h.id))
    }

    /** Creating a list from an acceptable value. Copies of the reference share this object. */
    constructor (value: ValueList)
      requires Acceptable(value)
      ensures Valid() && this.value == value && versions == [value] && born == map[]
    {
      this.value, identities, versions, born := value, map[], [value], map[];
      new;
      AcceptableUnique(value);
    }

    /** Replaces the whole value, through any alias. Identities whose ID remains take the new item;
        the others are let go, with what they last held. */
    method Replace(v: ValueList) returns (ok: bool)
      requires Valid()
      modifies this, born.Keys
      ensures Valid() && (ok <==> Acceptable(v)) && born == old(born)
      ensures !ok ==> value == old(value) && versions == old(versions) && identities == old(identities)
      ensures !ok ==> forall h :: h in born ==> h.payload == old(h.payload)
      ensures ok ==> value == v && versions == old(versions) + [v]
      ensures ok ==> forall h :: h in born ==> (Attached(h) <==> old(Attached(h)) && HasId(v, h.id))
      ensures ok ==> forall h :: h in born ==> h.payload == if Attached(h) then ItemOf(v, h.id) else old(h.payload)
    {
      hide ListCost, ItemOf, HasId, PresentSince, UniqueIds, Acceptable, BirthsOk, HandleOk;
      var budget := new Budget(1);
      AcceptableMeans(v);
      ok := ValidateContents(v, budget, 0);
      if !ok { return; }
      AcceptableUnique(v);
      Adopt(v);
    }

    method Adopt(v: ValueList)
      requires Valid() && UniqueIds(v)
      modifies this, born.Keys
      ensures Valid() && born == old(born) && value == v && versions == old(versions) + [v]
      ensures forall h :: h in born ==> (Attached(h) <==> old(Attached(h)) && HasId(v, h.id))
      ensures forall h :: h in born ==> h.payload == if Attached(h) then ItemOf(v, h.id) else old(h.payload)
    {
      hide ItemOf, HasId, PresentSince, UniqueIds, BirthsOk;
      ghost var before := versions;
      var replacement, updates := Remaining(v);
      value := v;
      versions := versions + [v];
      BirthsSnoc(before, v, born);
      ApplyUpdates(updates, v);
      identities := replacement;
      forall h | h in born ensures HandleOk(h) {
        HandleAfter(h, before, old(Attached(h)));
      }
    }

    lemma {:induction false} HandleAfter(h: ItemIdentity, before: seq<ValueList>, attached: bool)
      requires h in born && born[h] < |before| && versions == before + [value]
      requires attached <==> PresentSince(before, born[h], h.id)
      requires Attached(h) <==> attached && HasId(value, h.id)
      requires Attached(h) ==> h.payload == ItemOf(value, h.id)
      ensures HandleOk(h)
    {
      hide HasId, PresentSince, ItemOf;
      PresentSnoc(before, value, born[h], h.id);
    }

    /** The identities whose ID the new value has, and the items they will hold. */
    method Remaining(v: ValueList) returns (replacement: map<nat, ItemIdentity>, updates: seq<(ItemIdentity, Item)>)
      requires UniqueIds(v) && forall id :: id in identities ==> identities[id].id == id
      ensures forall id :: id in replacement <==> id in identities && HasId(v, id)
      ensures forall id :: id in replacement ==> replacement[id] == identities[id] && (replacement[id], ItemOf(v, id)) in updates
      ensures forall u :: u in updates ==> u.0.id in replacement && replacement[u.0.id] == u.0 && u.1 == ItemOf(v, u.0.id)
    {
      hide IndexOfId, ItemOf;
      replacement, updates := map[], [];
      var i := 0;
      while i < |v.items|
        invariant 0 <= i <= |v.items|
        invariant forall id :: id in replacement <==> id in identities && exists j :: 0 <= j < i && v.items[j].id == id
        invariant forall id :: id in replacement ==> HasId(v, id) && replacement[id] == identities[id] && (replacement[id], ItemOf(v, id)) in updates
        invariant forall u :: u in updates ==> u.0.id in replacement && replacement[u.0.id] == u.0 && u.1 == ItemOf(v, u.0.id)
      {
        ItemOfIs(v, i);
        var item := v.items[i];
        if item.id in identities {
          replacement := replacement[item.id := identities[item.id]];
          updates := updates + [(identities[item.id], item)];
        }
        i := i + 1;
      }
    }

    static method ApplyUpdates(updates: seq<(ItemIdentity, Item)>, ghost v: ValueList)
      requires forall u :: u in updates ==> HasId(v, u.0.id) && u.1 == ItemOf(v, u.0.id)
      modifies set u | u in updates :: u.0
      ensures forall u :: u in updates ==> u.0.payload == u.1
    {
      hide ItemOf;
      var i := 0;
      while i < |updates|
        invariant 0 <= i <= |updates|
        invariant forall j :: 0 <= j < i ==> updates[j].0.payload == updates[j].1
      {
        assert updates[i] in updates;
        forall j | 0 <= j < i && updates[j].0 == updates[i].0 ensures updates[j].1 == updates[i].1 { assert updates[j] in updates; }
        updates[i].0.payload := updates[i].1;
        i := i + 1;
      }
    }

    /** A reference to the row with an ID. All references to one row share its identity. */
    method CreateItemRef(id: nat) returns (h: ItemIdentity?)
      requires Valid()
      modifies this`identities, this`born
      ensures Valid() && (h != null <==> HasId(value, id))
      ensures h != null ==> h.id == id && Attached(h) && h in born
      ensures born.Keys == old(born.Keys) + (if h == null then {} else {h})
      ensures forall g :: g in old(born) ==> born[g] == old(born[g]) && g.payload == old(g.payload) && Attached(g) == old(Attached(g))
    {
      hide HasId, ItemOf, PresentSince, UniqueIds, BirthsOk;
      var item := FindItem(value, id);
      if item.None? { return null; }
      if id !in identities {
        PresentNow(versions, id);
        h := new ItemIdentity(id, item.value);
        BirthsMore(versions, born, h);
        identities := identities[id := h];
        born := born[h := |versions| - 1];
      } else {
        h := identities[id];
      }
    }

    /** Whether the row a reference was made for is still the row of its ID. */
    method IsAttached(h: ItemIdentity) returns (attached: bool)
      requires Valid() && h in born
      ensures attached <==> PresentSince(versions, born[h], h.id)
      ensures attached ==> HasId(value, h.id) && h.payload == ItemOf(value, h.id)
    {
      attached := h.id in identities && identities[h.id] == h;
    }

    /** Attached at some version, a reference is attached now exactly if its ID never went since. */
    lemma {:induction false} AttachedSince(h: ItemIdentity, version: nat)
      requires Valid() && h in born && born[h] <= version < |versions|
      requires forall k :: born[h] <= k <= version ==> HasId(versions[k], h.id)
      ensures Attached(h) <==> PresentSince(versions, version, h.id)
    {
    }

    /** An ID that was dropped and came back: no reference from before is attached. */
    lemma {:induction false} NeverReattached(h: ItemIdentity, gone: nat)
      requires Valid() && h in born && born[h] <= gone < |versions| && !HasId(versions[gone], h.id)
      ensures !Attached(h)
    {
    }

    /** Two references, attached in versions t and u, share one identity exactly if they have the same ID
        and it was in every version from t to u. */
    lemma {:induction false} SameIdentityIff(g: ItemIdentity, h: ItemIdentity, t: nat, u: nat)
      requires Valid() && g in born && h in born && born[g] <= t <= u < |versions| && born[h] <= u
      requires forall k :: born[g] <= k <= t ==> HasId(versions[k], g.id)
      requires forall k :: born[h] <= k <= u ==> HasId(versions[k], h.id)
      ensures g == h <==> g.id == h.id && forall k :: t <= k <= u ==> HasId(versions[k], g.id)
    {
      hide HasId, HandleOk;
    }
  }

  method FindItem(v: ValueList, id: nat) returns (item: Option<Item>)
    requires UniqueIds(v)
    ensures item == if HasId(v, id) then Some(ItemOf(v, id)) else None
  {
    hide ItemOf;
    var i := 0;
    while i < |v.items|
      invariant 0 <= i <= |v.items| && forall j :: 0 <= j < i ==> v.items[j].id != id
    {
      if v.items[i].id == id {
        ItemOfIs(v, i);
        return Some(v.items[i]);
      }
      i := i + 1;
    }
    item := None;
  }
}
