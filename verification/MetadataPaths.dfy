/** What a metadata path is: members of which each belongs to the type that the one before it has. Resolving
    finds a path exactly if there is one. */
module MetadataPaths {
  import opened MetadataContext
  import opened Optional

  /** A pattern that is one object or reference type of the context, and the owner of that type's members. */
  ghost predicate LeadsTo(types: seq<TypeDescriptor>, pattern: Pattern, owner: string) {
    && |pattern| == 1 && pattern[0].term in {ObjectTerm, ReferenceTerm} && pattern[0].typeUuid.Some?
    && exists i :: 0 <= i < |types| && types[i].typeId == pattern[0].typeUuid.value && types[i].ownerId == owner
  }

  /** Each member but the first belongs to the type of the one before it. */
  ghost predicate Linked(c: Context, ms: seq<Member>) {
    && (forall i :: 0 <= i < |ms| ==> ms[i] in c.members)
    && (forall i, j :: 0 <= i < j < |ms| && j == i + 1 ==> LinkedPair(c, ms[i], ms[j]))
  }

  ghost predicate LinkedPair(c: Context, m: Member, next: Member) {
    m.pattern.Some? && LeadsTo(c.types, m.pattern.value, next.owner)
  }

  ghost predicate IsPath(c: Context, root: Pattern, ms: seq<Member>, path: Path) {
    && |path.members| == |path.keys| == |ms|
    && (forall i :: 0 <= i < |ms| ==> path.members[i] == ms[i].name && path.keys[i] == ms[i].key)
    && if |ms| == 0 then path.leaf == Some(root) && path.unresolved == None
       else
         && LeadsTo(c.types, root, ms[0].owner) && Linked(c, ms)
         && path.leaf == ms[|ms| - 1].pattern && path.unresolved == ms[|ms| - 1].unresolved
  }

  lemma {:induction false} LeadsToIff(types: seq<TypeDescriptor>, pattern: Pattern, owner: string)
    requires TypesDistinct(types)
    ensures OwnerOf(types, pattern) == Some(owner) <==> LeadsTo(types, pattern, owner)
  {
    hide FindType;
    var typeId := SingularObject(pattern);
    if typeId.Some? {
      var found := FindType(types, typeId.value);
      if found.Some? {
        var i :| 0 <= i < |types| && types[i] == found.value;
        OneType(types, i, owner);
      }
    }
  }

  lemma {:induction false} OneType(types: seq<TypeDescriptor>, i: nat, owner: string)
    requires TypesDistinct(types) && i < |types|
    ensures (exists j :: 0 <= j < |types| && types[j].typeId == types[i].typeId && types[j].ownerId == owner) <==>
            types[i].ownerId == owner
  {
  }

  lemma {:induction false} FindNameIff(members: seq<Member>, owner: string, name: string, m: Member)
    requires MembersDistinct(members)
    ensures FindName(members, owner, name) == Some(m) <==> m in members && m.owner == owner && m.name == name
  {
    hide FindName;
    if m in members && m.owner == owner && m.name == name { FoundByBoth(members, m); }
  }

  lemma {:induction false} FindKeyIff(members: seq<Member>, owner: string, key: MemberKey, m: Member)
    requires MembersDistinct(members)
    ensures FindKey(members, owner, key) == Some(m) <==> m in members && m.owner == owner && m.key == key
  {
    hide FindKey;
    if m in members && m.owner == owner && m.key == key { FoundByBoth(members, m); }
  }

  /** Members found one after another from an owner. */
  ghost predicate Walked(c: Context, owner: string, ms: seq<Member>) {
    Linked(c, ms) && (|ms| > 0 ==> ms[0].owner == owner)
  }

  lemma {:induction false} WalkedHead(c: Context, owner: string, m: Member, rest: seq<Member>)
    ensures Walked(c, owner, [m] + rest) <==>
            && m in c.members && m.owner == owner
            && (|rest| > 0 ==> m.pattern.Some? && LeadsTo(c.types, m.pattern.value, rest[0].owner) && Linked(c, rest))
  {
    hide LeadsTo;
    var ms := [m] + rest;
    forall i | 0 <= i < |rest| ensures ms[i + 1] == rest[i] { }
    if |rest| > 0 && Linked(c, ms) {
      assert LinkedPair(c, ms[0], ms[1]);
      forall i | 0 <= i < |rest| ensures rest[i] in c.members { assert ms[i + 1] in c.members; }
      forall i, j | 0 <= i < j < |rest| && j == i + 1 ensures LinkedPair(c, rest[i], rest[j]) {
        assert LinkedPair(c, ms[i + 1], ms[j + 1]);
      }
    }
    if |rest| > 0 && m in c.members && LinkedPair(c, m, rest[0]) && Linked(c, rest) {
      forall i, j | 0 <= i < j < |ms| && j == i + 1 ensures LinkedPair(c, ms[i], ms[j]) {
        if i > 0 { assert LinkedPair(c, rest[i - 1], rest[j - 1]); }
      }
      hide LinkedPair;
    }
  }

  lemma {:induction false} WalkNamesIff(c: Context, owner: string, names: seq<string>, ms: seq<Member>)
    requires TypesDistinct(c.types) && MembersDistinct(c.members)
    ensures WalkNames(c, owner, names) == Some(ms) <==> NamesOf(ms) == names && Walked(c, owner, ms)
    decreases names
  {
    hide FindName, NextOwner, TypesDistinct, MembersDistinct, Linked, WalkNames, LeadsTo, Prepend, Walked;
    if names == [] {
      WalkNothing(c, owner);
      WalkedNone(c, owner);
    } else if ms != [] {
      var m, rest := ms[0], ms[1..];
      assert ms == [m] + rest && names[0..] == names;
      WalkNamesStep(c, owner, names, 0);
      FindNameIff(c.members, owner, names[0], m);
      WalkedHead(c, owner, m, rest);
      NamesHead(m, rest, names);
      var found := FindName(c.members, owner, names[0]);
      if found == Some(m) && |names| > 1 {
        var next := NextOwner(c.types, m);
        NextOwnerIff(c, m, if rest == [] then "" else rest[0].owner);
        if next.Some? {
          WalkNamesIff(c, next.value, names[1..], rest);
          WalkedFrom(c, next.value, rest);
          NextOwnerIff(c, m, next.value);
          PrependIs(m, WalkNames(c, next.value, names[1..]), ms);
        }
      } else if found.Some? && |names| > 1 {
        var next := NextOwner(c.types, found.value);
        if next.Some? { PrependIs(found.value, WalkNames(c, next.value, names[1..]), ms); }
      } else if |names| == 1 {
        assert names[1..] == [];
        assert |NamesOf(rest)| == |rest|;
        if found.Some? { Single(found.value, m, rest); }
      }
    }
  }

  lemma {:induction false} PrependIs(m: Member, found: Option<seq<Member>>, ms: seq<Member>)
    ensures Prepend([m], found) == Some(ms) <==> ms != [] && ms[0] == m && found == Some(ms[1..])
  {
    if ms != [] && ms[0] == m { assert ms == [m] + ms[1..]; }
    if found.Some? { assert ([m] + found.value)[1..] == found.value; }
  }

  lemma {:induction false} Single(n: Member, m: Member, rest: seq<Member>)
    ensures [n] == [m] + rest <==> n == m && rest == []
  {
    assert ([m] + rest)[0] == m && |[m] + rest| == 1 + |rest|;
    if rest == [] { assert [m] + rest == [m]; }
  }

  lemma {:induction false} WalkedNone(c: Context, owner: string)
    ensures Walked(c, owner, [])
  {
  }

  lemma {:induction false} WalkedFrom(c: Context, owner: string, ms: seq<Member>)
    ensures Walked(c, owner, ms) <==> Linked(c, ms) && (|ms| > 0 ==> ms[0].owner == owner)
  {
    hide Linked;
  }

  lemma {:induction false} NamesHead(m: Member, rest: seq<Member>, names: seq<string>)
    requires names != []
    ensures NamesOf([m] + rest) == names <==> m.name == names[0] && NamesOf(rest) == names[1..]
  {
    assert NamesOf([m] + rest) == [m.name] + NamesOf(rest);
    assert names == [names[0]] + names[1..];
  }

  lemma {:induction false} KeysHead(m: Member, rest: seq<Member>, keys: seq<MemberKey>)
    requires keys != []
    ensures KeysOf([m] + rest) == keys <==> m.key == keys[0] && KeysOf(rest) == keys[1..]
  {
    assert KeysOf([m] + rest) == [m.key] + KeysOf(rest);
    assert keys == [keys[0]] + keys[1..];
  }

  lemma {:induction false} NextOwnerIff(c: Context, m: Member, owner: string)
    requires TypesDistinct(c.types)
    ensures NextOwner(c.types, m) == Some(owner) <==> m.pattern.Some? && LeadsTo(c.types, m.pattern.value, owner)
  {
    hide OwnerOf, LeadsTo;
    if m.pattern.Some? { LeadsToIff(c.types, m.pattern.value, owner); }
  }

  lemma {:induction false} WalkKeysIff(c: Context, owner: string, keys: seq<MemberKey>, ms: seq<Member>)
    requires TypesDistinct(c.types) && MembersDistinct(c.members)
    ensures WalkKeys(c, owner, keys) == Some(ms) <==> KeysOf(ms) == keys && Walked(c, owner, ms)
    decreases keys
  {
    hide FindKey, NextOwner, TypesDistinct, MembersDistinct, Linked, WalkKeys, LeadsTo, Prepend, Walked;
    if keys == [] {
      WalkNothing(c, owner);
      WalkedNone(c, owner);
    } else if ms != [] {
      var m, rest := ms[0], ms[1..];
      assert ms == [m] + rest && keys[0..] == keys;
      WalkKeysStep(c, owner, keys, 0);
      FindKeyIff(c.members, owner, keys[0], m);
      WalkedHead(c, owner, m, rest);
      KeysHead(m, rest, keys);
      var found := FindKey(c.members, owner, keys[0]);
      if found == Some(m) && |keys| > 1 {
        var next := NextOwner(c.types, m);
        NextOwnerIff(c, m, if rest == [] then "" else rest[0].owner);
        if next.Some? {
          WalkKeysIff(c, next.value, keys[1..], rest);
          WalkedFrom(c, next.value, rest);
          NextOwnerIff(c, m, next.value);
          PrependIs(m, WalkKeys(c, next.value, keys[1..]), ms);
        }
      } else if found.Some? && |keys| > 1 {
        var next := NextOwner(c.types, found.value);
        if next.Some? { PrependIs(found.value, WalkKeys(c, next.value, keys[1..]), ms); }
      } else if |keys| == 1 {
        assert keys[1..] == [];
        assert |KeysOf(rest)| == |rest|;
        if found.Some? { Single(found.value, m, rest); }
      }
    }
  }

  lemma {:induction false} ValidDistinct(c: Context)
    requires Valid(c)
    ensures TypesDistinct(c.types) && MembersDistinct(c.members)
  {
    hide TypesDistinct, MembersDistinct, Indexes, TypeOk, MemberOk;
  }

  /** Resolving names gives a path exactly if the path is not too deep, has these names, and is one. */
  lemma {:induction false} NamesResolveIff(c: Context, root: Pattern, names: seq<string>, path: Path)
    requires Valid(c)
    ensures ResolvedNames(c, root, names) == Some(path) <==>
            |names| <= 128 && path.members == names && exists ms :: IsPath(c, root, ms, path)
  {
    hide Valid, WalkNames, OwnerOf, Linked, LeadsTo, TypesDistinct, MembersDistinct;
    ValidDistinct(c);
    if ResolvedNames(c, root, names) == Some(path) {
      if names == [] {
        assert IsPath(c, root, [], path);
      } else {
        var owner := OwnerOf(c.types, root).value;
        var ms := WalkNames(c, owner, names).value;
        WalkNamesIff(c, owner, names, ms);
        LeadsToIff(c.types, root, owner);
        assert IsPath(c, root, ms, path);
      }
    }
    if |names| <= 128 && path.members == names {
      forall ms: seq<Member> | IsPath(c, root, ms, path) ensures ResolvedNames(c, root, names) == Some(path) {
        PathNames(c, root, ms, path);
        if ms != [] {
          LeadsToIff(c.types, root, ms[0].owner);
          WalkNamesIff(c, ms[0].owner, names, ms);
        }
      }
    }
  }

  lemma {:induction false} PathNames(c: Context, root: Pattern, ms: seq<Member>, path: Path)
    requires IsPath(c, root, ms, path)
    ensures NamesOf(ms) == path.members && KeysOf(ms) == path.keys && PathThrough(root, ms) == path
  {
    hide Linked, LeadsTo;
  }

  /** The same for keys. */
  lemma {:induction false} KeysResolveIff(c: Context, root: Pattern, keys: seq<MemberKey>, path: Path)
    requires Valid(c)
    ensures ResolvedKeys(c, root, keys) == Some(path) <==>
            |keys| <= 128 && path.keys == keys && exists ms :: IsPath(c, root, ms, path)
  {
    hide Valid, WalkKeys, OwnerOf, Linked, LeadsTo, TypesDistinct, MembersDistinct;
    ValidDistinct(c);
    if ResolvedKeys(c, root, keys) == Some(path) {
      if keys == [] {
        assert IsPath(c, root, [], path);
      } else {
        var owner := OwnerOf(c.types, root).value;
        var ms := WalkKeys(c, owner, keys).value;
        WalkKeysIff(c, owner, keys, ms);
        LeadsToIff(c.types, root, owner);
        assert IsPath(c, root, ms, path);
      }
    }
    if |keys| <= 128 && path.keys == keys {
      forall ms: seq<Member> | IsPath(c, root, ms, path) ensures ResolvedKeys(c, root, keys) == Some(path) {
        PathNames(c, root, ms, path);
        if ms != [] {
          LeadsToIff(c.types, root, ms[0].owner);
          WalkKeysIff(c, ms[0].owner, keys, ms);
        }
      }
    }
  }

  // ---------- Identifiers ----------

  /** Lower-case hexadecimal digits. */
  ghost predicate HexText(s: string) {
    forall i :: 0 <= i < |s| ==> s[i] in "0123456789abcdef"
  }

  /** An identifier is eight, four, four, four and twelve hexadecimal digits with hyphens between them. */
  lemma {:induction false} UuidForm(a: string, b: string, c: string, d: string, e: string)
    requires |a| == 8 && |b| == 4 && |c| == 4 && |d| == 4 && |e| == 12
    ensures ValidUuid(a + "-" + b + "-" + c + "-" + d + "-" + e) <==>
            HexText(a) && HexText(b) && HexText(c) && HexText(d) && HexText(e)
  {
    var s := a + "-" + b + "-" + c + "-" + d + "-" + e;
    assert s[8] == '-' && s[13] == '-' && s[18] == '-' && s[23] == '-';
    assert s[..8] == a && s[9..13] == b && s[14..18] == c && s[19..23] == d && s[24..] == e;
    HexPart(s, 0, 8);
    HexPart(s, 9, 13);
    HexPart(s, 14, 18);
    HexPart(s, 19, 23);
    HexPart(s, 24, 36);
    assert s[0..8] == a && s[24..36] == e;
  }

  lemma {:induction false} HexPart(s: string, from: nat, to: nat)
    requires from <= to <= |s|
    ensures HexText(s[from..to]) <==> forall i :: from <= i < to ==> IsHexDigit(s[i])
  {
    forall i | from <= i < to ensures s[from..to][i - from] == s[i] && (s[i] in "0123456789abcdef" <==> IsHexDigit(s[i])) {
      HexDigits(s[i]);
    }
  }

  lemma {:induction false} HexDigits(c: char)
    ensures c in "0123456789abcdef" <==> IsHexDigit(c)
  {
    var digits := "0123456789abcdef";
    if '0' <= c <= '9' { assert digits[c as int - '0' as int] == c; }
    if 'a' <= c <= 'f' { assert digits[10 + c as int - 'a' as int] == c; }
  }

  /** Of all identifiers, only the one without any other digit than zero is no identifier of anything. */
  lemma {:induction false} GoodUuidIff(s: string)
    ensures GoodUuid(s) <==> ValidUuid(s) && s != "00000000-0000-0000-0000-000000000000"
  {
    var zero := "00000000-0000-0000-0000-000000000000";
    if ValidUuid(s) && !NonzeroUuid(s) {
      forall i | 0 <= i < 36 ensures s[i] == zero[i] { }
      assert s == zero;
    }
  }
}
