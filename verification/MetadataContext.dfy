/** The index of metadata types and members. Owners and member names or keys are encoded into one
    string to look them up; paths by name and by key undo each other. */
module MetadataContext {
  import opened Decimal
  import opened DecimalPolicy
  import opened Optional

  const MAX_TYPES: nat := 100000
  const MAX_MEMBERS: nat := 1000000
  const MAX_PATH_DEPTH: nat := 128

  datatype MemberKey = UuidKey(uuid: string) | NumberKey(n: int)

  datatype Term = ObjectTerm | ReferenceTerm | OtherTerm

  datatype TypeEntry = TypeEntry(term: Term, typeUuid: Option<string>)

  type Pattern = seq<TypeEntry>

  datatype TypeDescriptor = TypeDescriptor(typeId: string, ownerId: string, name: string)

  datatype Member = Member(owner: string, name: string, key: MemberKey, pattern: Option<Pattern>, unresolved: Option<string>)

  datatype Path = Path(members: seq<string>, keys: seq<MemberKey>, leaf: Option<Pattern>, unresolved: Option<string>)

  // ---------- Identifiers ----------

  predicate IsHexDigit(c: char) {
    '0' <= c <= '9' || 'a' <= c <= 'f'
  }

  predicate ValidUuid(s: string) {
    |s| == 36 && forall i :: 0 <= i < 36 ==> if i in {8, 13, 18, 23} then s[i] == '-' else IsHexDigit(s[i])
  }

  predicate NonzeroUuid(s: string) {
    exists i :: 0 <= i < |s| && s[i] != '0' && s[i] != '-'
  }

  predicate GoodUuid(s: string) {
    ValidUuid(s) && NonzeroUuid(s)
  }

  // ---------- Encoded keys ----------

  const NUL: char := 0 as char

  function NameCode(owner: string, name: string): string {
    owner + [NUL] + name
  }

  function KeyText(key: MemberKey): string {
    match key
    case UuidKey(uuid) => "u:" + uuid
    case NumberKey(n) => "n:" + IntText(n)
  }

  function KeyCode(owner: string, key: MemberKey): string {
    NameCode(owner, KeyText(key))
  }

  lemma {:induction false} NameCodeParts(owner: string, name: string)
    ensures var code := NameCode(owner, name);
            code[..|owner|] == owner && code[|owner|] == NUL && code[|owner| + 1..] == name
  {
  }

  /** Two codes of equally long owners are equal only if owners and names are. */
  lemma {:induction false} NameCodeInjective(a: string, x: string, b: string, y: string)
    requires |a| == |b|
    ensures NameCode(a, x) == NameCode(b, y) <==> a == b && x == y
  {
    NameCodeParts(a, x);
    NameCodeParts(b, y);
  }

  lemma {:induction false} IntTextInjective(a: int, b: int)
    requires IntText(a) == IntText(b)
    ensures a == b
  {
    hide Lex, Render, RealOf, IntNumber;
    IntReduced(a);
    IntReduced(b);
    IntTextMeans(a);
    IntTextMeans(b);
    RenderLex(IntNumber(a));
    RenderLex(IntNumber(b));
    assert a as real == b as real;
  }

  lemma {:induction false} KeyTextInjective(a: MemberKey, b: MemberKey)
    ensures KeyText(a) == KeyText(b) <==> a == b
  {
    hide IntText;
    var s, t := KeyText(a), KeyText(b);
    if s == t {
      assert s[0] == t[0];
      assert s[2..] == t[2..];
      match (a, b) {
        case (UuidKey(u), UuidKey(v)) => assert s[2..] == u && t[2..] == v;
        case (NumberKey(m), NumberKey(n)) =>
          assert s[2..] == IntText(m) && t[2..] == IntText(n);
          IntTextInjective(m, n);
        case _ =>
      }
    }
  }

  lemma {:induction false} KeyCodeInjective(a: string, x: MemberKey, b: string, y: MemberKey)
    requires |a| == |b|
    ensures KeyCode(a, x) == KeyCode(b, y) <==> a == b && x == y
  {
    hide NameCode, KeyText;
    NameCodeInjective(a, KeyText(x), b, KeyText(y));
    KeyTextInjective(x, y);
  }

  lemma {:induction false} NotLonger(a: string, x: string, b: string, y: string)
    requires NUL !in b && NameCode(a, x) == NameCode(b, y)
    ensures |b| <= |a|
  {
    var code := NameCode(b, y);
    assert code[|a|] == NUL;
    assert forall i :: 0 <= i < |b| ==> code[i] == b[i] && b[i] in b;
  }

  /** An owner without the separator has codes of its own even if it is not 36 characters long. */
  lemma {:induction false} CodeOfPlainOwner(a: string, x: string, b: string, y: string)
    requires NUL !in a && NUL !in b && NameCode(a, x) == NameCode(b, y)
    ensures a == b && x == y
  {
    NameCodeParts(a, x);
    NameCodeParts(b, y);
    assert |b| <= |a| by { NotLonger(a, x, b, y); }
    assert |a| <= |b| by { NotLonger(b, y, a, x); }
  }

  lemma {:induction false} UuidHasNoNul(s: string)
    requires ValidUuid(s)
    ensures NUL !in s && |s| == 36
  {
  }

  // ---------- Search ----------

  function FindType(types: seq<TypeDescriptor>, typeId: string): (r: Option<TypeDescriptor>)
    ensures r.Some? ==> r.value in types && r.value.typeId == typeId
    ensures r.None? ==> forall i :: 0 <= i < |types| ==> types[i].typeId != typeId
  {
    if types == [] then None
    else if types[0].typeId == typeId then Some(types[0])
    else FindType(types[1..], typeId)
  }

  function FindName(members: seq<Member>, owner: string, name: string): (r: Option<Member>)
    ensures r.Some? ==> r.value in members && r.value.owner == owner && r.value.name == name
    ensures r.None? ==> forall i :: 0 <= i < |members| ==> members[i].owner != owner || members[i].name != name
  {
    if members == [] then None
    else if members[0].owner == owner && members[0].name == name then Some(members[0])
    else FindName(members[1..], owner, name)
  }

  function FindKey(members: seq<Member>, owner: string, key: MemberKey): (r: Option<Member>)
    ensures r.Some? ==> r.value in members && r.value.owner == owner && r.value.key == key
    ensures r.None? ==> forall i :: 0 <= i < |members| ==> members[i].owner != owner || members[i].key != key
  {
    if members == [] then None
    else if members[0].owner == owner && members[0].key == key then Some(members[0])
    else FindKey(members[1..], owner, key)
  }

  // ---------- What a context may be made from ----------

  predicate TypeOk(t: TypeDescriptor) {
    GoodUuid(t.typeId) && GoodUuid(t.ownerId) && t.name != ""
  }

  predicate TypesDistinct(types: seq<TypeDescriptor>) {
    forall i, j :: 0 <= i < j < |types| ==> types[i].typeId != types[j].typeId && types[i].name != types[j].name
  }

  predicate OwnerKnown(types: seq<TypeDescriptor>, owner: string) {
    exists i :: 0 <= i < |types| && types[i].ownerId == owner
  }

  predicate TypeUuidsOk(pattern: Pattern) {
    forall i :: 0 <= i < |pattern| && pattern[i].typeUuid.Some? ==> GoodUuid(pattern[i].typeUuid.value)
  }

  predicate PatternOk(m: Member) {
    && !(m.pattern.Some? && m.unresolved.Some?)
    && (m.pattern.Some? ==> m.pattern.value != [])
    && (m.unresolved.Some? ==> m.unresolved.value != "")
    && (m.pattern.Some? ==> TypeUuidsOk(m.pattern.value))
  }

  predicate MemberOk(types: seq<TypeDescriptor>, m: Member) {
    && ValidUuid(m.owner) && OwnerKnown(types, m.owner) && m.name != ""
    && (m.key.UuidKey? ==> GoodUuid(m.key.uuid)) && PatternOk(m)
  }

  predicate MembersDistinct(members: seq<Member>) {
    forall i, j :: 0 <= i < j < |members| && members[i].owner == members[j].owner ==>
      members[i].name != members[j].name && members[i].key != members[j].key
  }

  predicate Acceptable(types: seq<TypeDescriptor>, members: seq<Member>) {
    && |types| <= MAX_TYPES && |members| <= MAX_MEMBERS
    && (forall i :: 0 <= i < |types| ==> TypeOk(types[i])) && TypesDistinct(types)
    && (forall i :: 0 <= i < |members| ==> MemberOk(types, members[i])) && MembersDistinct(members)
  }

  // ---------- The context ----------

  datatype Context = Context(
    types: seq<TypeDescriptor>, members: seq<Member>,
    typeIndices: map<string, nat>, nameIndices: map<string, nat>, keyIndices: map<string, nat>)

  /** An index holds each code with its position, and nothing else. */
  ghost predicate Indexes(index: map<string, nat>, codes: seq<string>) {
    && (forall i :: 0 <= i < |codes| ==> codes[i] in index && index[codes[i]] == i)
    && forall c :: c in index ==> index[c] < |codes| && codes[index[c]] == c
  }

  function TypeCodes(types: seq<TypeDescriptor>): (r: seq<string>)
    ensures |r| == |types| && forall i :: 0 <= i < |r| ==> r[i] == types[i].typeId
  {
    seq(|types|, i requires 0 <= i < |types| => types[i].typeId)
  }

  function NameCodes(members: seq<Member>): (r: seq<string>)
    ensures |r| == |members| && forall i :: 0 <= i < |r| ==> r[i] == NameCode(members[i].owner, members[i].name)
  {
    seq(|members|, i requires 0 <= i < |members| => NameCode(members[i].owner, members[i].name))
  }

  function KeyCodes(members: seq<Member>): (r: seq<string>)
    ensures |r| == |members| && forall i :: 0 <= i < |r| ==> r[i] == KeyCode(members[i].owner, members[i].key)
  {
    seq(|members|, i requires 0 <= i < |members| => KeyCode(members[i].owner, members[i].key))
  }

  ghost predicate Valid(c: Context) {
    && Acceptable(c.types, c.members)
    && Indexes(c.typeIndices, TypeCodes(c.types)) && Indexes(c.nameIndices, NameCodes(c.members))
    && Indexes(c.keyIndices, KeyCodes(c.members))
  }

  function LookupType(c: Context, typeId: string): Option<TypeDescriptor>
    requires Valid(c)
  {
    if typeId in c.typeIndices then Some(c.types[c.typeIndices[typeId]]) else None
  }

  function LookupName(c: Context, owner: string, name: string): Option<Member>
    requires Valid(c)
  {
    var code := NameCode(owner, name);
    if code in c.nameIndices then Some(c.members[c.nameIndices[code]]) else None
  }

  function LookupKey(c: Context, owner: string, key: MemberKey): Option<Member>
    requires Valid(c)
  {
    var code := KeyCode(owner, key);
    if code in c.keyIndices then Some(c.members[c.keyIndices[code]]) else None
  }

  /** The type index answers what search answers. */
  lemma {:induction false} LookupTypeIsSearch(c: Context, typeId: string)
    requires Valid(c)
    ensures LookupType(c, typeId) == FindType(c.types, typeId)
  {
    hide FindType, TypeOk, MemberOk, MembersDistinct;
    var found := FindType(c.types, typeId);
    if found.Some? {
      var i :| 0 <= i < |c.types| && c.types[i] == found.value;
      assert TypeCodes(c.types)[i] == typeId;
    } else {
      assert typeId !in c.typeIndices;
    }
  }

  /** An owner whose codes cannot be mistaken: 36 characters, or no separator in it. */
  predicate PlainOwner(owner: string) {
    |owner| == 36 || NUL !in owner
  }

  lemma {:induction false} PlainCodes(c: Context, i: nat, owner: string, text: string, x: string)
    requires Valid(c) && i < |c.members| && PlainOwner(owner)
    requires NameCode(c.members[i].owner, x) == NameCode(owner, text)
    ensures c.members[i].owner == owner && x == text
  {
    hide NameCode, Indexes, TypeOk, PatternOk, MembersDistinct, TypesDistinct, OwnerKnown;
    assert MemberOk(c.types, c.members[i]);
    UuidHasNoNul(c.members[i].owner);
    if |owner| == 36 {
      NameCodeInjective(c.members[i].owner, x, owner, text);
    } else {
      CodeOfPlainOwner(c.members[i].owner, x, owner, text);
    }
  }

  lemma {:induction false} LookupNameIsSearch(c: Context, owner: string, name: string)
    requires Valid(c) && PlainOwner(owner)
    ensures LookupName(c, owner, name) == FindName(c.members, owner, name)
  {
    hide FindName, NameCode, Acceptable, PlainOwner;
    var found := FindName(c.members, owner, name);
    var code := NameCode(owner, name);
    if found.Some? {
      var i :| 0 <= i < |c.members| && c.members[i] == found.value;
      assert NameCodes(c.members)[i] == code;
    } else if code in c.nameIndices {
      var i := c.nameIndices[code];
      assert NameCodes(c.members)[i] == code;
      PlainCodes(c, i, owner, name, c.members[i].name);
    }
  }

  /** An owner with the separator inside is mistaken for a shorter one exactly when the rest of it, the
      separator and the name are together the name of a member of the owner made of the first 36
      characters. */
  lemma {:induction false} LookupNameExact(c: Context, owner: string, name: string)
    requires Valid(c)
    ensures LookupName(c, owner, name) != FindName(c.members, owner, name) <==>
            |owner| > 36 && owner[36] == NUL && FindName(c.members, owner[..36], owner[37..] + [NUL] + name).Some?
  {
    hide FindName, NameCode, Acceptable, Indexes;
    if |owner| > 36 && owner[36] == NUL {
      var rest := owner[37..] + [NUL] + name;
      SplitOwner(owner, name);
      LookupNameIsSearch(c, owner[..36], rest);
      ForeignOwner(c, owner, name);
    } else if PlainOwner(owner) {
      LookupNameIsSearch(c, owner, name);
    } else {
      ForeignOwner(c, owner, name);
      NoSuchCode(c, owner, name);
    }
  }

  lemma {:induction false} SplitOwner(owner: string, name: string)
    requires |owner| > 36 && owner[36] == NUL
    ensures NameCode(owner, name) == NameCode(owner[..36], owner[37..] + [NUL] + name)
  {
    assert owner == owner[..36] + [NUL] + owner[37..];
  }

  lemma {:induction false} OwnersValid(c: Context, i: nat)
    requires Valid(c) && i < |c.members|
    ensures |c.members[i].owner| == 36 && NUL !in c.members[i].owner
  {
    hide Indexes, TypeOk, PatternOk, MembersDistinct, TypesDistinct, OwnerKnown, ValidUuid;
    assert MemberOk(c.types, c.members[i]);
    UuidHasNoNul(c.members[i].owner);
  }

  lemma {:induction false} ForeignOwner(c: Context, owner: string, name: string)
    requires Valid(c) && |owner| != 36
    ensures FindName(c.members, owner, name) == None
  {
    hide FindName, Acceptable, Indexes;
    if FindName(c.members, owner, name).Some? {
      var i :| 0 <= i < |c.members| && c.members[i] == FindName(c.members, owner, name).value;
      OwnersValid(c, i);
    }
  }

  lemma {:induction false} NoSuchCode(c: Context, owner: string, name: string)
    requires Valid(c) && |owner| != 36 && NUL in owner && !(|owner| > 36 && owner[36] == NUL)
    ensures NameCode(owner, name) !in c.nameIndices
  {
    hide Acceptable, NameCode;
    var code := NameCode(owner, name);
    if code in c.nameIndices {
      var i := c.nameIndices[code];
      assert NameCodes(c.members)[i] == code;
      OwnersValid(c, i);
      NulDiffers(owner, name, c.members[i].owner, c.members[i].name);
    }
  }

  lemma {:induction false} NulDiffers(owner: string, name: string, b: string, y: string)
    requires |b| == 36 && NUL !in b && |owner| != 36 && NUL in owner && !(|owner| > 36 && owner[36] == NUL)
    ensures NameCode(owner, name) != NameCode(b, y)
  {
    NameCodeParts(owner, name);
    NameCodeParts(b, y);
    var code := NameCode(b, y);
    assert forall i :: 0 <= i < 36 ==> code[i] == b[i] && b[i] in b;
    var p :| 0 <= p < |owner| && owner[p] == NUL;
    assert NameCode(owner, name)[p] == NUL;
    if |owner| > 36 { assert NameCode(owner, name)[36] == owner[36]; }
  }

  lemma {:induction false} StoredKeyText(c: Context, i: nat)
    requires Valid(c) && i < |c.members|
    ensures NUL !in KeyText(c.members[i].key)
  {
    hide Indexes, TypeOk, PatternOk, MembersDistinct, TypesDistinct, OwnerKnown, ValidUuid, IntText, IsCanonical;
    assert MemberOk(c.types, c.members[i]);
    match c.members[i].key {
      case UuidKey(uuid) => UuidHasNoNul(uuid);
      case NumberKey(n) =>
        IntTextMeans(n);
        CanonicalChars(IntText(n));
    }
  }

  /** The key index answers what search answers, whatever the owner: no stored key holds the separator. */
  lemma {:induction false} LookupKeyIsSearch(c: Context, owner: string, key: MemberKey)
    requires Valid(c)
    ensures LookupKey(c, owner, key) == FindKey(c.members, owner, key)
  {
    hide FindKey, NameCode, KeyText, Acceptable;
    var found := FindKey(c.members, owner, key);
    var code := KeyCode(owner, key);
    if found.Some? {
      var i :| 0 <= i < |c.members| && c.members[i] == found.value;
      assert KeyCodes(c.members)[i] == code;
    } else if code in c.keyIndices {
      var i := c.keyIndices[code];
      assert KeyCodes(c.members)[i] == code;
      OwnersValid(c, i);
      StoredKeyText(c, i);
      OneSeparator(c.members[i].owner, KeyText(c.members[i].key), owner, KeyText(key));
      NameCodeInjective(c.members[i].owner, KeyText(c.members[i].key), owner, KeyText(key));
      KeyTextInjective(key, c.members[i].key);
    }
  }

  /** A code with one separator tells where its owner ends. */
  lemma {:induction false} OneSeparator(a: string, x: string, b: string, y: string)
    requires NUL !in a && NUL !in x && NameCode(a, x) == NameCode(b, y)
    ensures |a| == |b|
  {
    NameCodeParts(b, y);
    NameCodeParts(a, x);
    var code := NameCode(a, x);
    assert code[|b|] == NUL;
    assert forall i :: 0 <= i < |a| ==> code[i] == a[i] && a[i] in a;
    assert forall i :: |a| < i < |code| ==> code[i] == x[i - |a| - 1] && x[i - |a| - 1] in x;
  }

  // ---------- Resolving paths ----------

  /** The one object or reference type of a pattern. */
  function SingularObject(pattern: Pattern): Option<string> {
    if |pattern| == 1 && pattern[0].term != OtherTerm then pattern[0].typeUuid else None
  }

  /** The owner whose members a pattern's type has. */
  function OwnerOf(types: seq<TypeDescriptor>, pattern: Pattern): Option<string> {
    match SingularObject(pattern)
    case None => None
    case Some(typeId) => (match FindType(types, typeId) case None => None case Some(t) => Some(t.ownerId))
  }

  function NextOwner(types: seq<TypeDescriptor>, m: Member): Option<string> {
    match m.pattern case None => None case Some(p) => OwnerOf(types, p)
  }

  /** The members that names, or keys, lead through; None if one of them leads nowhere. */
  function WalkNames(c: Context, owner: string, names: seq<string>): (r: Option<seq<Member>>)
    ensures r.Some? ==> |r.value| == |names|
    decreases names
  {
    if names == [] then Some([])
    else match FindName(c.members, owner, names[0])
      case None => None
      case Some(m) =>
        if |names| == 1 then Some([m])
        else match NextOwner(c.types, m)
          case None => None
          case Some(next) => (match WalkNames(c, next, names[1..]) case None => None case Some(rest) => Some([m] + rest))
  }

  function WalkKeys(c: Context, owner: string, keys: seq<MemberKey>): (r: Option<seq<Member>>)
    ensures r.Some? ==> |r.value| == |keys|
    decreases keys
  {
    if keys == [] then Some([])
    else match FindKey(c.members, owner, keys[0])
      case None => None
      case Some(m) =>
        if |keys| == 1 then Some([m])
        else match NextOwner(c.types, m)
          case None => None
          case Some(next) => (match WalkKeys(c, next, keys[1..]) case None => None case Some(rest) => Some([m] + rest))
  }

  function NamesOf(ms: seq<Member>): (r: seq<string>)
    ensures |r| == |ms| && forall i :: 0 <= i < |r| ==> r[i] == ms[i].name
  {
    seq(|ms|, i requires 0 <= i < |ms| => ms[i].name)
  }

  function KeysOf(ms: seq<Member>): (r: seq<MemberKey>)
    ensures |r| == |ms| && forall i :: 0 <= i < |r| ==> r[i] == ms[i].key
  {
    seq(|ms|, i requires 0 <= i < |ms| => ms[i].key)
  }

  /** The path through some members: it ends in the type of the last. */
  function PathThrough(root: Pattern, ms: seq<Member>): Path {
    if ms == [] then Path([], [], Some(root), None)
    else Path(NamesOf(ms), KeysOf(ms), ms[|ms| - 1].pattern, ms[|ms| - 1].unresolved)
  }

  function ResolvedNames(c: Context, root: Pattern, names: seq<string>): Option<Path> {
    if |names| > MAX_PATH_DEPTH then None
    else if names == [] then Some(PathThrough(root, []))
    else match OwnerOf(c.types, root)
      case None => None
      case Some(owner) => (match WalkNames(c, owner, names) case None => None case Some(ms) => Some(PathThrough(root, ms)))
  }

  function ResolvedKeys(c: Context, root: Pattern, keys: seq<MemberKey>): Option<Path> {
    if |keys| > MAX_PATH_DEPTH then None
    else if keys == [] then Some(PathThrough(root, []))
    else match OwnerOf(c.types, root)
      case None => None
      case Some(owner) => (match WalkKeys(c, owner, keys) case None => None case Some(ms) => Some(PathThrough(root, ms)))
  }

  function Prepend(front: seq<Member>, rest: Option<seq<Member>>): Option<seq<Member>> {
    match rest case None => None case Some(ms) => Some(front + ms)
  }

  lemma {:induction false} Prepended(front: seq<Member>, rest: Option<seq<Member>>)
    ensures front == [] ==> Prepend(front, rest) == rest
  {
    if rest.Some? { assert [] + rest.value == rest.value; }
  }

  lemma {:induction false} PrependMore(front: seq<Member>, m: Member, rest: Option<seq<Member>>)
    ensures Prepend(front, Prepend([m], rest)) == Prepend(front + [m], rest)
  {
    if rest.Some? { assert front + ([m] + rest.value) == (front + [m]) + rest.value; }
  }

  lemma {:induction false} WalkNothing(c: Context, owner: string)
    ensures WalkNames(c, owner, []) == Some([]) && WalkKeys(c, owner, []) == Some([])
  {
  }

  lemma {:induction false} WalkNamesStep(c: Context, owner: string, names: seq<string>, i: nat)
    requires i < |names|
    ensures WalkNames(c, owner, names[i..]) ==
            match FindName(c.members, owner, names[i])
            case None => None
            case Some(m) =>
              if i + 1 == |names| then Some([m])
              else match NextOwner(c.types, m) case None => None case Some(next) => Prepend([m], WalkNames(c, next, names[i + 1..]))
  {
    hide FindName, NextOwner;
    assert names[i..][1..] == names[i + 1..];
  }

  lemma {:induction false} WalkKeysStep(c: Context, owner: string, keys: seq<MemberKey>, i: nat)
    requires i < |keys|
    ensures WalkKeys(c, owner, keys[i..]) ==
            match FindKey(c.members, owner, keys[i])
            case None => None
            case Some(m) =>
              if i + 1 == |keys| then Some([m])
              else match NextOwner(c.types, m) case None => None case Some(next) => Prepend([m], WalkKeys(c, next, keys[i + 1..]))
  {
    hide FindKey, NextOwner;
    assert keys[i..][1..] == keys[i + 1..];
  }

  // ---------- Names and keys undo each other ----------

  lemma {:induction false} FoundByBoth(members: seq<Member>, m: Member)
    requires MembersDistinct(members) && m in members
    ensures FindName(members, m.owner, m.name) == Some(m) && FindKey(members, m.owner, m.key) == Some(m)
  {
    hide FindName, FindKey;
    var i :| 0 <= i < |members| && members[i] == m;
    var n, k := FindName(members, m.owner, m.name), FindKey(members, m.owner, m.key);
    var j :| 0 <= j < |members| && members[j] == n.value;
    var l :| 0 <= l < |members| && members[l] == k.value;
  }

  lemma {:induction false} WalksAgree(c: Context, owner: string, names: seq<string>)
    requires MembersDistinct(c.members) && WalkNames(c, owner, names).Some?
    ensures var ms := WalkNames(c, owner, names).value;
            NamesOf(ms) == names && WalkKeys(c, owner, KeysOf(ms)) == Some(ms)
    decreases names
  {
    hide FindName, FindKey, NextOwner, MembersDistinct, WalkNames, WalkKeys;
    if names == [] {
      WalkNothing(c, owner);
    } else {
      var ms := WalkNames(c, owner, names).value;
      assert names[0..] == names && KeysOf(ms)[0..] == KeysOf(ms);
      WalkNamesStep(c, owner, names, 0);
      var m := FindName(c.members, owner, names[0]).value;
      FoundByBoth(c.members, m);
      WalkKeysStep(c, owner, KeysOf(ms), 0);
      if |names| > 1 {
        var next := NextOwner(c.types, m).value;
        WalksAgree(c, next, names[1..]);
        var rest := WalkNames(c, next, names[1..]).value;
        assert ms == [m] + rest && KeysOf(ms)[1..] == KeysOf(rest);
        assert NamesOf(ms) == [names[0]] + NamesOf(rest);
      }
    }
  }

  lemma {:induction false} KeyWalksAgree(c: Context, owner: string, keys: seq<MemberKey>)
    requires MembersDistinct(c.members) && WalkKeys(c, owner, keys).Some?
    ensures var ms := WalkKeys(c, owner, keys).value;
            KeysOf(ms) == keys && WalkNames(c, owner, NamesOf(ms)) == Some(ms)
    decreases keys
  {
    hide FindName, FindKey, NextOwner, MembersDistinct, WalkNames, WalkKeys;
    if keys == [] {
      WalkNothing(c, owner);
    } else {
      var ms := WalkKeys(c, owner, keys).value;
      assert keys[0..] == keys && NamesOf(ms)[0..] == NamesOf(ms);
      WalkKeysStep(c, owner, keys, 0);
      var m := FindKey(c.members, owner, keys[0]).value;
      FoundByBoth(c.members, m);
      WalkNamesStep(c, owner, NamesOf(ms), 0);
      if |keys| > 1 {
        var next := NextOwner(c.types, m).value;
        KeyWalksAgree(c, next, keys[1..]);
        var rest := WalkKeys(c, next, keys[1..]).value;
        assert ms == [m] + rest && NamesOf(ms)[1..] == NamesOf(rest);
        assert KeysOf(ms) == [keys[0]] + KeysOf(rest);
      }
    }
  }

  /** A path found by names is found again by its keys. */
  lemma {:induction false} NamesThenKeys(c: Context, root: Pattern, names: seq<string>)
    requires Valid(c) && ResolvedNames(c, root, names).Some?
    ensures var p := ResolvedNames(c, root, names).value;
            p.members == names && ResolvedKeys(c, root, p.keys) == Some(p)
  {
    hide WalkNames, WalkKeys, OwnerOf, Indexes, TypeOk, MemberOk, TypesDistinct, MembersDistinct;
    if names != [] {
      WalksAgree(c, OwnerOf(c.types, root).value, names);
    }
  }

  /** A path found by keys is found again by its names. */
  lemma {:induction false} KeysThenNames(c: Context, root: Pattern, keys: seq<MemberKey>)
    requires Valid(c) && ResolvedKeys(c, root, keys).Some?
    ensures var p := ResolvedKeys(c, root, keys).value;
            p.keys == keys && ResolvedNames(c, root, p.members) == Some(p)
  {
    hide WalkNames, WalkKeys, OwnerOf, Indexes, TypeOk, MemberOk, TypesDistinct, MembersDistinct;
    if keys != [] {
      KeyWalksAgree(c, OwnerOf(c.types, root).value, keys);
    }
  }

  // ---------- Resolving with the indexes ----------

  method OwnerByIndex(c: Context, pattern: Pattern) returns (owner: Option<string>)
    requires Valid(c)
    ensures owner == OwnerOf(c.types, pattern)
  {
    hide Valid, FindType, LookupType;
    var typeId := SingularObject(pattern);
    if typeId.None? { return None; }
    LookupTypeIsSearch(c, typeId.value);
    var descriptor := LookupType(c, typeId.value);
    owner := if descriptor.None? then None else Some(descriptor.value.ownerId);
  }

  lemma {:induction false} OwnerLength(c: Context, pattern: Pattern)
    requires Valid(c) && OwnerOf(c.types, pattern).Some?
    ensures |OwnerOf(c.types, pattern).value| == 36
  {
    hide Indexes, FindType, MemberOk, TypesDistinct, MembersDistinct, NonzeroUuid;
    var t := FindType(c.types, SingularObject(pattern).value).value;
    var i :| 0 <= i < |c.types| && c.types[i] == t;
    assert TypeOk(c.types[i]);
  }

  /** Follows names, or keys, from a root type; None stands for a failure result. */
  method Resolve(c: Context, root: Pattern, names: seq<string>, keys: seq<MemberKey>, byName: bool)
    returns (r: Option<Path>)
    requires Valid(c)
    ensures r == if byName then ResolvedNames(c, root, names) else ResolvedKeys(c, root, keys)
  {
    hide Valid, WalkNames, WalkKeys, LookupName, LookupKey, OwnerOf, FindName, FindKey;
    var count := if byName then |names| else |keys|;
    if count > MAX_PATH_DEPTH { return None; }
    if count == 0 { return Some(Path([], [], Some(root), None)); }
    var found := OwnerByIndex(c, root);
    if found.None? { return None; }
    var owner, result: seq<Member> := found.value, [];
    OwnerLength(c, root);
    ghost var whole := if byName then WalkNames(c, owner, names) else WalkKeys(c, owner, keys);
    var index := 0;
    assert names[0..] == names && keys[0..] == keys;
    Prepended([], whole);
    while true
      invariant 0 <= index < count == (if byName then |names| else |keys|) && |owner| == 36
      invariant whole == Prepend(result, if byName then WalkNames(c, owner, names[index..]) else WalkKeys(c, owner, keys[index..]))
      decreases count - index
    {
      var member;
      if byName {
        LookupNameIsSearch(c, owner, names[index]);
        WalkNamesStep(c, owner, names, index);
        member := LookupName(c, owner, names[index]);
      } else {
        LookupKeyIsSearch(c, owner, keys[index]);
        WalkKeysStep(c, owner, keys, index);
        member := LookupKey(c, owner, keys[index]);
      }
      if member.None? { return None; }
      if index + 1 == count {
        result := result + [member.value];
        return Some(PathThrough(root, result));
      }
      if member.value.pattern.None? { return None; }
      var next := OwnerByIndex(c, member.value.pattern.value);
      if next.None? { return None; }
      OwnerLength(c, member.value.pattern.value);
      PrependMore(result, member.value, if byName then WalkNames(c, next.value, names[index + 1..]) else WalkKeys(c, next.value, keys[index + 1..]));
      result := result + [member.value];
      owner := next.value;
      index := index + 1;
    }
  }

  // ---------- Making a context ----------

  /** The codes of the first so many descriptors. */
  ghost predicate CodesSeen(seen: set<string>, codes: seq<string>, n: nat)
    requires n <= |codes|
  {
    forall x :: x in seen <==> x in codes[..n]
  }

  lemma {:induction false} SeenSnoc(seen: set<string>, codes: seq<string>, n: nat)
    requires n < |codes| && CodesSeen(seen, codes, n)
    ensures CodesSeen(seen + {codes[n]}, codes, n + 1)
  {
    assert codes[..n + 1] == codes[..n] + [codes[n]];
  }

  lemma {:induction false} SeenIff(seen: set<string>, codes: seq<string>, n: nat, x: string)
    requires n <= |codes| && CodesSeen(seen, codes, n)
    ensures x in seen <==> exists i :: 0 <= i < n && codes[i] == x
  {
    if x in seen {
      var i :| 0 <= i < n && codes[..n][i] == x;
      assert codes[i] == x;
    }
    if i :| 0 <= i < n && codes[i] == x {
      assert codes[..n][i] == x;
    }
  }

  function TypeNames(types: seq<TypeDescriptor>): (r: seq<string>)
    ensures |r| == |types| && forall i :: 0 <= i < |r| ==> r[i] == types[i].name
  {
    seq(|types|, i requires 0 <= i < |types| => types[i].name)
  }

  function Owners(types: seq<TypeDescriptor>): (r: seq<string>)
    ensures |r| == |types| && forall i :: 0 <= i < |r| ==> r[i] == types[i].ownerId
  {
    seq(|types|, i requires 0 <= i < |types| => types[i].ownerId)
  }

  /** Reads the types into their index, unless one of them is not acceptable. */
  method IndexTypes(types: seq<TypeDescriptor>) returns (index: Option<map<string, nat>>, owners: set<string>)
    ensures index.Some? <==> (forall i :: 0 <= i < |types| ==> TypeOk(types[i])) && TypesDistinct(types)
    ensures index.Some? ==> Indexes(index.value, TypeCodes(types)) && CodesSeen(owners, Owners(types), |types|)
  {
    hide TypeOk, CodesSeen, GoodFirst, IndexesFirst;
    var names: set<string> := {};
    var indices: map<string, nat> := map[];
    owners := {};
    NothingSeen(TypeNames(types));
    NothingSeen(Owners(types));
    NothingIndexed(types);
    var i := 0;
    while i < |types|
      invariant 0 <= i <= |types| && GoodFirst(types, i) && IndexesFirst(indices, TypeCodes(types), i)
      invariant CodesSeen(names, TypeNames(types), i) && CodesSeen(owners, Owners(types), i)
    {
      var descriptor := types[i];
      SeenIff(names, TypeNames(types), i, descriptor.name);
      GoodSnoc(types, i, indices);
      if !TypeOk(descriptor) || descriptor.typeId in indices { return None, owners; }
      indices := indices[descriptor.typeId := i];
      if descriptor.name in names { return None, owners; }
      SeenSnoc(names, TypeNames(types), i);
      SeenSnoc(owners, Owners(types), i);
      names := names + {descriptor.name};
      owners := owners + {descriptor.ownerId};
      i := i + 1;
    }
    AllGood(types, indices);
    index := Some(indices);
  }

  ghost predicate GoodFirst(types: seq<TypeDescriptor>, n: nat)
    requires n <= |types|
  {
    && (forall j :: 0 <= j < n ==> TypeOk(types[j]))
    && forall j, k :: 0 <= j < k < n ==> types[j].typeId != types[k].typeId && types[j].name != types[k].name
  }

  ghost predicate IndexesFirst(index: map<string, nat>, codes: seq<string>, n: nat)
    requires n <= |codes|
  {
    && (forall j :: 0 <= j < n ==> codes[j] in index && index[codes[j]] == j)
    && forall x :: x in index ==> index[x] < n && codes[index[x]] == x
  }

  lemma {:induction false} NothingIndexed(types: seq<TypeDescriptor>)
    ensures GoodFirst(types, 0) && IndexesFirst(map[], TypeCodes(types), 0)
  {
  }

  lemma {:induction false} AllGood(types: seq<TypeDescriptor>, index: map<string, nat>)
    requires GoodFirst(types, |types|) && IndexesFirst(index, TypeCodes(types), |types|)
    ensures (forall i :: 0 <= i < |types| ==> TypeOk(types[i])) && TypesDistinct(types) && Indexes(index, TypeCodes(types))
  {
    hide TypeOk;
  }

  lemma {:induction false} SameIdIff(types: seq<TypeDescriptor>, i: nat, index: map<string, nat>)
    requires i < |types| && IndexesFirst(index, TypeCodes(types), i)
    ensures types[i].typeId in index <==> exists j :: 0 <= j < i && types[j].typeId == types[i].typeId
  {
    var t := types[i];
    if t.typeId in index {
      assert TypeCodes(types)[index[t.typeId]] == types[index[t.typeId]].typeId;
    }
    if j :| 0 <= j < i && types[j].typeId == t.typeId {
      assert TypeCodes(types)[j] in index;
    }
  }

  /** One more type: good unless it is not well formed or shares its ID or name with an earlier one, and
      then all the types together are not. */
  lemma {:induction false} GoodSnoc(types: seq<TypeDescriptor>, i: nat, index: map<string, nat>)
    requires i < |types| && GoodFirst(types, i) && IndexesFirst(index, TypeCodes(types), i)
    ensures GoodFirst(types, i + 1) <==>
            TypeOk(types[i]) && types[i].typeId !in index && !(exists j :: 0 <= j < i && TypeNames(types)[j] == types[i].name)
    ensures !GoodFirst(types, i + 1) ==> !((forall j :: 0 <= j < |types| ==> TypeOk(types[j])) && TypesDistinct(types))
    ensures types[i].typeId !in index ==> IndexesFirst(index[types[i].typeId := i], TypeCodes(types), i + 1)
  {
    hide TypeOk;
    var t := types[i];
    SameIdIff(types, i, index);
    assert forall j :: 0 <= j < i ==> TypeNames(types)[j] == types[j].name;
  }

  lemma {:induction false} NothingSeen(codes: seq<string>)
    ensures CodesSeen({}, codes, 0)
  {
  }

  /** Checks the members one after another, remembering the codes of names and keys. */
  method CheckMembers(types: seq<TypeDescriptor>, members: seq<Member>, owners: set<string>) returns (ok: bool)
    requires CodesSeen(owners, Owners(types), |types|)
    ensures ok <==> (forall i :: 0 <= i < |members| ==> MemberOk(types, members[i])) && MembersDistinct(members)
  {
    hide MemberOk, NameCode, KeyText, CodesSeen;
    var names: set<string>, keys: set<string> := {}, {};
    NothingSeen(NameCodes(members));
    NothingSeen(KeyCodes(members));
    var i := 0;
    while i < |members|
      invariant 0 <= i <= |members|
      invariant forall j :: 0 <= j < i ==> MemberOk(types, members[j])
      invariant forall j, k :: 0 <= j < k < i && members[j].owner == members[k].owner ==>
                  members[j].name != members[k].name && members[j].key != members[k].key
      invariant CodesSeen(names, NameCodes(members), i) && CodesSeen(keys, KeyCodes(members), i)
    {
      var good := CheckMember(types, members[i], owners);
      if !good { return false; }
      var scopedName := NameCode(members[i].owner, members[i].name);
      var scopedKey := KeyCode(members[i].owner, members[i].key);
      ScopedIff(types, members, i, names, keys);
      if scopedName in names || scopedKey in keys { return false; }
      SeenSnoc(names, NameCodes(members), i);
      SeenSnoc(keys, KeyCodes(members), i);
      names, keys := names + {scopedName}, keys + {scopedKey};
      i := i + 1;
    }
    ok := true;
  }

  method CheckMember(types: seq<TypeDescriptor>, m: Member, owners: set<string>) returns (ok: bool)
    requires CodesSeen(owners, Owners(types), |types|)
    ensures ok <==> MemberOk(types, m)
  {
    hide GoodUuid, ValidUuid, PatternOk, CodesSeen;
    SeenIff(owners, Owners(types), |types|, m.owner);
    if !ValidUuid(m.owner) || m.owner !in owners { return false; }
    if m.name == "" { return false; }
    if m.key.UuidKey? && !GoodUuid(m.key.uuid) { return false; }
    ok := PatternOk(m);
  }

  /** A code was seen exactly if an earlier member of the same owner has the same name, or key. */
  lemma {:induction false} ScopedIff(types: seq<TypeDescriptor>, members: seq<Member>, i: nat, names: set<string>,
                                     keys: set<string>)
    requires i < |members| && forall j :: 0 <= j <= i ==> MemberOk(types, members[j])
    requires CodesSeen(names, NameCodes(members), i) && CodesSeen(keys, KeyCodes(members), i)
    ensures NameCode(members[i].owner, members[i].name) in names <==>
            exists j :: 0 <= j < i && members[j].owner == members[i].owner && members[j].name == members[i].name
    ensures KeyCode(members[i].owner, members[i].key) in keys <==>
            exists j :: 0 <= j < i && members[j].owner == members[i].owner && members[j].key == members[i].key
  {
    hide NameCode, KeyText, KeyCode, CodesSeen, OwnerKnown, PatternOk, ValidUuid;
    var m := members[i];
    SeenIff(names, NameCodes(members), i, NameCode(m.owner, m.name));
    SeenIff(keys, KeyCodes(members), i, KeyCode(m.owner, m.key));
    UuidHasNoNul(m.owner);
    forall j | 0 <= j < i
      ensures NameCodes(members)[j] == NameCode(m.owner, m.name) <==> members[j].owner == m.owner && members[j].name == m.name
      ensures KeyCodes(members)[j] == KeyCode(m.owner, m.key) <==> members[j].owner == m.owner && members[j].key == m.key
    {
      UuidHasNoNul(members[j].owner);
      NameCodeInjective(members[j].owner, members[j].name, m.owner, m.name);
      KeyCodeInjective(members[j].owner, members[j].key, m.owner, m.key);
    }
  }

  method IndexCodes(codes: seq<string>) returns (index: map<string, nat>)
    requires forall i, j :: 0 <= i < j < |codes| ==> codes[i] != codes[j]
    ensures Indexes(index, codes)
  {
    index := map[];
    var i := 0;
    while i < |codes|
      invariant 0 <= i <= |codes|
      invariant forall j :: 0 <= j < i ==> codes[j] in index && index[codes[j]] == j
      invariant forall x :: x in index ==> index[x] < i && codes[index[x]] == x
    {
      index := index[codes[i] := i];
      i := i + 1;
    }
  }

  /** Makes a context from acceptable descriptors, and from no others. */
  method Create(types: seq<TypeDescriptor>, members: seq<Member>) returns (r: Option<Context>)
    ensures r.Some? <==> Acceptable(types, members)
    ensures r.Some? ==> Valid(r.value) && r.value.types == types && r.value.members == members
  {
    hide TypeOk, TypesDistinct, MemberOk, MembersDistinct, Indexes;
    if |types| > MAX_TYPES || |members| > MAX_MEMBERS { return None; }
    var typeIndices, owners := IndexTypes(types);
    if typeIndices.None? { return None; }
    var ok := CheckMembers(types, members, owners);
    if !ok { return None; }
    CodesDistinct(types, members);
    var nameIndices := IndexCodes(NameCodes(members));
    var keyIndices := IndexCodes(KeyCodes(members));
    r := Some(Context(types, members, typeIndices.value, nameIndices, keyIndices));
  }

  lemma {:induction false} CodesDistinct(types: seq<TypeDescriptor>, members: seq<Member>)
    requires (forall i :: 0 <= i < |members| ==> MemberOk(types, members[i])) && MembersDistinct(members)
    ensures forall i, j :: 0 <= i < j < |members| ==> NameCodes(members)[i] != NameCodes(members)[j]
    ensures forall i, j :: 0 <= i < j < |members| ==> KeyCodes(members)[i] != KeyCodes(members)[j]
  {
    hide NameCode, KeyText, KeyCode, OwnerKnown, PatternOk, ValidUuid;
    forall i, j | 0 <= i < j < |members|
      ensures NameCodes(members)[i] != NameCodes(members)[j] && KeyCodes(members)[i] != KeyCodes(members)[j]
    {
      UuidHasNoNul(members[i].owner);
      UuidHasNoNul(members[j].owner);
      NameCodeInjective(members[i].owner, members[i].name, members[j].owner, members[j].name);
      KeyCodeInjective(members[i].owner, members[i].key, members[j].owner, members[j].key);
    }
  }

  /** One member named a, separator, b: asking a longer owner for b finds it, though nobody has that owner. */
  lemma {:induction false} SeparatorExample() returns (c: Context, owner: string)
    ensures Valid(c) && LookupName(c, owner, "b").Some? && FindName(c.members, owner, "b").None?
  {
    hide NameCode, KeyText;
    var id := "00000000-0000-0000-0000-000000000001";
    var types := [TypeDescriptor(id, id, "Reference")];
    var members := [Member(id, "a" + [NUL] + "b", NumberKey(1), None, None)];
    ExampleUuid();
    assert types[0].ownerId == id;
    assert Acceptable(types, members);
    c := Context(types, members, map[id := 0], map[NameCode(id, "a" + [NUL] + "b") := 0], map[KeyCode(id, NumberKey(1)) := 0]);
    owner := id + [NUL] + "a";
    assert owner[..36] == id && owner[37..] == "a";
    assert FindName(members, id, "a" + [NUL] + "b") == Some(members[0]);
    LookupNameExact(c, owner, "b");
    ForeignOwner(c, owner, "b");
  }

  lemma {:induction false} ExampleUuid()
    ensures GoodUuid("00000000-0000-0000-0000-000000000001")
  {
    var id := "00000000-0000-0000-0000-000000000001";
    assert id[35] == '1';
  }
}
