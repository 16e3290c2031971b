/** The SET type: members with one bit each, and the two conversions between bit fields and comma-separated strings.
    See section 11.3.6 of the MySQL 8.0 Reference Manual. */
module SetTypes {
  import opened Values
  import opened BitFields
  import opened CommaLists

  const MAX_MEMBERS := 64

  /** How a collation stores a member and what it compares values by. */
  datatype Collation = Collation(stored: string -> string, key: string -> string)

  /** Storing changes nothing that is compared, nothing the second time, and adds no comma. */
  ghost predicate Lawful(c: Collation) {
    forall v :: StoresWell(c, v)
  }

  predicate StoresWell(c: Collation, v: string) {
    c.key(c.stored(v)) == c.key(v) && c.stored(c.stored(v)) == c.stored(v) && (COMMA in c.stored(v) ==> COMMA in v)
  }

  /** The maps of a SET type; a bit is given by its position. */
  datatype SetType = SetType(
    collation: Collation,
    compareToOriginal: map<string, string>,
    valToBit: map<string, nat>,
    bitToVal: map<nat, string>)

  function LowerChar(c: char): char {
    if 'A' <= c <= 'Z' then ((c as int) + 32) as char else c
  }

  /** `strings.ToLower`, for ASCII. */
  function Lower(s: string): (r: string)
    ensures |r| == |s|
  {
    seq(|s|, i requires 0 <= i < |s| => LowerChar(s[i]))
  }

  function TrimRight(s: string): (r: string)
    ensures |r| <= |s| && r == s[..|r|]
  {
    if s != "" && s[|s| - 1] == ' ' then TrimRight(s[..|s| - 1]) else s
  }

  lemma {:induction false} TrimmedStays(s: string)
    ensures TrimRight(TrimRight(s)) == TrimRight(s)
  {
    if s != "" && s[|s| - 1] == ' ' { TrimmedStays(s[..|s| - 1]); }
  }

  /** A binary collation takes values as they are; every other one drops trailing spaces and ignores the case. */
  function CollationOf(binary: bool): Collation {
    if binary then Collation((v: string) => v, (v: string) => v)
      else Collation(TrimRight, (v: string) => Lower(TrimRight(v)))
  }

  lemma {:induction false} CollationsAreLawful(binary: bool)
    ensures Lawful(CollationOf(binary))
  {
    forall v: string ensures StoresWell(CollationOf(binary), v) { TrimmedStays(v); }
  }

  /** What is left of a string without its trailing spaces. */
  predicate Trimmed(s: string, r: string) {
    && r <= s
    && (r != "" ==> r[|r| - 1] != ' ')
    && forall i | |r| <= i < |s| :: s[i] == ' '
  }

  predicate IsUpperCaseOf(a: char, b: char) {
    'A' <= a <= 'Z' && 'a' <= b <= 'z' && a as int - 'A' as int == b as int - 'a' as int
  }

  predicate SameIgnoringCase(a: string, b: string) {
    |a| == |b| && forall i | 0 <= i < |a| :: a[i] == b[i] || IsUpperCaseOf(a[i], b[i]) || IsUpperCaseOf(b[i], a[i])
  }

  lemma {:induction false} TrimRightTrims(s: string)
    ensures Trimmed(s, TrimRight(s))
  {
    if s != "" && s[|s| - 1] == ' ' { TrimRightTrims(s[..|s| - 1]); }
  }

  lemma {:induction false} TrimmedIsUnique(s: string, r: string, r': string)
    requires Trimmed(s, r) && Trimmed(s, r') && |r| <= |r'|
    ensures r == r'
  {
    if |r| < |r'| { assert false; }
  }

  lemma {:induction false} LowerAgreesIff(a: string, b: string)
    ensures Lower(a) == Lower(b) <==> SameIgnoringCase(a, b)
  {
    if Lower(a) == Lower(b) {
      forall i | 0 <= i < |a|
        ensures a[i] == b[i] || IsUpperCaseOf(a[i], b[i]) || IsUpperCaseOf(b[i], a[i])
      {
        assert LowerChar(a[i]) == Lower(a)[i] == Lower(b)[i] == LowerChar(b[i]);
      }
    }
  }

  /** With a binary collation only equal values agree, and members are stored as they are.  With every other one,
      members are stored without their trailing spaces, and values agree that are the same, but for the case, without
      them. */
  lemma {:induction false} KeysAgreeIff(v: string, w: string, p: string, q: string)
    requires Trimmed(v, p) && Trimmed(w, q)
    ensures CollationOf(true).stored(v) == v && CollationOf(false).stored(v) == p
    ensures CollationOf(true).key(v) == CollationOf(true).key(w) <==> v == w
    ensures CollationOf(false).key(v) == CollationOf(false).key(w) <==> SameIgnoringCase(p, q)
  {
    TrimRightTrims(v);
    TrimRightTrims(w);
    if |p| <= |TrimRight(v)| { TrimmedIsUnique(v, p, TrimRight(v)); } else { TrimmedIsUnique(v, TrimRight(v), p); }
    if |q| <= |TrimRight(w)| { TrimmedIsUnique(w, q, TrimRight(w)); } else { TrimmedIsUnique(w, TrimRight(w), q); }
    LowerAgreesIff(p, q);
  }

  function StoredAll(c: Collation, vs: seq<string>): (r: seq<string>)
    ensures |r| == |vs|
  {
    seq(|vs|, i requires 0 <= i < |vs| => c.stored(vs[i]))
  }

  // ----- creation

  /** Members with different comparison keys, and without commas. */
  predicate Members(c: Collation, ms: seq<string>) {
    && NoCommas(ms)
    && (forall i | 0 <= i < |ms| :: c.stored(ms[i]) == ms[i])
    && AllDiffer(c, ms)
  }

  predicate AllDiffer(c: Collation, ms: seq<string>) {
    forall i, j | 0 <= i < j < |ms| :: c.key(ms[i]) != c.key(ms[j])
  }

  /** The maps are those of the members. */
  ghost predicate Represents(t: SetType, ms: seq<string>) {
    && Members(t.collation, ms)
    && BitsNamed(t.bitToVal, ms)
    && ValuesPlaced(t.valToBit, ms)
    && KeysKnown(t, ms)
  }

  ghost predicate BitsNamed(bitToVal: map<nat, string>, ms: seq<string>) {
    && (forall i: nat :: i in bitToVal <==> i < |ms|)
    && (forall i | 0 <= i < |ms| :: bitToVal[i] == ms[i])
  }

  predicate ValuesPlaced(valToBit: map<string, nat>, ms: seq<string>) {
    && (forall i | 0 <= i < |ms| :: ms[i] in valToBit && valToBit[ms[i]] == i)
    && (forall m | m in valToBit :: valToBit[m] < |ms| && ms[valToBit[m]] == m)
    && |valToBit| == |ms|
  }

  ghost predicate KeysKnown(t: SetType, ms: seq<string>) {
    && (forall i | 0 <= i < |ms| :: KnownAs(t, t.collation.key(ms[i]), ms[i]))
    && (forall k | k in t.compareToOriginal ::
      t.compareToOriginal[k] in t.valToBit && t.collation.key(t.compareToOriginal[k]) == k)
  }

  predicate KnownAs(t: SetType, key: string, m: string) {
    key in t.compareToOriginal && t.compareToOriginal[key] == m
  }

  /** The type built from the first values. */
  ghost predicate Built(t: SetType, c: Collation, values: seq<string>) {
    t.collation == c && NoCommas(values) && AllDiffer(c, values) && Represents(t, StoredAll(c, values))
  }

  lemma {:induction false} StoredKeys(c: Collation, values: seq<string>)
    requires Lawful(c)
    ensures forall i | 0 <= i < |values| :: c.key(StoredAll(c, values)[i]) == c.key(values[i])
  {
    forall i | 0 <= i < |values| ensures c.key(StoredAll(c, values)[i]) == c.key(values[i]) {
      assert StoresWell(c, values[i]);
    }
  }

  lemma {:induction false} BuildOn(t: SetType, c: Collation, values: seq<string>, v: string, more: seq<string>)
    requires Lawful(c) && Built(t, c, values) && COMMA !in v && c.key(v) !in t.compareToOriginal
    requires more == values + [v]
    ensures Built(Extended(t, |values|, c.key(v), c.stored(v)), c, more)
  {
    var ms := StoredAll(c, values);
    assert StoresWell(c, v);
    AddMember(t, ms, c.stored(v));
    var t' := Extended(t, |values|, c.key(v), c.stored(v));
    assert Represents(t', ms + [c.stored(v)]);
    assert StoredAll(c, more) == ms + [c.stored(v)];
    NewDiffers(t, c, values, v);
    OneMoreWithoutComma(values, v);
  }

  lemma {:induction false} OneMoreWithoutComma(values: seq<string>, v: string)
    requires NoCommas(values) && COMMA !in v
    ensures NoCommas(values + [v])
  {
    forall p | p in values + [v] ensures COMMA !in p { assert p in values || p == v; }
  }

  lemma {:induction false} NewDiffers(t: SetType, c: Collation, values: seq<string>, v: string)
    requires Lawful(c) && t.collation == c && KeysKnown(t, StoredAll(c, values)) && AllDiffer(c, values)
    requires c.key(v) !in t.compareToOriginal
    ensures AllDiffer(c, values + [v])
  {
    var ms := StoredAll(c, values);
    StoredKeys(c, values);
    forall i | 0 <= i < |values| ensures c.key(values[i]) != c.key(v) {
      assert KnownAs(t, c.key(ms[i]), ms[i]);
    }
  }

  lemma {:induction false} DuplicateFound(t: SetType, c: Collation, values: seq<string>, done: seq<string>, i: nat)
    requires Lawful(c) && i < |values| && done == values[..i]
    requires Built(t, c, done) && c.key(values[i]) in t.compareToOriginal
    ensures !AllDiffer(c, values)
  {
    StoredKeys(c, done);
    var j := t.valToBit[t.compareToOriginal[c.key(values[i])]];
    assert c.key(StoredAll(c, done)[j]) == c.key(values[i]);
    assert c.key(values[j]) == c.key(done[j]) == c.key(values[i]);
  }

  /** The maps with one more member. */
  function Extended(t: SetType, i: nat, key: string, value: string): SetType {
    SetType(t.collation, t.compareToOriginal[key := value], t.valToBit[value := i], t.bitToVal[i := value])
  }

  lemma {:induction false} OneMoreValue(values: seq<string>, i: nat)
    requires i < |values|
    ensures values[..i] + [values[i]] == values[..i + 1]
  {
  }

  /** One round of the loop of `CreateSetType`: a member with a comma, or one that compares equal with an earlier
      one, is refused. */
  method AddValue(t: SetType, c: Collation, values: seq<string>, i: nat) returns (r: Result<SetType>)
    requires Lawful(c) && i < |values| && Built(t, c, values[..i])
    ensures r.Ok? ==> Built(r.value, c, values[..i + 1])
    ensures r.Err? ==> !NoCommas(values) || !AllDiffer(c, values)
  {
    if COMMA in values[i] {
      assert values[i] in values;
      return Err;
    }
    var key := c.key(values[i]);
    if key in t.compareToOriginal {
      DuplicateFound(t, c, values, values[..i], i);
      return Err;
    }
    OneMoreValue(values, i);
    BuildOn(t, c, values[..i], values[i], values[..i + 1]);
    return Ok(Extended(t, i, key, c.stored(values[i])));
  }

  /** `CreateSetType`: refuses no members, more than 64, commas, and members that compare equal. */
  method CreateSetType(values: seq<string>, c: Collation) returns (r: Result<SetType>)
    requires Lawful(c)
    ensures r.Ok? <==> 0 < |values| <= 64 && NoCommas(values) && AllDiffer(c, values)
    ensures r.Ok? ==> r.value.collation == c && Represents(r.value, StoredAll(c, values))
  {
    if |values| == 0 || |values| > MAX_MEMBERS {
      return Err;
    }
    var t := SetType(c, map[], map[], map[]);
    assert values[..0] == [];
    for i := 0 to |values|
      invariant Built(t, c, values[..i])
    {
      var next := AddValue(t, c, values, i);
      if next.Err? {
        return Err;
      }
      t := next.value;
    }
    assert values[..|values|] == values;
    return Ok(t);
  }

  lemma {:induction false} AddMember(t: SetType, ms: seq<string>, value: string)
    requires Represents(t, ms) && COMMA !in value && t.collation.stored(value) == value
    requires t.collation.key(value) !in t.compareToOriginal
    ensures Represents(Extended(t, |ms|, t.collation.key(value), value), ms + [value])
  {
    forall i | 0 <= i < |ms| ensures t.collation.key(ms[i]) != t.collation.key(value) {
      assert KnownAs(t, t.collation.key(ms[i]), ms[i]);
    }
    MoreMembers(t.collation, ms, value);
    MorePlaced(t.valToBit, ms, value);
    MoreNamed(t.bitToVal, ms, value);
    MoreKeys(t, Extended(t, |ms|, t.collation.key(value), value), ms, value);
  }

  lemma {:induction false} MorePlaced(valToBit: map<string, nat>, ms: seq<string>, value: string)
    requires ValuesPlaced(valToBit, ms) && value !in ms
    ensures ValuesPlaced(valToBit[value := |ms|], ms + [value])
  {
    assert value !in valToBit;
    assert forall m :: m in ms + [value] <==> m in ms || m == value;
  }

  lemma {:induction false} MoreNamed(bitToVal: map<nat, string>, ms: seq<string>, value: string)
    requires BitsNamed(bitToVal, ms)
    ensures BitsNamed(bitToVal[|ms| := value], ms + [value])
  {
  }

  lemma {:induction false} MoreMembers(c: Collation, ms: seq<string>, value: string)
    requires Members(c, ms) && COMMA !in value && c.stored(value) == value
    requires forall i | 0 <= i < |ms| :: c.key(ms[i]) != c.key(value)
    ensures Members(c, ms + [value])
  {
    OneMoreWithoutComma(ms, value);
  }

  lemma {:induction false} MoreKeys(t: SetType, t': SetType, ms: seq<string>, value: string)
    requires KeysKnown(t, ms) && t'.collation == t.collation && value in t'.valToBit
    requires t'.compareToOriginal == t.compareToOriginal[t.collation.key(value) := value]
    requires forall m | m in t.valToBit :: m in t'.valToBit
    requires forall i | 0 <= i < |ms| :: t.collation.key(ms[i]) != t.collation.key(value)
    ensures KeysKnown(t', ms + [value])
  {
    var ms', key := ms + [value], t.collation.key(value);
    forall i | 0 <= i < |ms'| ensures KnownAs(t', t.collation.key(ms'[i]), ms'[i]) {
      if i < |ms| { assert KnownAs(t, t.collation.key(ms[i]), ms[i]); }
    }
  }

  // ----- bit field to string

  /** The members of the set bits from position `i` to `n`, in ascending order. */
  function Selected(ms: seq<string>, v: nat, n: nat): (r: seq<string>)
    requires n <= |ms|
  {
    if n == 0 then [] else Selected(ms, v, n - 1) + (if Bit(v, n - 1) then [ms[n - 1]] else [])
  }

  /** What a bit field is as a string. */
  function Shown(ms: seq<string>, v: nat): string {
    Join(Selected(ms, v, |ms|))
  }

  lemma {:induction false} JoinAppend(parts: seq<string>, p: string)
    ensures Join(parts + [p]) == if parts == [] then p else Join(parts) + [COMMA] + p
    decreases |parts|
  {
    if |parts| == 1 {
      assert (parts + [p])[1..] == [p];
    } else if |parts| > 1 {
      assert (parts + [p])[1..] == parts[1..] + [p];
      JoinAppend(parts[1..], p);
      assert parts[0] + [COMMA] + (Join(parts[1..]) + [COMMA] + p) ==
        parts[0] + [COMMA] + Join(parts[1..]) + [COMMA] + p;
    }
  }

  /** No bit at position `n` or above is set. */
  ghost predicate Within(v: nat, n: nat) {
    forall i: nat | Bit(v, i) :: i < n
  }

  lemma {:induction false} NotWithin(v: nat, n: nat, i: nat)
    requires Bit(v, i) && i >= n
    ensures !Within(v, n)
  {
  }

  /** One more member visited. */
  lemma {:induction false} SelectedStep(ms: seq<string>, v: nat, n: nat)
    requires n < |ms|
    ensures !Bit(v, n) ==> Selected(ms, v, n + 1) == Selected(ms, v, n)
    ensures Bit(v, n) ==> Selected(ms, v, n + 1) == Selected(ms, v, n) + [ms[n]]
  {
  }

  lemma {:induction false} SelectedBeyond(ms: seq<string>, v: nat, n: nat, m: nat)
    requires n <= m <= |ms| && forall i | n <= i < m :: !Bit(v, i)
    ensures Selected(ms, v, m) == Selected(ms, v, n)
    decreases m
  {
    if n < m { SelectedBeyond(ms, v, n, m - 1); }
  }

  /** `convertBitFieldToString`: fails iff a bit without a member is set. */
  method ConvertBitFieldToString(t: SetType, bitField: nat, ghost ms: seq<string>) returns (r: Result<string>)
    requires BitsNamed(t.bitToVal, ms)
    ensures r.Ok? <==> Within(bitField, |ms|)
    ensures r.Ok? ==> r.value == Shown(ms, bitField)
  {
    var s := "";
    var writeCommas := false;
    var bitEdge := BitLength(bitField);
    ghost var parts: seq<string> := [];
    for i := 0 to bitEdge
      invariant parts == Selected(ms, bitField, if i <= |ms| then i else |ms|)
      invariant s == Join(parts) && writeCommas == (parts != [])
      invariant forall j: nat | j < i && Bit(bitField, j) :: j < |ms|
    {
      if i < |ms| { SelectedStep(ms, bitField, i); }
      if Bit(bitField, i) {
        if i !in t.bitToVal {
          NotWithin(bitField, |ms|, i);
          return Err;
        }
        var val := t.bitToVal[i];
        JoinAppend(parts, val);
        if writeCommas {
          s := s + [COMMA];
        } else {
          writeCommas := true;
        }
        s := s + val;
        parts := parts + [val];
      }
    }
    forall i: nat | Bit(bitField, i) ensures i < bitEdge && i < |ms| { BitBelowLength(bitField, i); }
    SelectedBeyond(ms, bitField, if bitEdge <= |ms| then bitEdge else |ms|, |ms|);
    return Ok(s);
  }

  // ----- string to bit field

  /** The position of the member a part of the string stands for. */
  function Position(t: SetType, part: string): Option<nat> {
    var key := t.collation.key(part);
    if key in t.compareToOriginal &&
      t.compareToOriginal[key] in t.valToBit then Some(t.valToBit[t.compareToOriginal[key]]) else None
  }

  /** A part stands for the member it compares equal with. */
  lemma {:induction false} PositionMeans(t: SetType, ms: seq<string>, part: string)
    requires Represents(t, ms)
    ensures Position(t, part).None? <==> forall i | 0 <= i < |ms| :: t.collation.key(ms[i]) != t.collation.key(part)
    ensures Position(t, part).Some? ==> Position(t, part).value < |ms|
    ensures Position(t, part).Some? ==> t.collation.key(ms[Position(t, part).value]) == t.collation.key(part)
  {
    var key := t.collation.key(part);
    if i :| 0 <= i < |ms| && t.collation.key(ms[i]) == key {
      assert KnownAs(t, t.collation.key(ms[i]), ms[i]);
    }
  }

  lemma {:induction false} KnownIsPlaced(t: SetType, ms: seq<string>, key: string)
    requires Represents(t, ms) && key in t.compareToOriginal
    ensures t.compareToOriginal[key] in t.valToBit
  {
  }

  predicate Accepted(t: SetType, parts: seq<string>) {
    forall p | p in parts :: Position(t, p).Some?
  }

  /** The bits of the given parts. */
  ghost predicate BitsOf(t: SetType, parts: seq<string>, v: nat) {
    forall i: nat :: Bit(v, i) <==> exists p | p in parts :: Position(t, p) == Some(i)
  }

  lemma {:induction false} OneMorePart(t: SetType, parts: seq<string>, p: string, v: nat)
    requires Accepted(t, parts) && BitsOf(t, parts, v) && Position(t, p).Some?
    ensures Accepted(t, parts + [p]) && BitsOf(t, parts + [p], SetBit(v, Position(t, p).value))
  {
    var w := SetBit(v, Position(t, p).value);
    forall i: nat ensures Bit(w, i) <==> exists q | q in parts + [p] :: Position(t, q) == Some(i) {
      SetBitSets(v, Position(t, p).value, i);
      assert forall q :: q in parts + [p] <==> q in parts || q == p;
    }
  }

  lemma {:induction false} NextPart(t: SetType, parts: seq<string>, i: nat, v: nat)
    requires i < |parts| && Position(t, parts[i]).Some?
    requires Accepted(t, parts[..i]) && BitsOf(t, parts[..i], v)
    ensures Accepted(t, parts[..i + 1]) && BitsOf(t, parts[..i + 1], SetBit(v, Position(t, parts[i]).value))
  {
    OneMorePart(t, parts[..i], parts[i], v);
    assert parts[..i + 1] == parts[..i] + [parts[i]];
  }

  lemma {:induction false} NoBitsOfNothing(t: SetType)
    ensures BitsOf(t, [], 0)
  {
    forall i: nat ensures !Bit(0, i) { ZeroHasNoBits(i); }
  }

  /** The parts of a string; the empty string has none. */
  function PartsOf(s: string): seq<string> {
    if s == "" then [] else Split(s)
  }

  /** `convertStringToBitField`: fails iff a part is no member; otherwise sets the bits of the parts. */
  method ConvertStringToBitField(t: SetType, str: string, ghost ms: seq<string>) returns (r: Result<nat>)
    requires Represents(t, ms)
    ensures r.Ok? <==> Accepted(t, PartsOf(str))
    ensures r.Ok? ==> BitsOf(t, PartsOf(str), r.value)
  {
    NoBitsOfNothing(t);
    if str == "" {
      return Ok(0);
    }
    var bitField: nat := 0;
    var vals := Split(str);
    assert vals[..0] == [];
    for i := 0 to |vals|
      invariant Accepted(t, vals[..i]) && BitsOf(t, vals[..i], bitField)
    {
      var compareVal := t.collation.key(vals[i]);
      if compareVal !in t.compareToOriginal {
        assert Position(t, vals[i]).None? && vals[i] in vals;
        return Err;
      }
      KnownIsPlaced(t, ms, compareVal);
      NextPart(t, vals, i, bitField);
      bitField := SetBit(bitField, t.valToBit[t.compareToOriginal[compareVal]]);
    }
    assert vals[..|vals|] == vals;
    return Ok(bitField);
  }

  // ----- round trips

  lemma {:induction false} PositionOfMember(t: SetType, ms: seq<string>, i: nat)
    requires Represents(t, ms) && i < |ms|
    ensures Position(t, ms[i]) == Some(i)
  {
    assert KnownAs(t, t.collation.key(ms[i]), ms[i]);
  }

  lemma {:induction false} SelectedMeans(ms: seq<string>, v: nat, n: nat, p: string)
    requires n <= |ms|
    ensures p in Selected(ms, v, n) <==> exists i | 0 <= i < n :: Bit(v, i) && ms[i] == p
  {
    if n > 0 {
      SelectedMeans(ms, v, n - 1, p);
      SelectedStep(ms, v, n - 1);
      var own := if Bit(v, n - 1) then [ms[n - 1]] else [];
      assert Selected(ms, v, n) == Selected(ms, v, n - 1) + own;
      assert p in Selected(ms, v, n) <==> p in Selected(ms, v, n - 1) || (Bit(v, n - 1) && ms[n - 1] == p);
    }
  }

  /** The parts of the string of a bit field are its members, unless the only one is empty. */
  lemma {:induction false} ShownParts(ms: seq<string>, v: nat)
    requires NoCommas(ms)
    ensures PartsOf(Shown(ms, v)) == if Selected(ms, v, |ms|) == [""] then [] else Selected(ms, v, |ms|)
  {
    var sel := Selected(ms, v, |ms|);
    forall p | p in sel ensures COMMA !in p {
      SelectedMeans(ms, v, |ms|, p);
    }
    JoinEmpty(sel);
    if sel != [] { SplitJoin(sel); }
  }

  lemma {:induction false} SelectedBits(t: SetType, ms: seq<string>, v: nat)
    requires Represents(t, ms) && Within(v, |ms|)
    ensures Accepted(t, Selected(ms, v, |ms|)) && BitsOf(t, Selected(ms, v, |ms|), v)
  {
    var sel := Selected(ms, v, |ms|);
    forall p | p in sel ensures Position(t, p).Some? {
      SelectedMeans(ms, v, |ms|, p);
      var i :| 0 <= i < |ms| && Bit(v, i) && ms[i] == p;
      PositionOfMember(t, ms, i);
    }
    forall i: nat ensures Bit(v, i) <==> exists p | p in sel :: Position(t, p) == Some(i) {
      if Bit(v, i) {
        SelectedMeans(ms, v, |ms|, ms[i]);
        PositionOfMember(t, ms, i);
      }
      if p :| p in sel && Position(t, p) == Some(i) {
        SelectedMeans(ms, v, |ms|, p);
        var j :| 0 <= j < |ms| && Bit(v, j) && ms[j] == p;
        PositionOfMember(t, ms, j);
      }
    }
  }

  lemma {:induction false} BitsOfDetermine(t: SetType, parts: seq<string>, v: nat, w: nat)
    requires BitsOf(t, parts, v) && BitsOf(t, parts, w)
    ensures v == w
  {
    SameBits(v, w);
  }

  lemma {:induction false} NoParts(t: SetType, w: nat)
    requires BitsOf(t, [], w)
    ensures w == 0
  {
    forall i: nat ensures Bit(w, i) <==> Bit(0, i) { ZeroHasNoBits(i); }
    SameBits(w, 0);
  }

  /** A bit field comes back from its string unless it selects the empty member and no other one; a type without an
      empty member has no such bit field. */
  lemma {:induction false} BitFieldRoundTrip(t: SetType, ms: seq<string>, v: nat, w: nat)
    requires Represents(t, ms) && Within(v, |ms|)
    requires BitsOf(t, PartsOf(Shown(ms, v)), w)
    ensures Accepted(t, PartsOf(Shown(ms, v)))
    ensures w == v <==> Selected(ms, v, |ms|) != [""]
    ensures "" !in ms ==> w == v
  {
    var sel := Selected(ms, v, |ms|);
    ShownParts(ms, v);
    SelectedBits(t, ms, v);
    if sel == [""] {
      assert "" in sel;
      SelectedMeans(ms, v, |ms|, "");
      var i :| 0 <= i < |ms| && Bit(v, i) && ms[i] == "";
      assert ms[i] in ms;
      NoParts(t, w);
      ZeroHasNoBits(i);
    } else {
      BitsOfDetermine(t, sel, v, w);
    }
  }

  /** The members that occur among the parts, in the order of the declaration. */
  ghost function Occurring(t: SetType, ms: seq<string>, parts: seq<string>, n: nat): seq<string>
    requires n <= |ms|
  {
    if n == 0 then []
    else
      var occurs := exists p | p in parts :: Position(t, p) == Some(n - 1);
      Occurring(t, ms, parts, n - 1) + (if occurs then [ms[n - 1]] else [])
  }

  lemma {:induction false} SelectedOccur(t: SetType, ms: seq<string>, parts: seq<string>, w: nat, n: nat)
    requires BitsOf(t, parts, w) && n <= |ms|
    ensures Selected(ms, w, n) == Occurring(t, ms, parts, n)
  {
    if n > 0 {
      SelectedOccur(t, ms, parts, w, n - 1);
      assert Bit(w, n - 1) <==> exists p | p in parts :: Position(t, p) == Some(n - 1);
    }
  }

  lemma {:induction false} BitsWithin(t: SetType, ms: seq<string>, parts: seq<string>, w: nat)
    requires Represents(t, ms) && BitsOf(t, parts, w)
    ensures Within(w, |ms|)
  {
    forall i: nat | Bit(w, i) ensures i < |ms| {
      var p :| p in parts && Position(t, p) == Some(i);
      PositionMeans(t, ms, p);
    }
  }

  /** Converting an accepted string gives the members it names, in the order of their declaration and each once;
      converting the result again changes nothing, empty member or not. */
  lemma {:induction false} StringRoundTrip(t: SetType, ms: seq<string>, s: string, w: nat, w': nat)
    requires Represents(t, ms)
    requires BitsOf(t, PartsOf(s), w) && BitsOf(t, PartsOf(Shown(ms, w)), w')
    ensures Shown(ms, w) == Join(Occurring(t, ms, PartsOf(s), |ms|))
    ensures Accepted(t, PartsOf(Shown(ms, w))) && Shown(ms, w') == Shown(ms, w)
  {
    BitsWithin(t, ms, PartsOf(s), w);
    SelectedOccur(t, ms, PartsOf(s), w, |ms|);
    BitFieldRoundTrip(t, ms, w, w');
    if Selected(ms, w, |ms|) == [""] {
      ShownParts(ms, w);
      NoParts(t, w');
      forall i | 0 <= i < |ms| ensures !Bit(0, i) { ZeroHasNoBits(i); }
      SelectedBeyond(ms, 0, 0, |ms|);
    }
  }

  // ----- numbers

  /** `upperBound`: one shifted by the number of members, in 64 bits. */
  function UpperBound(t: SetType): nat {
    if |t.valToBit| >= 64 then 0 else Pow2(|t.valToBit|)
  }

  /** A 64-bit number is accepted iff it has only bits of members and the type does not have all 64 members: the
      shift by 64 gives zero, and then not even zero is below the bound. */
  lemma {:induction false} NumberAcceptedIff(t: SetType, ms: seq<string>, v: nat)
    requires Represents(t, ms) && |ms| <= 64 && v < Pow2(64)
    ensures v < UpperBound(t) <==> Within(v, |ms|) && |ms| < 64
    ensures |ms| == 64 ==> Within(v, |ms|)
  {
    BelowPow2(v, |ms|);
    BelowPow2(v, 64);
    forall i: nat | Bit(v, i) ensures i < BitLength(v) { BitBelowLength(v, i); }
    if v > 0 { TopBitSet(v); }
    assert Within(v, |ms|) <==> BitLength(v) <= |ms|;
  }
}
