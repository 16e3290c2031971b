/** Comma-separated lists: splitting and joining. */
module CommaLists {

  const COMMA := ','

  /** `strings.Split(s, ",")`. */
  function Split(s: string): (r: seq<string>)
    ensures |r| > 0
  {
    if s == "" then [""]
    else
      var rest := Split(s[1..]);
      if s[0] == COMMA then [""] + rest else [[s[0]] + rest[0]] + rest[1..]
  }

  function Join(parts: seq<string>): string {
    if parts == [] then "" else if |parts| == 1 then parts[0] else parts[0] + [COMMA] + Join(parts[1..])
  }

  predicate NoCommas(parts: seq<string>) {
    forall p | p in parts :: COMMA !in p
  }

  lemma {:induction false} SplitPart(p: string, rest: string)
    requires COMMA !in p
    ensures Split(p) == [p]
    ensures Split(p + [COMMA] + rest) == [p] + Split(rest)
    decreases |p|
  {
    var s := p + [COMMA] + rest;
    if p == "" {
      assert s[1..] == rest;
    } else {
      SplitPart(p[1..], rest);
      assert s[1..] == p[1..] + [COMMA] + rest;
      assert p[0] in p;
      assert p == [p[0]] + p[1..];
    }
  }

  /** Splitting undoes joining, for at least one part without commas. */
  lemma {:induction false} SplitJoin(parts: seq<string>)
    requires parts != [] && NoCommas(parts)
    ensures Split(Join(parts)) == parts
  {
    assert parts[0] in parts;
    if |parts| == 1 {
      SplitPart(parts[0], "");
    } else {
      SplitJoin(parts[1..]);
      SplitPart(parts[0], Join(parts[1..]));
      assert parts == [parts[0]] + parts[1..];
    }
  }

  /** Only no part, or one empty part, joins to the empty string. */
  lemma {:induction false} JoinEmpty(parts: seq<string>)
    ensures Join(parts) == "" <==> parts == [] || parts == [""]
  {
    if |parts| > 1 {
      assert Join(parts)[|parts[0]|] == COMMA;
    }
  }
}
