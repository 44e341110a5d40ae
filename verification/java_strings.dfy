/** The few java.lang.String operations the mappers rely on, restricted to what the
    record lines use: `split(",", -1)`, `trim()`, `contains`, `endsWith`,
    `equalsIgnoreCase` (ASCII letters only) and `replace` of one character by nothing. */
module JavaStrings {

  /** `String.trim()` strips every character whose code is at most U+0020. */
  predicate IsBlank(c: char) {
    c <= ' '
  }

  predicate AllBlank(s: string) {
    forall i :: 0 <= i < |s| ==> IsBlank(s[i])
  }

  /** Neither end of `t` can be trimmed any further. */
  predicate IsTrimmed(t: string) {
    t == [] || (!IsBlank(t[0]) && !IsBlank(t[|t| - 1]))
  }

  // ---------------------------------------------------------------------------
  // split(d, -1) and its inverse, join

  /** Concatenates the parts with `d` between consecutive ones (`String.join`). */
  function Join(parts: seq<string>, d: char): string
  {
    if |parts| == 0 then ""
    else if |parts| == 1 then parts[0]
    else parts[0] + [d] + Join(parts[1..], d)
  }

  /** `s.split(d, -1)` for a delimiter that is not a regular-expression metacharacter:
      every occurrence of `d` separates two fields, and leading and trailing empty
      fields are kept, so a line always has one more field than it has delimiters. */
  function Split(s: string, d: char): (parts: seq<string>)
    ensures |parts| == multiset(s)[d] + 1
    ensures forall i :: 0 <= i < |parts| ==> d !in parts[i]
  {
    if |s| == 0 then [""]
    else
      var rest := Split(s[1..], d);
      assert s == [s[0]] + s[1..];
      if s[0] == d then [""] + rest
      else [[s[0]] + rest[0]] + rest[1..]
  }

  /** Joining the fields with the delimiter gives the line back. */
  lemma {:induction false} JoinSplit(s: string, d: char)
    ensures Join(Split(s, d), d) == s
  {
    if |s| > 0 {
      JoinSplit(s[1..], d);
      JoinSplitStep(s, d);
    }
  }

  /** One step of `JoinSplit`: the first character either opens a new field or joins
      the first field of the rest. */
  lemma JoinSplitStep(s: string, d: char)
    requires |s| > 0 && Join(Split(s[1..], d), d) == s[1..]
    ensures Join(Split(s, d), d) == s
  {
    var rest := Split(s[1..], d);
    if s[0] == d {
      assert Split(s, d) == [""] + rest;
      JoinSplitDelimiter(s[0], s[1..], rest, d);
    } else {
      assert Split(s, d) == [[s[0]] + rest[0]] + rest[1..];
      JoinPrepend(s[0], rest, d);
    }
    assert [s[0]] + s[1..] == s;
  }

  lemma JoinSplitDelimiter(c: char, t: string, rest: seq<string>, d: char)
    requires c == d && |rest| >= 1 && Join(rest, d) == t
    ensures Join([""] + rest, d) == [c] + t
  {
    JoinCons("", rest, d);
    assert "" + [d] + Join(rest, d) == [d] + t;
  }

  /** Gluing a character onto the first field glues it onto the joined text. */
  lemma JoinPrepend(c: char, parts: seq<string>, d: char)
    requires |parts| >= 1
    ensures Join([[c] + parts[0]] + parts[1..], d) == [c] + Join(parts, d)
  {
    if |parts| > 1 {
      JoinCons([c] + parts[0], parts[1..], d);
      JoinCons(parts[0], parts[1..], d);
      assert [parts[0]] + parts[1..] == parts;
    }
  }

  lemma JoinCons(p: string, ps: seq<string>, d: char)
    requires |ps| >= 1
    ensures Join([p] + ps, d) == p + [d] + Join(ps, d)
  {
    assert ([p] + ps)[1..] == ps;
  }

  /** Splitting a join of delimiter-free fields gives the fields back. */
  lemma {:induction false} SplitJoin(parts: seq<string>, d: char)
    requires |parts| >= 1
    requires forall i :: 0 <= i < |parts| ==> d !in parts[i]
    ensures Split(Join(parts, d), d) == parts
  {
    if |parts| == 1 {
      SplitNoDelimiter(parts[0], d);
    } else {
      SplitJoin(parts[1..], d);
      SplitAround(parts[0], d, Join(parts[1..], d));
    }
  }

  lemma {:induction false} SplitNoDelimiter(s: string, d: char)
    requires d !in s
    ensures Split(s, d) == [s]
  {
    if |s| > 0 {
      assert s == [s[0]] + s[1..];
      SplitNoDelimiter(s[1..], d);
    }
  }

  /** A delimiter-free prefix followed by the delimiter becomes the first field. */
  lemma {:induction false} SplitAround(a: string, d: char, b: string)
    requires d !in a
    ensures Split(a + [d] + b, d) == [a] + Split(b, d)
  {
    if |a| == 0 {
      assert a + [d] + b == [d] + b;
      assert ([d] + b)[1..] == b;
    } else {
      assert (a + [d] + b)[1..] == a[1..] + [d] + b;
      SplitAround(a[1..], d, b);
      assert a == [a[0]] + a[1..];
    }
  }

  // ---------------------------------------------------------------------------
  // trim()

  function TrimStart(s: string): (r: string)
    ensures |r| <= |s| && r == s[|s| - |r|..]
    ensures AllBlank(s[..|s| - |r|])
    ensures r == [] || !IsBlank(r[0])
  {
    if |s| > 0 && IsBlank(s[0]) then TrimStart(s[1..]) else s
  }

  function TrimEnd(s: string): (r: string)
    ensures |r| <= |s| && r == s[..|r|]
    ensures AllBlank(s[|r|..])
    ensures r == [] || !IsBlank(r[|r| - 1])
  {
    if |s| > 0 && IsBlank(s[|s| - 1]) then
      var r := TrimEnd(s[..|s| - 1]);
      assert s[|r|..] == s[..|s| - 1][|r|..] + [s[|s| - 1]];
      r
    else s
  }

  /** `String.trim()`: the longest middle slice of `s` that neither starts nor ends
      with a blank; everything cut off on either side is blank. */
  function Trim(s: string): (r: string)
    ensures IsTrimmed(r)
    ensures |r| <= |s|
    ensures exists i {:trigger s[i..]} ::
              (0 <= i <= |s| - |r| && s[i..][..|r|] == r && AllBlank(s[..i]) && AllBlank(s[i + |r|..]))
  {
    var a := TrimStart(s);
    var r := TrimEnd(a);
    TrimSlice(s, a, r);
    TrimmedCore(a, r);
    r
  }

  /** A front-trimmed text whose back is trimmed as well is trimmed at both ends. */
  lemma TrimmedCore(a: string, r: string)
    requires a == [] || !IsBlank(a[0])
    requires |r| <= |a| && r == a[..|r|]
    requires r == [] || !IsBlank(r[|r| - 1])
    ensures IsTrimmed(r)
  {
    if r != [] {
      assert r[0] == a[0];
    }
  }

  /** Cutting blanks off the front and then off the back leaves a slice of `s`. */
  lemma TrimSlice(s: string, a: string, r: string)
    requires |a| <= |s| && a == s[|s| - |a|..] && AllBlank(s[..|s| - |a|])
    requires |r| <= |a| && r == a[..|r|] && AllBlank(a[|r|..])
    ensures exists i {:trigger s[i..]} ::
              (0 <= i <= |s| - |r| && s[i..][..|r|] == r && AllBlank(s[..i]) && AllBlank(s[i + |r|..]))
  {
    var i := |s| - |a|;
    assert s[i..] == a;
    assert s[i + |r|..] == a[|r|..];
  }

  lemma {:induction false} TrimStartOfPadded(pre: string, t: string)
    requires AllBlank(pre)
    requires t == [] || !IsBlank(t[0])
    ensures TrimStart(pre + t) == t
  {
    if |pre| > 0 {
      assert (pre + t)[1..] == pre[1..] + t;
      TrimStartOfPadded(pre[1..], t);
    }
  }

  lemma {:induction false} TrimEndOfPadded(t: string, post: string)
    requires AllBlank(post)
    requires t == [] || !IsBlank(t[|t| - 1])
    ensures TrimEnd(t + post) == t
  {
    if |post| > 0 {
      assert (t + post)[..|t + post| - 1] == t + post[..|post| - 1];
      TrimEndOfPadded(t, post[..|post| - 1]);
    } else {
      assert t + post == t;
    }
  }

  /** Trim is characterised by what it leaves: a trimmed core surrounded by blanks
      trims to exactly that core. */
  lemma TrimOfPadded(pre: string, t: string, post: string)
    requires AllBlank(pre) && AllBlank(post) && IsTrimmed(t)
    ensures Trim(pre + t + post) == t
  {
    if t == [] {
      assert pre + t + post == pre + post;
      assert AllBlank(pre + post);
      TrimStartOfPadded(pre + post, []);
      assert pre + post + [] == pre + post;
    } else {
      assert pre + t + post == pre + (t + post);
      TrimStartOfPadded(pre, t + post);
      TrimEndOfPadded(t, post);
    }
  }

  /** Trimming twice is trimming once. */
  lemma TrimIdempotent(s: string)
    ensures Trim(Trim(s)) == Trim(s)
  {
    var t := Trim(s);
    TrimOfPadded([], t, []);
    assert [] + t + [] == t;
  }

  // ---------------------------------------------------------------------------
  // contains, endsWith

  /** `pat` occurs in `s` starting at index `i`. */
  predicate OccursAt(s: string, pat: string, i: int) {
    0 <= i && i + |pat| <= |s| && s[i..i + |pat|] == pat
  }

  /** `String.contains`: scans left to right for an occurrence of `pat`. */
  function Contains(s: string, pat: string): bool
  {
    if |s| < |pat| then false
    else s[..|pat|] == pat || Contains(s[1..], pat)
  }

  /** The scan finds `pat` exactly when it occurs somewhere in `s`. */
  lemma {:induction false} ContainsIff(s: string, pat: string)
    ensures Contains(s, pat) <==> exists i :: OccursAt(s, pat, i)
  {
    if |s| >= |pat| && s[..|pat|] == pat {
      assert OccursAt(s, pat, 0);
    } else if |s| >= |pat| {
      ContainsIff(s[1..], pat);
      forall i | OccursAt(s, pat, i)
        ensures OccursAt(s[1..], pat, i - 1)
      {
        assert s[1..][i - 1..i - 1 + |pat|] == s[i..i + |pat|];
      }
      forall i | OccursAt(s[1..], pat, i)
        ensures OccursAt(s, pat, i + 1)
      {
        assert s[1..][i..i + |pat|] == s[i + 1..i + 1 + |pat|];
      }
    }
  }

  lemma ContainsPrefix(pat: string, rest: string)
    ensures Contains(pat + rest, pat)
  {
    assert (pat + rest)[..|pat|] == pat;
  }

  /** `String.endsWith`. */
  predicate EndsWith(s: string, suffix: string) {
    |suffix| <= |s| && s[|s| - |suffix|..] == suffix
  }

  /** Whether `a + b` ends with `c` is decided by `b` alone once `c` is no longer than `b`,
      and otherwise needs `c` to end with `b`. */
  lemma EndsWithConcat(a: string, b: string, c: string)
    ensures |c| <= |b| ==> (EndsWith(a + b, c) <==> EndsWith(b, c))
    ensures |c| > |b| && EndsWith(a + b, c) ==> c[|c| - |b|..] == b
  {
    var s := a + b;
    if |c| <= |b| {
      assert s[|s| - |c|..] == b[|b| - |c|..];
    } else if EndsWith(s, c) {
      assert s[|s| - |b|..] == b;
      assert c[|c| - |b|..] == s[|s| - |b|..];
    }
  }

  lemma EndsWithOwnSuffix(a: string, b: string)
    ensures EndsWith(a + b, b)
  {
    assert (a + b)[|a + b| - |b|..] == b;
  }

  // ---------------------------------------------------------------------------
  // equalsIgnoreCase, restricted to ASCII letters

  function ToUpperAscii(c: char): char {
    if 'a' <= c <= 'z' then (c as int - 32) as char else c
  }

  /** `String.equalsIgnoreCase` for text whose only cased letters are ASCII. */
  predicate EqualsIgnoreCase(a: string, b: string) {
    |a| == |b| && forall i :: 0 <= i < |a| ==> ToUpperAscii(a[i]) == ToUpperAscii(b[i])
  }

  lemma UpperIs(c: char, u: char)
    requires 'A' <= u <= 'Z'
    ensures ToUpperAscii(c) == u <==> c == u || c == (u as int + 32) as char
  {
  }

  /** The strings equal to "NA" ignoring case, listed. */
  lemma EqualsIgnoreCaseNA(s: string)
    ensures EqualsIgnoreCase(s, "NA") <==> s in {"NA", "Na", "nA", "na"}
  {
    if EqualsIgnoreCase(s, "NA") {
      assert ToUpperAscii(s[0]) == 'N' && ToUpperAscii(s[1]) == 'A';
      UpperIs(s[0], 'N');
      UpperIs(s[1], 'A');
      assert s == [s[0], s[1]];
    }
  }

  /** The strings equal to "NULL" ignoring case are the 16 spellings built from
      {N,n} {U,u} {L,l} {L,l}. */
  lemma EqualsIgnoreCaseNULL(s: string)
    ensures EqualsIgnoreCase(s, "NULL") <==>
      |s| == 4 && s[0] in "Nn" && s[1] in "Uu" && s[2] in "Ll" && s[3] in "Ll"
  {
    if EqualsIgnoreCase(s, "NULL") {
      assert ToUpperAscii(s[0]) == 'N' && ToUpperAscii(s[1]) == 'U';
      assert ToUpperAscii(s[2]) == 'L' && ToUpperAscii(s[3]) == 'L';
      UpperIs(s[0], 'N');
      UpperIs(s[1], 'U');
      UpperIs(s[2], 'L');
      UpperIs(s[3], 'L');
    }
  }

  // ---------------------------------------------------------------------------
  // replace(c, "")

  /** `s.replace(String.valueOf(c), "")`: every `c` removed, the rest kept in order. */
  function RemoveChar(s: string, c: char): (r: string)
    ensures c !in r
    ensures multiset(r) == multiset(s)[c := 0]
  {
    if |s| == 0 then ""
    else
      assert s == [s[0]] + s[1..];
      var rest := RemoveChar(s[1..], c);
      if s[0] == c then rest else [s[0]] + rest
  }

  /** Text without `c` is left untouched. */
  lemma {:induction false} RemoveCharAbsent(s: string, c: char)
    requires c !in s
    ensures RemoveChar(s, c) == s
  {
    if |s| > 0 {
      RemoveCharAbsent(s[1..], c);
      assert s == [s[0]] + s[1..];
    }
  }

  /** Removal works piecewise, so characters keep their relative order. */
  lemma {:induction false} RemoveCharConcat(a: string, b: string, c: char)
    ensures RemoveChar(a + b, c) == RemoveChar(a, c) + RemoveChar(b, c)
  {
    if |a| > 0 {
      assert (a + b)[1..] == a[1..] + b;
      RemoveCharConcat(a[1..], b, c);
    } else {
      assert a + b == b;
    }
  }
}
