/** Values shared by the two Flask handler sets: parsed JSON, Python's
    whitespace stripping, decimal rendering of an id, and the state of the
    JSON file that backs a store. */
module Common {

  datatype Option<+T> = None | Some(value: T)

  /** A parsed JSON value. Numbers are integers only. */
  datatype Json =
    | JNull
    | JBool(b: bool)
    | JNumber(n: int)
    | JString(s: string)
    | JArray(items: seq<Json>)
    | JObject(fields: map<string, Json>)

  /** What the backing file holds: nothing yet, a parsed JSON array of
      records, or text that does not parse as JSON. */
  datatype FileContent<R> = Missing | Parsed(records: seq<R>) | Corrupt

  /** The file after a load: a missing file is created holding `[]`,
      anything else is left as it is. */
  function AfterLoad<R>(f: FileContent<R>): (g: FileContent<R>)
    ensures f.Missing? ==> g == Parsed([])
    ensures !f.Missing? ==> g == f
  {
    if f.Missing? then Parsed([]) else f
  }

  /** Outcome of checking one request field: accepted with a value, a
      validation failure (HTTP 400), or an exception raised while reading it
      (HTTP 500), as when `.strip()` is called on something not a string. */
  datatype Check<T> = Accept(value: T) | Reject | Crash

  // ---------------------------------------------------------------------
  // Python's str.strip() with no argument

  /** The characters for which Python's `str.isspace()` holds. */
  predicate IsSpace(c: char) {
    || ('\t' <= c <= '\r')
    || ('\U{1C}' <= c <= '\U{1F}')
    || c == ' '
    || c == '\U{85}'
    || c == '\U{A0}'
    || c == '\U{1680}'
    || ('\U{2000}' <= c <= '\U{200A}')
    || c == '\U{2028}'
    || c == '\U{2029}'
    || c == '\U{202F}'
    || c == '\U{205F}'
    || c == '\U{3000}'
  }

  predicate AllSpace(s: string) {
    forall k :: 0 <= k < |s| ==> IsSpace(s[k])
  }

  lemma AllSpaceConcat(a: string, b: string)
    requires AllSpace(a) && AllSpace(b)
    ensures AllSpace(a + b)
  {
    forall k | 0 <= k < |a + b| ensures IsSpace((a + b)[k]) {
      if k < |a| { assert (a + b)[k] == a[k]; } else { assert (a + b)[k] == b[k - |a|]; }
    }
  }

  /** A whitespace character in front of a whitespace prefix of the rest
      makes a longer whitespace prefix, before the same suffix of length `n`. */
  lemma SpacePrefixStep(s: string, n: nat)
    requires |s| > 0 && IsSpace(s[0]) && n <= |s| - 1
    requires AllSpace(s[1..][..|s| - 1 - n])
    ensures s[1..][|s| - 1 - n..] == s[|s| - n..]
    ensures AllSpace(s[..|s| - n])
  {
    assert s[1..][..|s| - 1 - n] == s[1..|s| - n];
    AllSpaceConcat([s[0]], s[1..|s| - n]);
    assert s[..|s| - n] == [s[0]] + s[1..|s| - n];
  }

  /** A whitespace character after a whitespace suffix of the rest makes a
      longer whitespace suffix, after the same prefix of length `n`. */
  lemma SpaceSuffixStep(s: string, n: nat)
    requires |s| > 0 && IsSpace(s[|s| - 1]) && n <= |s| - 1
    requires AllSpace(s[..|s| - 1][n..])
    ensures s[..|s| - 1][..n] == s[..n]
    ensures AllSpace(s[n..])
  {
    assert s[..|s| - 1][n..] == s[n..|s| - 1];
    AllSpaceConcat(s[n..|s| - 1], [s[|s| - 1]]);
    assert s[n..] == s[n..|s| - 1] + [s[|s| - 1]];
  }

  /** `s` with its leading whitespace removed: the longest suffix of `s`
      whose dropped prefix is all whitespace. */
  function TrimStart(s: string): (r: string)
    ensures |r| <= |s| && r == s[|s| - |r|..]
    ensures AllSpace(s[..|s| - |r|])
    ensures r == [] || !IsSpace(r[0])
    decreases |s|
  {
    if |s| > 0 && IsSpace(s[0]) then
      var r := TrimStart(s[1..]);
      SpacePrefixStep(s, |r|);
      r
    else
      assert s[..0] == [];
      s
  }

  /** `s` with its trailing whitespace removed. */
  function TrimEnd(s: string): (r: string)
    ensures |r| <= |s| && r == s[..|r|]
    ensures AllSpace(s[|r|..])
    ensures r == [] || !IsSpace(r[|r| - 1])
    decreases |s|
  {
    if |s| > 0 && IsSpace(s[|s| - 1]) then
      var r := TrimEnd(s[..|s| - 1]);
      SpaceSuffixStep(s, |r|);
      r
    else
      assert s[|s|..] == [];
      s
  }

  /** Python's `s.strip()`. */
  function Strip(s: string): (r: string)
  {
    TrimEnd(TrimStart(s))
  }

  lemma SliceOfSuffix<T>(s: seq<T>, a: nat, k: nat)
    requires a + k <= |s|
    ensures s[a..][..k] == s[a..a + k] && s[a..][k..] == s[a + k..]
  {
  }

  /** Where the stripped text sits in the input. */
  lemma StripBounds(s: string) returns (a: nat, b: nat)
    ensures a <= b <= |s| && Strip(s) == s[a..b]
    ensures AllSpace(s[..a]) && AllSpace(s[b..])
  {
    var t := TrimStart(s);
    var r := TrimEnd(t);
    a := |s| - |t|;
    b := a + |r|;
    assert Strip(s) == s[a..b] by { SliceOfSuffix(s, a, |r|); }
    assert AllSpace(s[b..]) by {
      SliceOfSuffix(s, a, |r|);
      assert s[b..] == t[|r|..];
    }
  }

  /** The stripped text neither starts nor ends with whitespace. */
  lemma StripEnds(s: string)
    ensures Strip(s) == [] || (!IsSpace(Strip(s)[0]) && !IsSpace(Strip(s)[|Strip(s)| - 1]))
  {
    var t := TrimStart(s);
    if Strip(s) != [] {
      assert Strip(s)[0] == t[0];
    }
  }

  /** The stripped text is a slice of the input with only whitespace cut
      off either side, and it neither starts nor ends with whitespace. */
  lemma StripSlice(s: string)
    ensures exists a, b :: 0 <= a <= b <= |s| && Strip(s) == s[a..b]
                           && AllSpace(s[..a]) && AllSpace(s[b..])
    ensures Strip(s) == [] || (!IsSpace(Strip(s)[0]) && !IsSpace(Strip(s)[|Strip(s)| - 1]))
  {
    var a, b := StripBounds(s);
    StripEnds(s);
  }

  /** A field is blank after stripping exactly when it is all whitespace. */
  lemma StripEmptyIff(s: string)
    ensures Strip(s) == [] <==> AllSpace(s)
  {
    var t := TrimStart(s);
    if Strip(s) == [] {
      // a non-empty TrimStart result starts with a non-space, which TrimEnd keeps
      assert t[|TrimEnd(t)|..] == t;
      assert t == [];
      assert s[..|s| - |t|] == s;
    } else {
      StripSlice(s);
    }
  }

  /** Stripping twice is stripping once. */
  lemma StripIdempotent(s: string)
    ensures Strip(Strip(s)) == Strip(s)
  {
    var r := Strip(s);
    StripSlice(s);
    if r != [] {
      assert TrimStart(r) == r;
      assert TrimEnd(r) == r;
    }
  }

  // ---------------------------------------------------------------------
  // Python's str() of a non-negative int

  function DigitChar(d: nat): (c: char)
    requires d < 10
    ensures '0' <= c <= '9'
  {
    ('0' as int + d) as char
  }

  function DigitValue(c: char): (d: nat)
    requires '0' <= c <= '9'
    ensures d < 10
  {
    (c as int - '0' as int)
  }

  /** The decimal text of `n`, as `str(n)` or an f-string renders it. */
  function Decimal(n: nat): (s: string)
    ensures |s| >= 1
    ensures forall k :: 0 <= k < |s| ==> '0' <= s[k] <= '9'
    ensures s[0] == '0' ==> n == 0
  {
    if n < 10 then [DigitChar(n)] else Decimal(n / 10) + [DigitChar(n % 10)]
  }

  /** Reads a string of decimal digits back as a number. */
  function ParseDecimal(s: string): nat
    requires forall k :: 0 <= k < |s| ==> '0' <= s[k] <= '9'
  {
    if s == [] then 0
    else ParseDecimal(s[..|s| - 1]) * 10 + DigitValue(s[|s| - 1])
  }

  /** The rendering loses nothing: the id can be read back from it, so
      distinct ids give distinct texts. */
  lemma {:induction false} DecimalRoundTrip(n: nat)
    ensures ParseDecimal(Decimal(n)) == n
  {
    var s := Decimal(n);
    if n < 10 {
      assert s[..|s| - 1] == [];
    } else {
      assert s[..|s| - 1] == Decimal(n / 10);
      DecimalRoundTrip(n / 10);
    }
  }

  lemma DecimalInjective(m: nat, n: nat)
    ensures Decimal(m) == Decimal(n) <==> m == n
  {
    if Decimal(m) == Decimal(n) {
      DecimalRoundTrip(m);
      DecimalRoundTrip(n);
    }
  }
}
