/** The few pieces of Go's `strings` and `fmt` packages that the modelled code
    relies on, written out so that their behaviour on edge cases (empty input,
    repeated separators) is explicit. Go strings are modelled as `seq<char>`. */
module GoStrings {

  /** strings.HasPrefix */
  predicate HasPrefix(s: string, prefix: string) {
    |prefix| <= |s| && s[..|prefix|] == prefix
  }

  /** strings.HasSuffix */
  predicate HasSuffix(s: string, suffix: string) {
    |suffix| <= |s| && s[|s| - |suffix|..] == suffix
  }

  /** strings.TrimPrefix: removes `prefix` once, if present. */
  function TrimPrefix(s: string, prefix: string): (r: string)
    ensures HasPrefix(s, prefix) ==> prefix + r == s
    ensures !HasPrefix(s, prefix) ==> r == s
  {
    if HasPrefix(s, prefix) then s[|prefix|..] else s
  }

  /** Every character of `s` is `c`. */
  predicate AllChar(s: string, c: char) {
    forall i :: 0 <= i < |s| ==> s[i] == c
  }

  /** Leading half of strings.Trim with a one-character cutset. */
  function TrimLeft(s: string, c: char): (r: string)
    ensures |r| <= |s| && r == s[|s| - |r|..]
    ensures AllChar(s[..|s| - |r|], c)
    ensures r != [] ==> r[0] != c
  {
    if |s| > 0 && s[0] == c then
      var rest := s[1..];
      var r := TrimLeft(rest, c);
      assert s[..|s| - |r|] == [c] + rest[..|rest| - |r|];
      AllCharConcat([c], rest[..|rest| - |r|], c);
      r
    else s
  }

  /** Trailing half of strings.Trim with a one-character cutset. */
  function TrimRight(s: string, c: char): (r: string)
    ensures |r| <= |s| && r == s[..|r|]
    ensures AllChar(s[|r|..], c)
    ensures r != [] ==> r[|r| - 1] != c
  {
    if |s| > 0 && s[|s| - 1] == c then
      var init := s[..|s| - 1];
      var r := TrimRight(init, c);
      assert s[|r|..] == init[|r|..] + [c];
      AllCharConcat(init[|r|..], [c], c);
      r
    else s
  }

  /** strings.Trim(s, cutset) for a cutset of one character: every leading and
      every trailing `c` is removed, the characters in between are kept. */
  function Trim(s: string, c: char): (r: string)
    ensures |r| <= |s|
    ensures r == [] <==> AllChar(s, c)
    ensures r != [] ==> r[0] != c && r[|r| - 1] != c
  {
    var l := TrimLeft(s, c);
    var r := TrimRight(l, c);
    TrimBothEnds(s, l, r, c);
    r
  }

  /** What Trim promises, from what its two halves promise. */
  lemma TrimBothEnds(s: string, l: string, r: string, c: char)
    requires |l| <= |s| && l == s[|s| - |l|..] && AllChar(s[..|s| - |l|], c) && (l != [] ==> l[0] != c)
    requires |r| <= |l| && r == l[..|r|] && AllChar(l[|r|..], c) && (r != [] ==> r[|r| - 1] != c)
    ensures |r| <= |s|
    ensures r == [] <==> AllChar(s, c)
    ensures r != [] ==> r[0] != c && r[|r| - 1] != c
  {
    assert s == s[..|s| - |l|] + l;
    assert l == r + l[|r|..];
    AllCharConcat(s[..|s| - |l|], l, c);
    AllCharConcat(r, l[|r|..], c);
    if r != [] {
      assert r[0] == l[0];
    }
  }

  lemma AllCharConcat(a: string, b: string, c: char)
    ensures AllChar(a + b, c) <==> AllChar(a, c) && AllChar(b, c)
  {
    if AllChar(a + b, c) {
      forall i | 0 <= i < |a| ensures a[i] == c {
        assert a[i] == (a + b)[i];
      }
      forall i | 0 <= i < |b| ensures b[i] == c {
        assert b[i] == (a + b)[|a| + i];
      }
    }
    if AllChar(a, c) && AllChar(b, c) {
      forall i | 0 <= i < |a + b| ensures (a + b)[i] == c {
        if i >= |a| {
          assert (a + b)[i] == b[i - |a|];
        }
      }
    }
  }

  lemma {:induction false} TrimLeftAppend(s: string, c: char)
    ensures TrimLeft(s + [c], c) == if AllChar(s, c) then [] else TrimLeft(s, c) + [c]
    decreases |s|
  {
    if |s| > 0 && s[0] == c {
      var rest := s[1..];
      TrimLeftAppend(rest, c);
      TrimLeftAppendStep(s, c);
    } else if |s| > 0 {
      assert (s + [c])[0] == s[0];
    }
  }

  /** The inductive step of TrimLeftAppend: a leading `c` is dropped on both
      sides. */
  lemma TrimLeftAppendStep(s: string, c: char)
    requires |s| > 0 && s[0] == c
    requires TrimLeft(s[1..] + [c], c) == if AllChar(s[1..], c) then [] else TrimLeft(s[1..], c) + [c]
    ensures TrimLeft(s + [c], c) == if AllChar(s, c) then [] else TrimLeft(s, c) + [c]
  {
    assert (s + [c])[1..] == s[1..] + [c];
    assert s == [c] + s[1..];
    AllCharConcat([c], s[1..], c);
  }


  /** Leading or trailing copies of `c` make no difference to Trim. */
  lemma TrimIgnoresOuter(s: string, c: char)
    ensures Trim([c] + s, c) == Trim(s, c)
    ensures Trim(s + [c], c) == Trim(s, c)
  {
    TrimIgnoresLeading(s, c);
    TrimIgnoresTrailing(s, c);
  }

  lemma TrimIgnoresLeading(s: string, c: char)
    ensures Trim([c] + s, c) == Trim(s, c)
  {
    assert ([c] + s)[1..] == s;
    assert TrimLeft([c] + s, c) == TrimLeft(s, c);
  }

  lemma TrimIgnoresTrailing(s: string, c: char)
    ensures Trim(s + [c], c) == Trim(s, c)
  {
    TrimLeftAppend(s, c);
    var l := TrimLeft(s, c);
    if !AllChar(s, c) {
      assert (l + [c])[..|l + [c]| - 1] == l;
      assert TrimRight(l + [c], c) == TrimRight(l, c);
    }
  }

  /** Trim leaves alone a string that neither starts nor ends with `c`. */
  lemma TrimUntouched(s: string, c: char)
    requires s != [] ==> s[0] != c && s[|s| - 1] != c
    ensures Trim(s, c) == s
  {
  }

  /** Index of the first occurrence of `c` in `s` (strings.IndexByte). */
  function IndexOf(s: string, c: char): (i: nat)
    requires c in s
    ensures i < |s| && s[i] == c && c !in s[..i]
  {
    if s[0] == c then 0 else 1 + IndexOf(s[1..], c)
  }

  /** strings.Join with a one-character separator. */
  function Join(parts: seq<string>, sep: char): string
    requires |parts| >= 1
  {
    if |parts| == 1 then parts[0] else parts[0] + [sep] + Join(parts[1..], sep)
  }

  /** strings.Split with a one-character separator: the pieces between
      consecutive separators, so Split("") is [""] and "a//b" gives an empty
      middle piece. Joining the pieces again gives back the input. */
  function Split(s: string, sep: char): (parts: seq<string>)
    ensures |parts| >= 1
    ensures forall k :: 0 <= k < |parts| ==> sep !in parts[k]
    ensures Join(parts, sep) == s
    decreases |s|
  {
    if sep !in s then [s]
    else
      var i := IndexOf(s, sep);
      var rest := Split(s[i + 1..], sep);
      assert s == s[..i] + [sep] + s[i + 1..];
      [s[..i]] + rest
  }

  lemma IndexOfJoined(p: string, sep: char, q: string)
    requires sep !in p
    ensures sep in p + [sep] + q && IndexOf(p + [sep] + q, sep) == |p|
  {
    var s := p + [sep] + q;
    assert s[|p|] == sep;
  }

  /** One step of Split on an input whose first separator follows `p`. */
  lemma SplitCons(p: string, sep: char, q: string)
    requires sep !in p
    ensures Split(p + [sep] + q, sep) == [p] + Split(q, sep)
  {
    var s := p + [sep] + q;
    IndexOfJoined(p, sep, q);
    assert s[..|p|] == p;
    assert s[|p| + 1..] == q;
  }

  /** Split undoes Join: pieces without the separator come back unchanged. */
  lemma {:induction false} SplitJoin(parts: seq<string>, sep: char)
    requires |parts| >= 1
    requires forall k :: 0 <= k < |parts| ==> sep !in parts[k]
    ensures Split(Join(parts, sep), sep) == parts
    decreases |parts|
  {
    if |parts| > 1 {
      SplitCons(parts[0], sep, Join(parts[1..], sep));
      SplitJoin(parts[1..], sep);
      assert parts == [parts[0]] + parts[1..];
    }
  }

  /** The strings of `parts` one after the other (strings.Join with an empty
      separator). */
  function Concat(parts: seq<string>): string {
    if parts == [] then "" else parts[0] + Concat(parts[1..])
  }

  /** Concatenation distributes over appending lists. */
  lemma {:induction false} ConcatAppend(a: seq<string>, b: seq<string>)
    ensures Concat(a + b) == Concat(a) + Concat(b)
    decreases |a|
  {
    if a == [] {
      assert a + b == b;
    } else {
      assert (a + b)[0] == a[0];
      assert (a + b)[1..] == a[1..] + b;
      ConcatAppend(a[1..], b);
      assert a[0] + (Concat(a[1..]) + Concat(b)) == (a[0] + Concat(a[1..])) + Concat(b);
    }
  }

  lemma ConcatSingle(s: string)
    ensures Concat([s]) == s
  {
    assert Concat([s]) == s + Concat([]);
  }

  /** The decimal digit for 0 <= d < 10. */
  function DigitChar(d: nat): (c: char)
    requires d < 10
    ensures '0' <= c <= '9'
  {
    "0123456789"[d]
  }

  predicate IsDigit(c: char) {
    '0' <= c <= '9'
  }

  /** The value a string of decimal digits denotes. */
  function DigitsValue(s: string): nat
    requires forall k :: 0 <= k < |s| ==> IsDigit(s[k])
  {
    if s == [] then 0
    else
      assert IsDigit(s[|s| - 1]);
      DigitsValue(s[..|s| - 1]) * 10 + (s[|s| - 1] as int - '0' as int)
  }

  /** fmt.Sprintf("%d", n) for a non-negative n. */
  function FormatNat(n: nat): string {
    if n < 10 then [DigitChar(n)] else FormatNat(n / 10) + [DigitChar(n % 10)]
  }

  /** The text of n is a non-empty digit string without leading zeros whose
      value is n. */
  lemma {:induction false} FormatNatDigits(n: nat)
    ensures var s := FormatNat(n);
      && |s| >= 1
      && (forall k :: 0 <= k < |s| ==> IsDigit(s[k]))
      && (|s| > 1 ==> s[0] != '0')
      && DigitsValue(s) == n
  {
    if n >= 10 {
      FormatNatDigits(n / 10);
      DigitsSnoc(FormatNat(n / 10), n % 10);
    }
  }

  /** Appending a digit multiplies the value by ten and adds the digit. */
  lemma DigitsSnoc(p: string, d: nat)
    requires d < 10
    requires forall k :: 0 <= k < |p| ==> IsDigit(p[k])
    ensures var s := p + [DigitChar(d)];
      && (forall k :: 0 <= k < |s| ==> IsDigit(s[k]))
      && DigitsValue(s) == DigitsValue(p) * 10 + d
  {
    var s := p + [DigitChar(d)];
    assert s[..|s| - 1] == p;
  }

  /** Distinct numbers are printed differently, so placeholder numbers can be
      told apart in a query text. */
  lemma FormatNatInjective(m: nat, n: nat)
    requires FormatNat(m) == FormatNat(n)
    ensures m == n
  {
    FormatNatDigits(m);
    FormatNatDigits(n);
  }
}
