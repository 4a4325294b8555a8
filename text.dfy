/** String primitives shared by the Worker and the browser client: the
    whitespace that String.prototype.trim removes, trimming, ASCII lower-casing,
    substring search, NUL removal, cleanText and decimal rendering of naturals. */
module Text {

  /** The ECMAScript WhiteSpace and LineTerminator code points: what
      String.prototype.trim removes and what the regular-expression class \s matches. */
  predicate IsJsSpace(c: char) {
    || c == '\t' || c == '\n' || c == '\U{B}' || c == '\U{C}' || c == '\r' || c == ' '
    || c == '\U{A0}' || c == '\U{1680}' || ('\U{2000}' <= c <= '\U{200A}')
    || c == '\U{2028}' || c == '\U{2029}' || c == '\U{202F}' || c == '\U{205F}'
    || c == '\U{3000}' || c == '\U{FEFF}'
  }

  predicate AllSpace(s: string) {
    forall i :: 0 <= i < |s| ==> IsJsSpace(s[i])
  }

  /** No whitespace at either end. */
  predicate Trimmed(s: string) {
    s == [] || (!IsJsSpace(s[0]) && !IsJsSpace(s[|s| - 1]))
  }

  /** The number of whitespace characters s starts with. */
  function LeadingSpaces(s: string): (n: nat)
    ensures n <= |s| && AllSpace(s[..n])
    ensures n == |s| || !IsJsSpace(s[n])
  {
    if |s| > 0 && IsJsSpace(s[0]) then
      var m := LeadingSpaces(s[1..]);
      var n := m + 1;
      forall i | 0 <= i < n ensures IsJsSpace(s[..n][i]) {
        if i > 0 {
          assert s[..n][i] == s[1..][..m][i - 1];
        }
      }
      n
    else 0
  }

  /** Drops the leading whitespace: the result is the suffix of s that starts
      at the first non-space character. */
  function TrimStart(s: string): (r: string)
    ensures |r| <= |s| && r == s[|s| - |r|..]
    ensures AllSpace(s[..|s| - |r|])
    ensures r == [] || !IsJsSpace(r[0])
  {
    s[LeadingSpaces(s)..]
  }

  /** Drops the trailing whitespace (the regular expression /[\s]+$/ replaced by ""). */
  function TrimEnd(s: string): (r: string)
    ensures |r| <= |s| && r == s[..|r|]
    ensures AllSpace(s[|r|..])
    ensures r == [] || !IsJsSpace(r[|r| - 1])
  {
    if |s| > 0 && IsJsSpace(s[|s| - 1]) then
      var r := TrimEnd(s[..|s| - 1]);
      assert s[|r|..] == s[..|s| - 1][|r|..] + [s[|s| - 1]];
      r
    else s
  }

  /** r sits in s at offset i with only whitespace around it. */
  predicate TrimmedFrom(s: string, r: string, i: nat) {
    && i + |r| <= |s|
    && r == s[i..i + |r|]
    && AllSpace(s[..i])
    && AllSpace(s[i + |r|..])
  }

  /** String.prototype.trim: the part of s between its leading and its
      trailing whitespace. */
  function Trim(s: string): (r: string)
    ensures Trimmed(r) && |r| <= |s|
  {
    TrimEnd(TrimStart(s))
  }

  /** The trimmed string is s less a run of whitespace at either end. */
  lemma TrimSpec(s: string)
    ensures exists i :: TrimmedFrom(s, Trim(s), i)
  {
    var t := TrimStart(s);
    var r := TrimEnd(t);
    var i := |s| - |t|;
    assert r == Trim(s);
    assert s[i + |r|..] == t[|r|..];
    assert TrimmedFrom(s, r, i);
  }

  /** Every character of s outside the part r at offset i is whitespace. */
  lemma SpaceOutside(s: string, r: string, i: nat)
    requires TrimmedFrom(s, r, i)
    ensures forall k :: 0 <= k < |s| && (k < i || i + |r| <= k) ==> IsJsSpace(s[k])
  {
    forall k | 0 <= k < |s| && (k < i || i + |r| <= k) ensures IsJsSpace(s[k]) {
      if k < i { assert s[k] == s[..i][k]; } else { assert s[k] == s[i + |r|..][k - i - |r|]; }
    }
  }

  /** A string splits in only one way into whitespace, a part with no
      whitespace at either end, and whitespace; with TrimSpec this pins down
      what trim returns. */
  lemma TrimmedFromUnique(s: string, r: string, i: nat, r': string, j: nat)
    requires Trimmed(r) && TrimmedFrom(s, r, i)
    requires Trimmed(r') && TrimmedFrom(s, r', j)
    ensures r == r'
  {
    SpaceOutside(s, r, i);
    SpaceOutside(s, r', j);
    if r != [] {
      assert s[i] == r[0] && s[i + |r| - 1] == r[|r| - 1];
    }
    if r' != [] {
      assert s[j] == r'[0] && s[j + |r'| - 1] == r'[|r'| - 1];
    }
    if r != [] && r' != [] {
      assert i == j && |r| == |r'|;
    }
  }

  /** TrimmedFrom, character by character. */
  lemma TrimmedFromIntro(s: string, r: string, i: nat)
    requires i + |r| <= |s|
    requires forall k :: 0 <= k < |r| ==> s[i + k] == r[k]
    requires forall k :: 0 <= k < |s| && (k < i || i + |r| <= k) ==> IsJsSpace(s[k])
    ensures TrimmedFrom(s, r, i)
  {
    assert s[i..i + |r|] == r;
    forall k | 0 <= k < i ensures IsJsSpace(s[..i][k]) {
      assert s[..i][k] == s[k];
    }
    var tail := s[i + |r|..];
    forall k | 0 <= k < |tail| ensures IsJsSpace(tail[k]) {
      assert tail[k] == s[i + |r| + k];
    }
  }

  /** s is its whitespace prefix, r and its whitespace suffix. */
  lemma TrimmedFromSplit(s: string, r: string, i: nat)
    requires TrimmedFrom(s, r, i)
    ensures s == s[..i] + r + s[i + |r|..]
  {
    var t := s[..i] + r + s[i + |r|..];
    forall k | 0 <= k < |s| ensures t[k] == s[k] {
      if k < i {
        assert t[k] == s[..i][k];
      } else if k < i + |r| {
        assert t[k] == r[k - i] == s[i..i + |r|][k - i];
      } else {
        assert t[k] == s[i + |r|..][k - i - |r|];
      }
    }
  }

  /** A character that is not whitespace does not occur in whitespace. */
  lemma NotInSpace(a: string, c: char)
    requires AllSpace(a) && !IsJsSpace(c)
    ensures c !in a
  {
  }

  /** Padding s with whitespace moves the part r that s trims to by the
      length of the left padding. */
  lemma TrimmedFromPadded(a: string, x: string, b: string, r: string, i: nat)
    requires AllSpace(a) && AllSpace(b) && TrimmedFrom(x, r, i)
    ensures TrimmedFrom(a + x + b, r, |a| + i)
  {
    SpaceOutside(x, r, i);
    var s := a + x + b;
    forall k | 0 <= k < |r| ensures s[|a| + i + k] == r[k] {
      assert s[|a| + i + k] == x[i + k];
      assert r[k] == x[i..i + |r|][k];
    }
    forall k | 0 <= k < |s| && (k < |a| + i || |a| + i + |r| <= k) ensures IsJsSpace(s[k]) {
      if k < |a| {
        assert s[k] == a[k];
      } else if k < |a| + |x| {
        assert s[k] == x[k - |a|];
      } else {
        assert s[k] == b[k - |a| - |x|];
      }
    }
    TrimmedFromIntro(s, r, |a| + i);
  }

  /** Whitespace around a string does not change what trim returns. */
  lemma TrimPadded(a: string, x: string, b: string)
    requires AllSpace(a) && AllSpace(b)
    ensures Trim(a + x + b) == Trim(x)
  {
    TrimSpec(x);
    var i: nat :| TrimmedFrom(x, Trim(x), i);
    TrimPaddedAt(a, x, b, Trim(x), i);
  }

  /** TrimPadded, given where r sits in x. */
  lemma TrimPaddedAt(a: string, x: string, b: string, r: string, i: nat)
    requires AllSpace(a) && AllSpace(b) && Trimmed(r) && TrimmedFrom(x, r, i)
    ensures Trim(a + x + b) == r
  {
    TrimmedFromPadded(a, x, b, r, i);
    TrimIs(a + x + b, r, |a| + i);
  }

  /** Any split of s into whitespace, a trimmed part r and whitespace is the
      one trim finds. */
  lemma TrimIs(s: string, r: string, i: nat)
    requires Trimmed(r) && TrimmedFrom(s, r, i)
    ensures Trim(s) == r
  {
    TrimSpec(s);
    var j: nat :| TrimmedFrom(s, Trim(s), j);
    TrimmedFromUnique(s, Trim(s), j, r, i);
  }

  /** Removing the trailing whitespace first does not change what trim returns. */
  lemma TrimOfTrimEnd(y: string)
    ensures Trim(TrimEnd(y)) == Trim(y)
  {
    var t := TrimEnd(y);
    assert y == [] + t + y[|t|..];
    TrimPadded([], t, y[|t|..]);
  }

  lemma TrimOfTrimmed(s: string)
    requires Trimmed(s)
    ensures Trim(s) == s
  {
    assert TrimStart(s) == s;
  }

  lemma TrimEmptyIffAllSpace(s: string)
    ensures Trim(s) == [] <==> AllSpace(s)
  {
    var r := Trim(s);
    TrimSpec(s);
    var i: nat :| TrimmedFrom(s, r, i);
    if r == [] {
      forall k | 0 <= k < |s| ensures IsJsSpace(s[k]) {
        if k < i { assert s[k] == s[..i][k]; } else { assert s[k] == s[i..][k - i]; }
      }
    } else {
      assert s[i] == r[0];
    }
  }

  /** Every character of the trimmed string comes from s. */
  lemma TrimKeepsChars(s: string, c: char)
    requires c !in s
    ensures c !in Trim(s)
  {
    var r := Trim(s);
    TrimSpec(s);
    var i: nat :| TrimmedFrom(s, r, i);
    forall k | 0 <= k < |r| ensures r[k] != c {
      assert r[k] == s[i + k];
    }
  }

  /** The string with every occurrence of c removed (replace(/c/g, "")). */
  function RemoveAll(s: string, c: char): (r: string)
    ensures c !in r
    ensures multiset(r) == multiset(s)[c := 0]
    ensures c !in s ==> r == s
  {
    if s == [] then []
    else
      assert s == [s[0]] + s[1..];
      if s[0] == c then RemoveAll(s[1..], c) else [s[0]] + RemoveAll(s[1..], c)
  }

  lemma {:induction false} RemoveAllAppend(a: string, b: string, c: char)
    ensures RemoveAll(a + b, c) == RemoveAll(a, c) + RemoveAll(b, c)
  {
    if a == [] {
      assert a + b == b;
    } else {
      assert (a + b)[1..] == a[1..] + b;
      RemoveAllAppend(a[1..], b, c);
    }
  }

  /** The output of cleanText: no NUL character and no whitespace at either end. */
  predicate Cleaned(s: string) {
    '\0' !in s && Trimmed(s)
  }

  /** cleanText on a string: NUL characters removed, then trimmed. */
  function CleanText(s: string): (r: string)
    ensures Cleaned(r)
    ensures |r| <= |s|
    ensures exists i :: TrimmedFrom(RemoveAll(s, '\0'), r, i)
  {
    var t := RemoveAll(s, '\0');
    TrimKeepsChars(t, '\0');
    TrimSpec(t);
    assert |multiset(t)| <= |multiset(s)|;
    Trim(t)
  }

  /** A string is a fixed point of cleanText exactly when it is already clean;
      in particular cleanText is idempotent. */
  lemma CleanTextFixedPoint(s: string)
    ensures CleanText(s) == s <==> Cleaned(s)
    ensures CleanText(CleanText(s)) == CleanText(s)
  {
    if Cleaned(s) {
      TrimOfTrimmed(s);
    }
    var r := CleanText(s);
    TrimOfTrimmed(r);
  }

  /** String.prototype.length: the number of UTF-16 code units, two for each
      character outside the Basic Multilingual Plane. */
  function Utf16Length(s: string): (n: nat)
    ensures |s| <= n <= 2 * |s|
  {
    if s == [] then 0 else (if s[0] >= '\U{10000}' then 2 else 1) + Utf16Length(s[1..])
  }

  /** On text inside the Basic Multilingual Plane the length counts characters. */
  lemma {:induction false} Utf16LengthOfBmp(s: string)
    requires forall i :: 0 <= i < |s| ==> s[i] < '\U{10000}'
    ensures Utf16Length(s) == |s|
  {
    if s != [] {
      Utf16LengthOfBmp(s[1..]);
    }
  }

  /** A character outside the Basic Multilingual Plane is a surrogate pair:
      two code units. */
  lemma {:induction false} Utf16LengthOfAstral(s: string)
    requires forall i :: 0 <= i < |s| ==> s[i] >= '\U{10000}'
    ensures Utf16Length(s) == 2 * |s|
  {
    if s != [] {
      Utf16LengthOfAstral(s[1..]);
    }
  }

  function LowerChar(c: char): char {
    if 'A' <= c <= 'Z' then (c as int + 32) as char else c
  }

  /** String.prototype.toLowerCase restricted to ASCII letters. */
  function Lower(s: string): (r: string)
    ensures |r| == |s| && forall i :: 0 <= i < |s| ==> r[i] == LowerChar(s[i])
  {
    if s == [] then [] else [LowerChar(s[0])] + Lower(s[1..])
  }

  /** p occurs in t at offset i. */
  predicate OccursAt(t: string, p: string, i: int) {
    0 <= i && i + |p| <= |t| && t[i..i + |p|] == p
  }

  /** t starts with p. */
  predicate StartsWith(t: string, p: string) {
    |p| <= |t| && t[..|p|] == p
  }

  /** String.prototype.includes: p starts at some offset of t, tried from
      left to right. */
  predicate Contains(t: string, p: string)
    decreases |t|
  {
    StartsWith(t, p) || (|t| > 0 && Contains(t[1..], p))
  }

  /** ps.some(p => t.includes(p)). */
  predicate ContainsAny(t: string, ps: seq<string>)
    decreases |ps|
  {
    |ps| > 0 && (Contains(t, ps[0]) || ContainsAny(t, ps[1..]))
  }

  /** includes holds exactly when p occurs in t at some offset. */
  lemma {:induction false} ContainsIffOccurs(t: string, p: string)
    ensures Contains(t, p) <==> exists i :: OccursAt(t, p, i)
    decreases |t|
  {
    if StartsWith(t, p) {
      assert OccursAt(t, p, 0);
    }
    if |t| > 0 {
      ContainsIffOccurs(t[1..], p);
      if exists i :: OccursAt(t[1..], p, i) {
        var i :| OccursAt(t[1..], p, i);
        assert t[i + 1..i + 1 + |p|] == t[1..][i..i + |p|];
        assert OccursAt(t, p, i + 1);
      }
      if exists i :: OccursAt(t, p, i) {
        var i :| OccursAt(t, p, i);
        if i > 0 {
          assert t[1..][i - 1..i - 1 + |p|] == t[i..i + |p|];
          assert OccursAt(t[1..], p, i - 1);
        } else {
          assert StartsWith(t, p);
        }
      }
    } else {
      if exists i :: OccursAt(t, p, i) {
        var i :| OccursAt(t, p, i);
        assert p == [];
        assert StartsWith(t, p);
      }
    }
  }

  /** some holds exactly when one of the patterns is included. */
  lemma {:induction false} ContainsAnyIff(t: string, ps: seq<string>)
    ensures ContainsAny(t, ps) <==> exists k :: 0 <= k < |ps| && Contains(t, ps[k])
    decreases |ps|
  {
    if |ps| > 0 {
      ContainsAnyIff(t, ps[1..]);
      if exists k :: 0 <= k < |ps| && Contains(t, ps[k]) {
        var k :| 0 <= k < |ps| && Contains(t, ps[k]);
        if k > 0 {
          assert ps[1..][k - 1] == ps[k];
        }
      }
      if ContainsAny(t, ps[1..]) {
        var k :| 0 <= k < |ps[1..]| && Contains(t, ps[1..][k]);
        assert ps[k + 1] == ps[1..][k];
      }
    }
  }

  /** Checking two lists of patterns is checking their concatenation. */
  lemma ContainsAnyAppend(t: string, ps: seq<string>, qs: seq<string>)
    ensures ContainsAny(t, ps + qs) <==> ContainsAny(t, ps) || ContainsAny(t, qs)
  {
    ContainsAnyIff(t, ps + qs);
    ContainsAnyIff(t, ps);
    ContainsAnyIff(t, qs);
    if ContainsAny(t, ps + qs) {
      var k :| 0 <= k < |ps + qs| && Contains(t, (ps + qs)[k]);
      if k >= |ps| {
        assert qs[k - |ps|] == (ps + qs)[k];
      }
    }
    if ContainsAny(t, ps) {
      var k :| 0 <= k < |ps| && Contains(t, ps[k]);
      assert (ps + qs)[k] == ps[k];
    }
    if ContainsAny(t, qs) {
      var k :| 0 <= k < |qs| && Contains(t, qs[k]);
      assert (ps + qs)[|ps| + k] == qs[k];
    }
  }

  /** An occurrence of an occurrence of p is an occurrence of p. */
  /** Only a text at least as long as every listed pattern can include one
      of them. */
  lemma ContainsAnyLength(t: string, ps: seq<string>, m: nat)
    requires forall k :: 0 <= k < |ps| ==> |ps[k]| >= m
    ensures ContainsAny(t, ps) ==> |t| >= m
  {
    if ContainsAny(t, ps) {
      ContainsAnyIff(t, ps);
      var k :| 0 <= k < |ps| && Contains(t, ps[k]);
      ContainsIffOccurs(t, ps[k]);
    }
  }

  lemma ContainsTransitive(t: string, q: string, p: string)
    requires Contains(t, q) && Contains(q, p)
    ensures Contains(t, p)
  {
    ContainsIffOccurs(t, q);
    ContainsIffOccurs(q, p);
    ContainsIffOccurs(t, p);
    var i :| OccursAt(t, q, i);
    var j :| OccursAt(q, p, j);
    forall k | 0 <= k < |p| ensures t[i + j + k] == p[k] {
      assert p[k] == q[j..j + |p|][k] == q[j + k];
      assert q[j + k] == t[i..i + |q|][j + k];
    }
    assert t[i + j..i + j + |p|] == p;
    assert OccursAt(t, p, i + j);
  }

  predicate IsDigit(c: char) {
    '0' <= c <= '9'
  }

  predicate AllDigits(s: string) {
    forall i :: 0 <= i < |s| ==> IsDigit(s[i])
  }

  function DigitChar(d: nat): char
    requires d < 10
  {
    ('0' as int + d) as char
  }

  /** The decimal numeral of n, as template literals and f-strings print it. */
  function NatToString(n: nat): (r: string)
    ensures |r| > 0 && AllDigits(r)
  {
    if n < 10 then [DigitChar(n)] else NatToString(n / 10) + [DigitChar(n % 10)]
  }

  /** The value of a string of decimal digits. */
  function DigitsValue(s: string): nat
    requires AllDigits(s)
  {
    if s == [] then 0 else DigitsValue(s[..|s| - 1]) * 10 + (s[|s| - 1] as int - '0' as int)
  }

  /** Reading back the numeral of n gives n. */
  lemma {:induction false} DigitsValueOfNatToString(n: nat)
    ensures DigitsValue(NatToString(n)) == n
  {
    var r := NatToString(n);
    if n >= 10 {
      DigitsValueOfNatToString(n / 10);
      assert r[..|r| - 1] == NatToString(n / 10);
    }
  }

  /** Distinct numbers print differently, so a message that quotes a number
      identifies it. */
  lemma NatToStringInjective(m: nat, n: nat)
    requires NatToString(m) == NatToString(n)
    ensures m == n
  {
    DigitsValueOfNatToString(m);
    DigitsValueOfNatToString(n);
  }
}
