/** The few JavaScript string built-ins the chat route relies on, written out:
    the whitespace class shared by the regular-expression escape `\s` and by
    `String.prototype.trim`, `trim` itself, `split` and `join` on one
    separator character, the ASCII case folding of a regular expression's
    `i` flag, and `parseInt` on decimal text. */
module JsText {

  /** The WhiteSpace and LineTerminator code points of ECMAScript. */
  predicate IsSpace(c: char) {
    || c == '\t' || c == '\n' || c == '\U{B}' || c == '\U{C}' || c == '\r'
    || c == ' ' || c == '\U{A0}' || c == '\U{1680}'
    || ('\U{2000}' <= c <= '\U{200A}')
    || c == '\U{2028}' || c == '\U{2029}' || c == '\U{202F}' || c == '\U{205F}'
    || c == '\U{3000}' || c == '\U{FEFF}'
  }

  predicate AllSpace(s: string) {
    forall k :: 0 <= k < |s| ==> IsSpace(s[k])
  }

  /** Every character of `s` from `lo` up to `hi` is whitespace. */
  predicate SpacesBetween(s: string, lo: int, hi: int)
    requires 0 <= lo && hi <= |s|
  {
    forall k :: lo <= k < hi ==> IsSpace(s[k])
  }

  // ---------------------------------------------------------------------
  // trim
  // ---------------------------------------------------------------------

  /** Number of whitespace characters `s` starts with. */
  function LeadingSpaces(s: string): (n: nat)
    ensures n <= |s| && SpacesBetween(s, 0, n)
    ensures n < |s| ==> !IsSpace(s[n])
  {
    if s != [] && IsSpace(s[0]) then 1 + LeadingSpaces(s[1..]) else 0
  }

  /** Number of whitespace characters `s` ends with. */
  function TrailingSpaces(s: string): (n: nat)
    ensures n <= |s| && SpacesBetween(s, |s| - n, |s|)
    ensures n < |s| ==> !IsSpace(s[|s| - n - 1])
  {
    if s != [] && IsSpace(s[|s| - 1]) then 1 + TrailingSpaces(s[..|s| - 1]) else 0
  }

  /** `r` is `s` without its leading and trailing whitespace: a slice of `s`
      that neither starts nor ends with whitespace and outside of which `s`
      holds only whitespace. */
  ghost predicate IsTrimOf(r: string, s: string) {
    && (r == [] || (!IsSpace(r[0]) && !IsSpace(r[|r| - 1])))
    && exists i :: 0 <= i <= |s| - |r| && r == s[i..i + |r|]
                   && SpacesBetween(s, 0, i) && SpacesBetween(s, i + |r|, |s|)
  }

  /** `String.prototype.trim`. */
  function Trim(s: string): (r: string)
    ensures |r| <= |s|
  {
    var a := LeadingSpaces(s);
    if a == |s| then [] else s[a..|s| - TrailingSpaces(s)]
  }

  /** `Trim` removes exactly the leading and trailing whitespace. */
  lemma TrimSpec(s: string)
    ensures IsTrimOf(Trim(s), s)
  {
    var a := LeadingSpaces(s);
    if a == |s| {
      assert s[a..a] == [];
    } else {
      var b := |s| - TrailingSpaces(s);
      assert !IsSpace(s[a]);
      assert s[a..b][b - a - 1] == s[b - 1];
      assert Trim(s) == s[a..a + |Trim(s)|];
    }
  }

  lemma {:induction false} LeadingSpacesAre(s: string, i: nat)
    requires i <= |s| && SpacesBetween(s, 0, i)
    requires i < |s| ==> !IsSpace(s[i])
    ensures LeadingSpaces(s) == i
  {
    if i > 0 {
      assert IsSpace(s[0]);
      LeadingSpacesAre(s[1..], i - 1);
    }
  }

  lemma {:induction false} TrailingSpacesAre(s: string, i: nat)
    requires i <= |s| && SpacesBetween(s, |s| - i, |s|)
    requires i < |s| ==> !IsSpace(s[|s| - i - 1])
    ensures TrailingSpaces(s) == i
  {
    if i > 0 {
      assert IsSpace(s[|s| - 1]);
      TrailingSpacesAre(s[..|s| - 1], i - 1);
    }
  }

  /** Whatever satisfies the description of a trim is what `Trim` returns. */
  lemma TrimOfIsTrim(r: string, s: string)
    requires IsTrimOf(r, s)
    ensures r == Trim(s)
  {
    var i :| 0 <= i <= |s| - |r| && r == s[i..i + |r|]
             && SpacesBetween(s, 0, i) && SpacesBetween(s, i + |r|, |s|);
    if r == [] {
      LeadingSpacesAre(s, |s|);
    } else {
      TrimAt(r, s, i);
    }
  }

  lemma TrimAt(r: string, s: string, i: nat)
    requires r != [] && !IsSpace(r[0]) && !IsSpace(r[|r| - 1])
    requires i + |r| <= |s| && r == s[i..i + |r|]
    requires SpacesBetween(s, 0, i) && SpacesBetween(s, i + |r|, |s|)
    ensures r == Trim(s)
  {
    var j := i + |r|;
    assert s[i] == r[0] && s[j - 1] == r[|r| - 1];
    LeadingSpacesAre(s, i);
    TrailingSpacesAre(s, |s| - j);
  }

  /** There is only one way to trim a string. */
  lemma TrimOfIsUnique(r1: string, r2: string, s: string)
    requires IsTrimOf(r1, s) && IsTrimOf(r2, s)
    ensures r1 == r2
  {
    TrimOfIsTrim(r1, s);
    TrimOfIsTrim(r2, s);
  }

  /** Trimming twice is trimming once. */
  lemma TrimIdempotent(s: string)
    ensures Trim(Trim(s)) == Trim(s)
  {
    var t := Trim(s);
    TrimSpec(s);
    assert t[0..0 + |t|] == t && SpacesBetween(t, 0, 0) && SpacesBetween(t, 0 + |t|, |t|);
    assert IsTrimOf(t, t);
    TrimOfIsTrim(t, t);
  }

  /** Whitespace on either side of a trimmed string is what `trim` removes. */
  lemma TrimAround(pre: string, r: string, post: string)
    requires AllSpace(pre) && AllSpace(post)
    requires r == [] || (!IsSpace(r[0]) && !IsSpace(r[|r| - 1]))
    ensures Trim(pre + r + post) == r
  {
    var s := pre + r + post;
    var i := |pre|;
    assert r == s[i..i + |r|];
    assert SpacesBetween(s, 0, i) by {
      assert forall k :: 0 <= k < i ==> s[k] == pre[k];
    }
    assert SpacesBetween(s, i + |r|, |s|) by {
      assert forall k :: i + |r| <= k < |s| ==> s[k] == post[k - i - |r|];
    }
    TrimOfIsTrim(r, s);
  }

  /** `trim` keeps only characters of its argument. */
  lemma TrimWithin(s: string)
    ensures forall c :: c in Trim(s) ==> c in s
  {
    var r := Trim(s);
    var a := LeadingSpaces(s);
    forall c | c in r ensures c in s {
      var k :| 0 <= k < |r| && r[k] == c;
      assert s[a + k] == c;
    }
  }

  // ---------------------------------------------------------------------
  // indexOf, split and join on one character
  // ---------------------------------------------------------------------

  /** Position of the first `c` in `s`. */
  function IndexOf(s: string, c: char): (i: nat)
    requires c in s
    ensures i < |s| && s[i] == c && c !in s[..i]
  {
    if s[0] == c then 0
    else
      var i := IndexOf(s[1..], c);
      assert s[..i + 1] == [s[0]] + s[1..][..i];
      i + 1
  }

  /** The first `c` is the one with no `c` before it. */
  lemma {:induction false} IndexOfIs(s: string, c: char, j: nat)
    requires j < |s| && s[j] == c && c !in s[..j]
    ensures IndexOf(s, c) == j
  {
    if j > 0 {
      assert s[0] == s[..j][0];
      assert s[1..][..j - 1] == s[..j][1..];
      IndexOfIs(s[1..], c, j - 1);
    }
  }

  lemma IndexOfAfter(a: string, c: char, b: string)
    requires c !in a
    ensures c in a + [c] + b && IndexOf(a + [c] + b, c) == |a|
  {
    var s := a + [c] + b;
    assert s[|a|] == c;
    assert s[..|a|] == a;
    IndexOfIs(s, c, |a|);
  }

  /** `s.split(sep)` for a one-character separator: the pieces between the
      separators, always at least one. */
  function Split(s: string, sep: char): (parts: seq<string>)
    ensures |parts| >= 1
    ensures forall k :: 0 <= k < |parts| ==> sep !in parts[k]
    decreases |s|
  {
    if sep in s then
      var i := IndexOf(s, sep);
      [s[..i]] + Split(s[i + 1..], sep)
    else [s]
  }

  /** `parts.join(sep)`. */
  function Join(parts: seq<string>, sep: char): string {
    if parts == [] then ""
    else if |parts| == 1 then parts[0]
    else parts[0] + [sep] + Join(parts[1..], sep)
  }

  /** Joining the pieces with the separator gives back the string. */
  lemma {:induction false} JoinSplit(s: string, sep: char)
    ensures Join(Split(s, sep), sep) == s
    decreases |s|
  {
    if sep in s {
      var i := IndexOf(s, sep);
      var rest := Split(s[i + 1..], sep);
      var parts := [s[..i]] + rest;
      assert Split(s, sep) == parts;
      assert parts[1..] == rest;
      assert Join(parts, sep) == s[..i] + [sep] + Join(rest, sep);
      JoinSplit(s[i + 1..], sep);
      assert s == s[..i] + [sep] + s[i + 1..];
    }
  }

  /** Splitting a join of separator-free pieces gives back the pieces. */
  lemma {:induction false} SplitJoin(parts: seq<string>, sep: char)
    requires |parts| >= 1
    requires forall k :: 0 <= k < |parts| ==> sep !in parts[k]
    ensures Split(Join(parts, sep), sep) == parts
  {
    if |parts| > 1 {
      var rest := Join(parts[1..], sep);
      IndexOfAfter(parts[0], sep, rest);
      assert (parts[0] + [sep] + rest)[..|parts[0]|] == parts[0];
      assert (parts[0] + [sep] + rest)[|parts[0]| + 1..] == rest;
      SplitJoin(parts[1..], sep);
    }
  }

  // ---------------------------------------------------------------------
  // Case folding of a regular expression without the `u` flag
  // ---------------------------------------------------------------------

  /** Canonicalisation under the `i` flag: `toUpperCase`, except that a
      character outside ASCII never folds onto an ASCII letter, so only the
      ASCII letters matter for the keywords matched here. */
  function Upper(c: char): char {
    if 'a' <= c <= 'z' then (c as int - 32) as char else c
  }

  /** `t` spells the upper-case keyword `kw` in any mix of letter case. */
  predicate SameLetters(t: string, kw: string) {
    |t| == |kw| && forall k :: 0 <= k < |t| ==> Upper(t[k]) == kw[k]
  }

  // ---------------------------------------------------------------------
  // parseInt(x) || 0 on decimal text
  // ---------------------------------------------------------------------

  predicate IsDigit(c: char) {
    '0' <= c <= '9'
  }

  predicate AllDigits(s: string) {
    forall k :: 0 <= k < |s| ==> IsDigit(s[k])
  }

  /** Number of decimal digits `s` starts with. */
  function LeadingDigits(s: string): (n: nat)
    ensures n <= |s| && AllDigits(s[..n])
    ensures n < |s| ==> !IsDigit(s[n])
  {
    if s != [] && IsDigit(s[0]) then 1 + LeadingDigits(s[1..]) else 0
  }

  /** The number a run of decimal digits denotes. */
  function DigitsValue(ds: string): nat
    requires AllDigits(ds)
  {
    if ds == [] then 0
    else 10 * DigitsValue(ds[..|ds| - 1]) + (ds[|ds| - 1] as int - '0' as int)
  }

  /** `parseInt(s) || 0` with the default radix on text that does not start
      with `0x`: skip leading whitespace, take an optional sign and the
      longest run of digits; no digits is NaN, which `|| 0` turns into 0
      (as it does with -0). */
  function ParseIntOrZero(s: string): int {
    var t := s[LeadingSpaces(s)..];
    var negative := t != [] && t[0] == '-';
    var u := if t != [] && (t[0] == '-' || t[0] == '+') then t[1..] else t;
    var d := LeadingDigits(u);
    if d == 0 then 0
    else if negative then -(DigitsValue(u[..d]) as int)
    else DigitsValue(u[..d])
  }

  /** The decimal rendering of a natural number, as `String(n)` writes it. */
  function Decimal(n: nat): (s: string)
    ensures s != [] && AllDigits(s)
  {
    if n < 10 then [('0' as int + n) as char]
    else Decimal(n / 10) + [('0' as int + n % 10) as char]
  }

  lemma {:induction false} DecimalValue(n: nat)
    ensures DigitsValue(Decimal(n)) == n
  {
    if n >= 10 {
      DecimalValue(n / 10);
      var s := Decimal(n);
      assert s[..|s| - 1] == Decimal(n / 10);
    }
  }

  lemma {:induction false} LeadingDigitsOf(ds: string, rest: string)
    requires AllDigits(ds)
    requires rest == [] || !IsDigit(rest[0])
    ensures LeadingDigits(ds + rest) == |ds|
  {
    if ds != [] {
      assert (ds + rest)[1..] == ds[1..] + rest;
      LeadingDigitsOf(ds[1..], rest);
    } else {
      assert ds + rest == rest;
    }
  }

  /** `parseInt` reads back a number written in decimal, whatever non-digit
      text follows it: what lets `duration=30min` count as 30. */
  lemma ParseDecimal(n: nat, rest: string)
    requires rest == [] || !IsDigit(rest[0])
    ensures ParseIntOrZero(Decimal(n) + rest) == n
  {
    var s := Decimal(n) + rest;
    assert s[0] == Decimal(n)[0];
    assert LeadingSpaces(s) == 0;
    LeadingDigitsOf(Decimal(n), rest);
    assert s[..|Decimal(n)|] == Decimal(n);
    DecimalValue(n);
  }
}
