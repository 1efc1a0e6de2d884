/**
 * The JavaScript string operations the catalog code relies on, written out:
 * `String.prototype.trim`, `includes`, `split` with a one-character separator,
 * the image public-id expression built from them, and `parseInt` without a radix.
 */
module Text {
  import opened Wrappers

  /** The characters JavaScript's `trim` removes: WhiteSpace and LineTerminator. */
  predicate IsWhitespace(c: char) {
    || c == '\t' || c == '\n' || c == '\U{B}' || c == '\U{C}' || c == '\r' || c == ' '
    || c == '\U{A0}' || c == '\U{1680}' || ('\U{2000}' <= c <= '\U{200A}')
    || c == '\U{2028}' || c == '\U{2029}' || c == '\U{202F}' || c == '\U{205F}'
    || c == '\U{3000}' || c == '\U{FEFF}'
  }

  predicate AllWhitespace(s: string) {
    forall i :: 0 <= i < |s| ==> IsWhitespace(s[i])
  }

  /** The first index at or after `from` that is not whitespace, or `|s|`. */
  function SkipSpace(s: string, from: nat): (r: nat)
    requires from <= |s|
    ensures from <= r <= |s|
    ensures forall j :: from <= j < r ==> IsWhitespace(s[j])
    ensures r < |s| ==> !IsWhitespace(s[r])
    decreases |s| - from
  {
    if from == |s| || !IsWhitespace(s[from]) then from else SkipSpace(s, from + 1)
  }

  /** The end of `s[lo..end]` once its trailing whitespace is dropped. */
  function SkipSpaceBack(s: string, lo: nat, end: nat): (r: nat)
    requires lo <= end <= |s|
    ensures lo <= r <= end
    ensures forall j :: r <= j < end ==> IsWhitespace(s[j])
    ensures r > lo ==> !IsWhitespace(s[r - 1])
  {
    if end == lo || !IsWhitespace(s[end - 1]) then end else SkipSpaceBack(s, lo, end - 1)
  }

  /** `s` with its leading whitespace removed (`trimStart`). */
  function TrimStart(s: string): (r: string)
    ensures |r| <= |s| && r == s[|s| - |r|..]
    ensures AllWhitespace(s[..|s| - |r|])
    ensures r == [] || !IsWhitespace(r[0])
  {
    s[SkipSpace(s, 0)..]
  }

  /** `r` sits in `s` at index `k` with nothing but whitespace on either side. */
  ghost predicate TrimmedAt(s: string, r: string, k: int) {
    && 0 <= k <= |s| - |r| && s[k..k + |r|] == r
    && (forall j :: 0 <= j < k ==> IsWhitespace(s[j]))
    && (forall j :: k + |r| <= j < |s| ==> IsWhitespace(s[j]))
  }

  /** `s.trim()`: `s` is the result surrounded by whitespace only, and the result
      neither starts nor ends with whitespace. */
  function Trim(s: string): (r: string)
    ensures exists k :: TrimmedAt(s, r, k)
    ensures r == [] || (!IsWhitespace(r[0]) && !IsWhitespace(r[|r| - 1]))
  {
    var a := SkipSpace(s, 0);
    var b := SkipSpaceBack(s, a, |s|);
    assert TrimmedAt(s, s[a..b], a);
    s[a..b]
  }

  /** Trimming twice is trimming once. */
  lemma TrimIsIdempotent(s: string)
    ensures Trim(Trim(s)) == Trim(s)
  {
    var r := Trim(s);
    assert SkipSpace(r, 0) == 0;
    assert SkipSpaceBack(r, 0, |r|) == |r|;
  }

  /** `sub` occurs in `s` starting at index `i`. */
  predicate OccursAt(s: string, sub: string, i: int) {
    0 <= i <= |s| - |sub| && s[i..i + |sub|] == sub
  }

  /** `s.includes(sub)`. */
  ghost predicate Contains(s: string, sub: string) {
    exists i :: OccursAt(s, sub, i)
  }

  /** A scanning implementation of `includes`, agreeing with `Contains` on every input. */
  function Includes(s: string, sub: string): (b: bool)
    ensures b <==> Contains(s, sub)
    decreases |s|
  {
    if |s| < |sub| then false
    else if s[..|sub|] == sub then
      assert OccursAt(s, sub, 0);
      true
    else
      var b := Includes(s[1..], sub);
      assert b ==> Contains(s, sub) by {
        if b {
          var i :| OccursAt(s[1..], sub, i);
          assert s[i + 1..i + 1 + |sub|] == s[1..][i..i + |sub|];
          assert OccursAt(s, sub, i + 1);
        }
      }
      assert Contains(s, sub) ==> b by {
        if Contains(s, sub) {
          var i :| OccursAt(s, sub, i);
          assert i != 0;
          assert s[1..][i - 1..i - 1 + |sub|] == s[i..i + |sub|];
          assert OccursAt(s[1..], sub, i - 1);
        }
      }
      b
  }

  // ---------------------------------------------------------------- split

  /** The first index at or after `from` holding `c`, or `|s|` when there is none
      (`indexOf`, with "not found" as the end of the string). */
  function IndexOf(s: string, c: char, from: nat): (r: nat)
    requires from <= |s|
    ensures from <= r <= |s|
    ensures r < |s| ==> s[r] == c
    ensures forall j :: from <= j < r ==> s[j] != c
    decreases |s| - from
  {
    if from == |s| || s[from] == c then from else IndexOf(s, c, from + 1)
  }

  /** The last index holding `c`, or -1 when there is none (`lastIndexOf`). */
  function LastIndexOf(s: string, c: char): (r: int)
    ensures -1 <= r < |s|
    ensures r >= 0 ==> s[r] == c
    ensures forall j :: r < j < |s| ==> s[j] != c
  {
    LastIndexBefore(s, c, |s|)
  }

  function LastIndexBefore(s: string, c: char, end: nat): (r: int)
    requires end <= |s|
    ensures -1 <= r < end
    ensures r >= 0 ==> s[r] == c
    ensures forall j :: r < j < end ==> s[j] != c
  {
    if end == 0 then -1 else if s[end - 1] == c then end - 1 else LastIndexBefore(s, c, end - 1)
  }

  /** `s.split(c)` for a one-character separator: the pieces between occurrences of
      `c`, scanning from the start. Nothing is lost: joining the pieces with `c` gives
      `s` back, and no piece contains `c`. */
  function Split(s: string, c: char): (parts: seq<string>)
    ensures |parts| >= 1
    ensures Join(parts, c) == s
    ensures forall i :: 0 <= i < |parts| ==> NoChar(parts[i], c)
  {
    JoinSplitFrom(s, c, 0);
    SplitFromPiecesAvoidSeparator(s, c, 0);
    SplitFrom(s, c, 0)
  }

  /** The pieces of `s[from..]`. */
  function SplitFrom(s: string, c: char, from: nat): (parts: seq<string>)
    requires from <= |s|
    ensures |parts| >= 1
    decreases |s| - from
  {
    var e := IndexOf(s, c, from);
    if e == |s| then [s[from..]] else [s[from..e]] + SplitFrom(s, c, e + 1)
  }

  /** `c` does not occur in `s`. */
  predicate NoChar(s: string, c: char) {
    forall i :: 0 <= i < |s| ==> s[i] != c
  }

  /** No piece of `Split` contains the separator. */
  lemma {:induction false} SplitFromPiecesAvoidSeparator(s: string, c: char, from: nat)
    requires from <= |s|
    ensures forall i :: 0 <= i < |SplitFrom(s, c, from)| ==> NoChar(SplitFrom(s, c, from)[i], c)
    decreases |s| - from
  {
    var e := IndexOf(s, c, from);
    assert NoChar(s[from..e], c);
    if e < |s| {
      SplitFromPiecesAvoidSeparator(s, c, e + 1);
    }
  }

  /** Joining with the separator, the inverse of `Split`. */
  function Join(parts: seq<string>, c: char): string
    requires |parts| >= 1
  {
    if |parts| == 1 then parts[0] else parts[0] + [c] + Join(parts[1..], c)
  }

  lemma {:induction false} JoinSplitFrom(s: string, c: char, from: nat)
    requires from <= |s|
    ensures Join(SplitFrom(s, c, from), c) == s[from..]
    decreases |s| - from
  {
    var e := IndexOf(s, c, from);
    if e < |s| {
      var rest := SplitFrom(s, c, e + 1);
      assert SplitFrom(s, c, from) == [s[from..e]] + rest;
      JoinSplitFrom(s, c, e + 1);
      calc {
        Join(SplitFrom(s, c, from), c);
        s[from..e] + [c] + Join(rest, c);
        s[from..e] + [c] + s[e + 1..];
        { SliceAround(s, from, e); }
        s[from..];
      }
    }
  }

  lemma SliceAround(s: string, from: nat, e: nat)
    requires from <= e < |s|
    ensures s[from..e] + [s[e]] + s[e + 1..] == s[from..]
  {
  }

  /** The last piece of `SplitFrom` is the text after the last separator, provided
      the scan starts at the beginning or right after a separator. */
  lemma {:induction false} SplitFromLast(s: string, c: char, from: nat)
    requires from <= |s|
    requires from == 0 || s[from - 1] == c
    ensures var parts := SplitFrom(s, c, from);
            parts[|parts| - 1] == s[LastIndexOf(s, c) + 1..]
    decreases |s| - from
  {
    var e := IndexOf(s, c, from);
    if e == |s| {
      assert SplitFrom(s, c, from) == [s[from..]];
      LastIndexOfIs(s, c, from - 1);
    } else {
      var rest := SplitFrom(s, c, e + 1);
      assert SplitFrom(s, c, from) == [s[from..e]] + rest;
      SplitFromLast(s, c, e + 1);
    }
  }

  /** `LastIndexOf` is characterised by its contract. */
  lemma LastIndexOfIs(s: string, c: char, k: int)
    requires -1 <= k < |s|
    requires k >= 0 ==> s[k] == c
    requires forall j :: k < j < |s| ==> s[j] != c
    ensures LastIndexOf(s, c) == k
  {
  }

  // ---------------------------------------------------------------- the image public id

  /** `id` sits in `url` at index `k`, right after the last `/` (or at the start), and
      runs up to the first `.` after it (or to the end). */
  ghost predicate PublicIdAt(url: string, id: string, k: int) {
    && 0 <= k <= |url| - |id| && url[k..k + |id|] == id
    && (k == 0 || url[k - 1] == '/')
    && (forall j :: k <= j < |url| ==> url[j] != '/')
    && (forall j :: k <= j < k + |id| ==> url[j] != '.')
    && (k + |id| == |url| || url[k + |id|] == '.')
  }

  /** The media host's public id of an image URL: the last `/`-separated segment,
      cut at its first `.`. */
  function PublicId(url: string): (id: string)
    ensures NoChar(id, '/') && NoChar(id, '.')
    ensures exists k :: PublicIdAt(url, id, k)
  {
    var start := LastIndexOf(url, '/') + 1;
    var stop := IndexOf(url, '.', start);
    assert PublicIdAt(url, url[start..stop], start);
    url[start..stop]
  }

  /** `PublicId` computes the controller's expression `url.split("/").pop().split(".")[0]`. */
  lemma PublicIdIsSplitExpression(url: string)
    ensures var segs := Split(url, '/');
            PublicId(url) == Split(segs[|segs| - 1], '.')[0]
  {
    SplitFromLast(url, '/', 0);
    IndexOfShift(url, '.', LastIndexOf(url, '/') + 1);
  }

  /** Scanning a suffix finds the same occurrence, shifted. */
  lemma {:induction false} IndexOfShift(s: string, c: char, start: nat)
    requires start <= |s|
    ensures IndexOf(s[start..], c, 0) == IndexOf(s, c, start) - start
  {
    var t := s[start..];
    assert forall j :: 0 <= j < |t| ==> t[j] == s[start + j];
  }

  // ---------------------------------------------------------------- parseInt

  /** A digit of the given radix (10 or 16, the two `parseInt` picks without an explicit radix). */
  predicate IsDigit(c: char, radix: nat) {
    if radix == 16 then '0' <= c <= '9' || 'a' <= c <= 'f' || 'A' <= c <= 'F'
    else '0' <= c <= '9'
  }

  function DigitValue(c: char): nat {
    if '0' <= c <= '9' then c as nat - '0' as nat
    else if 'a' <= c <= 'f' then c as nat - 'a' as nat + 10
    else if 'A' <= c <= 'F' then c as nat - 'A' as nat + 10
    else 0
  }

  /** The longest prefix of `s` made of digits of `radix`. */
  function DigitPrefix(s: string, radix: nat): (d: string)
    ensures d <= s
    ensures forall i :: 0 <= i < |d| ==> IsDigit(d[i], radix)
    ensures |d| == |s| || !IsDigit(s[|d|], radix)
  {
    if |s| == 0 || !IsDigit(s[0], radix) then "" else [s[0]] + DigitPrefix(s[1..], radix)
  }

  /** The number a digit string denotes, most significant digit first. */
  function Value(d: string, radix: nat): nat {
    if |d| == 0 then 0 else Value(d[..|d| - 1], radix) * radix + DigitValue(d[|d| - 1])
  }

  /** The digits after the sign: a `0x`/`0X` prefix switches to hexadecimal, then the
      longest run of digits is read; `None` when that run is empty. */
  function ParseUnsigned(u: string): Option<nat> {
    var hex := |u| >= 2 && u[0] == '0' && (u[1] == 'x' || u[1] == 'X');
    var radix := if hex then 16 else 10;
    var d := DigitPrefix(if hex then u[2..] else u, radix);
    if |d| == 0 then None else Some(Value(d, radix))
  }

  /** `parseInt(s)` with no radix: leading whitespace skipped, an optional sign, then
      `ParseUnsigned`; `None` stands for `NaN`. */
  function ParseInt(s: string): (r: Option<int>)
    ensures var t := TrimStart(s);
            t == [] || (t[0] != '-' && t[0] != '+' && !IsDigit(t[0], 10)) ==> r.None?
    ensures r.Some? && r.value < 0 ==> TrimStart(s)[0] == '-'
  {
    var t := TrimStart(s);
    if |t| > 0 && (t[0] == '-' || t[0] == '+') then
      match ParseUnsigned(t[1..])
      case None => None
      case Some(v) => if t[0] == '-' then Some(0 - v) else Some(v)
    else
      match ParseUnsigned(t)
      case None => None
      case Some(v) => Some(v)
  }

  /** The decimal numeral of `n`, as an `<input type="number">` holds it. */
  function Decimal(n: nat): (d: string)
    ensures |d| >= 1 && forall i :: 0 <= i < |d| ==> IsDigit(d[i], 10)
    ensures d[0] == '0' ==> n == 0
  {
    var last := ['0' + (n % 10) as char];
    if n < 10 then last else Decimal(n / 10) + last
  }

  lemma {:induction false} ValueOfDecimal(n: nat)
    ensures Value(Decimal(n), 10) == n
  {
    var d := Decimal(n);
    if n >= 10 {
      ValueOfDecimal(n / 10);
      assert d[..|d| - 1] == Decimal(n / 10);
    }
  }

  lemma {:induction false} DigitPrefixOfDigits(d: string, rest: string, radix: nat)
    requires forall i :: 0 <= i < |d| ==> IsDigit(d[i], radix)
    requires rest == [] || !IsDigit(rest[0], radix)
    ensures DigitPrefix(d + rest, radix) == d
    decreases |d|
  {
    if |d| > 0 {
      DigitPrefixOfDigits(d[1..], rest, radix);
      assert (d + rest)[1..] == d[1..] + rest;
      assert [d[0]] + d[1..] == d;
    }
  }

  lemma ParseUnsignedDecimal(n: nat, rest: string)
    requires rest == [] || rest[0] == '.'
    ensures ParseUnsigned(Decimal(n) + rest) == Some(n)
  {
    var d := Decimal(n);
    var s := d + rest;
    assert !(|s| >= 2 && s[0] == '0' && (s[1] == 'x' || s[1] == 'X')) by {
      if |s| >= 2 && s[0] == '0' {
        assert n == 0 && |d| == 1;
        assert s[1] == rest[0];
      }
    }
    DigitPrefixOfDigits(d, rest, 10);
    ValueOfDecimal(n);
  }

  /** `parseInt` reads back a decimal numeral, and stops at a following `.`:
      `parseInt("12") == 12`, `parseInt("3.5") == 3`. */
  lemma ParseIntDecimal(n: nat, rest: string)
    requires rest == [] || rest[0] == '.'
    ensures ParseInt(Decimal(n) + rest) == Some(n)
  {
    var d := Decimal(n);
    var s := d + rest;
    assert s[0] == d[0];
    assert '0' <= s[0] <= '9';
    assert !IsWhitespace(s[0]) && s[0] != '-' && s[0] != '+';
    assert TrimStart(s) == s;
    ParseUnsignedDecimal(n, rest);
  }

  /** A sign in front is honoured: `parseInt("-n")` is `-n`. */
  lemma ParseIntNegative(n: nat)
    ensures ParseInt("-" + Decimal(n)) == Some(0 - n)
  {
    var d := Decimal(n);
    var s := "-" + d;
    assert TrimStart(s) == s;
    assert s[1..] == d + [];
    ParseUnsignedDecimal(n, []);
  }
}
