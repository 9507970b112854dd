/**
 * String helpers shared by the patcher: separator splitting as Guava's
 * `Splitter` does it, the two notions of trimming the code uses
 * (`String.trim` and Guava's `trimResults`), suffix tests, and the decimal
 * rendering and parsing of `Integer.toString` / `Integer.valueOf`.
 */
module Text {
  import opened Wrappers

  // ---------------------------------------------------------------------------
  // Occurrences, prefixes and suffixes

  predicate EndsWith(s: string, suffix: string) {
    |suffix| <= |s| && s[|s| - |suffix|..] == suffix
  }

  predicate StartsWith(s: string, prefix: string) {
    |prefix| <= |s| && s[..|prefix|] == prefix
  }

  /** `String.indexOf(char)`: the first position of `c`, or None (Java's -1). */
  function IndexOf(s: string, c: char): (r: Option<nat>)
    ensures r.None? <==> c !in s
    ensures r.Some? ==> r.value < |s| && s[r.value] == c && c !in s[..r.value]
  {
    if |s| == 0 then None
    else if s[0] == c then Some(0)
    else match IndexOf(s[1..], c)
      case None => None
      case Some(i) => assert s[..i + 1] == [s[0]] + s[1..][..i]; Some(i + 1)
  }

  /** `sep` occurs in `t` starting at index `j`. */
  predicate OccursAt(t: string, sep: string, j: nat) {
    j + |sep| <= |t| && t[j..j + |sep|] == sep
  }

  /** `sep` occurs nowhere inside `t`. */
  predicate SepFree(t: string, sep: string) {
    forall j: nat :: j <= |t| ==> !OccursAt(t, sep, j)
  }

  lemma {:induction false} SepFreeSlice(t: string, sep: string, lo: nat, hi: nat)
    requires lo <= hi <= |t| && SepFree(t, sep)
    ensures SepFree(t[lo..hi], sep)
  {
    var u := t[lo..hi];
    forall j: nat | j <= |u|
      ensures !OccursAt(u, sep, j)
    {
      if j + |sep| <= |u| {
        assert !OccursAt(t, sep, lo + j);
        SliceOfSlice(t, lo, hi, j, |sep|);
      }
    }
  }

  lemma {:induction false} SliceOfSlice(t: string, lo: nat, hi: nat, j: nat, n: nat)
    requires lo <= hi <= |t| && j + n <= hi - lo
    ensures t[lo..hi][j..j + n] == t[lo + j..lo + j + n]
  {
    var a := t[lo..hi][j..j + n];
    var b := t[lo + j..lo + j + n];
    forall k | 0 <= k < n ensures a[k] == b[k] {
      assert a[k] == t[lo..hi][j + k];
    }
  }

  // ---------------------------------------------------------------------------
  // Splitting on a separator and joining back

  /**
   * Splits `s` on every non-overlapping occurrence of `sep`, scanning left to
   * right; `cur` is the piece collected so far.  An empty input gives one
   * empty piece, as Guava's splitter does before `omitEmptyStrings`.
   */
  function SplitFrom(s: string, sep: string, cur: string): (r: seq<string>)
    requires |sep| > 0
    ensures |r| >= 1
    decreases |s|
  {
    if |s| == 0 then [cur]
    else if sep <= s then [cur] + SplitFrom(s[|sep|..], sep, "")
    else SplitFrom(s[1..], sep, cur + [s[0]])
  }

  function Split(s: string, sep: string): seq<string>
    requires |sep| > 0
  {
    SplitFrom(s, sep, "")
  }

  function Join(parts: seq<string>, sep: string): string {
    if |parts| == 0 then ""
    else if |parts| == 1 then parts[0]
    else parts[0] + sep + Join(parts[1..], sep)
  }

  lemma {:induction false} JoinSplitFrom(s: string, sep: string, cur: string)
    requires |sep| > 0
    ensures Join(SplitFrom(s, sep, cur), sep) == cur + s
    decreases |s|
  {
    if |s| == 0 {
    } else if sep <= s {
      var rest := s[|sep|..];
      JoinSplitFrom(rest, sep, "");
      assert s == sep + rest;
    } else {
      JoinSplitFrom(s[1..], sep, cur + [s[0]]);
      assert cur + [s[0]] + s[1..] == cur + s;
    }
  }

  /** Splitting loses nothing: joining the pieces with the separator gives the input back. */
  lemma {:induction false} JoinSplit(s: string, sep: string)
    requires |sep| > 0
    ensures Join(Split(s, sep), sep) == s
  {
    JoinSplitFrom(s, sep, "");
  }

  /** No piece of collected text can hide an occurrence of the separator. */
  ghost predicate PendingFree(cur: string, s: string, sep: string) {
    forall j: nat :: j < |cur| ==> !SepStartsAfter(cur, s, sep, j)
  }

  ghost predicate SepStartsAfter(cur: string, s: string, sep: string, j: nat)
    requires j <= |cur|
  {
    sep <= cur[j..] + s
  }

  lemma {:induction false} SplitFromPiecesSepFree(s: string, sep: string, cur: string)
    requires |sep| > 0 && PendingFree(cur, s, sep)
    ensures forall k :: 0 <= k < |SplitFrom(s, sep, cur)| ==> SepFree(SplitFrom(s, sep, cur)[k], sep)
    decreases |s|
  {
    var r := SplitFrom(s, sep, cur);
    if |s| == 0 || sep <= s {
      forall j: nat | OccursAt(cur, sep, j)
        ensures j < |cur| && SepStartsAfter(cur, s, sep, j)
      {
        assert (cur[j..] + s)[..|sep|] == cur[j..j + |sep|];
      }
      if sep <= s {
        SplitFromPiecesSepFree(s[|sep|..], sep, "");
        assert r == [cur] + SplitFrom(s[|sep|..], sep, "");
        forall k | 0 <= k < |r| ensures SepFree(r[k], sep) {
          if k > 0 { assert r[k] == SplitFrom(s[|sep|..], sep, "")[k - 1]; }
        }
      }
    } else {
      var cur' := cur + [s[0]];
      forall j: nat | j < |cur'|
        ensures !SepStartsAfter(cur', s[1..], sep, j)
      {
        if j < |cur| {
          assert !SepStartsAfter(cur, s, sep, j);
          assert cur'[j..] + s[1..] == cur[j..] + s;
        } else {
          assert cur'[j..] + s[1..] == s;
        }
      }
      SplitFromPiecesSepFree(s[1..], sep, cur');
    }
  }

  /** Every piece of a split is free of the separator. */
  lemma {:induction false} SplitPiecesSepFree(s: string, sep: string)
    requires |sep| > 0
    ensures forall k :: 0 <= k < |Split(s, sep)| ==> SepFree(Split(s, sep)[k], sep)
  {
    SplitFromPiecesSepFree(s, sep, "");
  }

  lemma {:induction false} SplitFromSepFree(t: string, sep: string, cur: string)
    requires |sep| > 0 && SepFree(t, sep)
    ensures SplitFrom(t, sep, cur) == [cur + t]
    decreases |t|
  {
    if |t| > 0 {
      assert !OccursAt(t, sep, 0);
      assert !(sep <= t);
      SepFreeSlice(t, sep, 1, |t|);
      assert t[1..|t|] == t[1..];
      assert SplitFrom(t, sep, cur) == SplitFrom(t[1..], sep, cur + [t[0]]);
      SplitFromSepFree(t[1..], sep, cur + [t[0]]);
      assert cur + [t[0]] + t[1..] == cur + t;
    } else {
      assert cur + t == cur;
    }
  }

  /** A separator-free string splits into itself alone. */
  lemma {:induction false} SplitSepFree(t: string, sep: string)
    requires |sep| > 0 && SepFree(t, sep)
    ensures Split(t, sep) == [t]
  {
    SplitFromSepFree(t, sep, "");
    assert "" + t == t;
  }

  lemma {:induction false} SplitFromCharJoin(t: string, c: char, u: string, cur: string)
    requires c !in t
    ensures SplitFrom(t + [c] + u, [c], cur) == [cur + t] + SplitFrom(u, [c], "")
    decreases |t|
  {
    if |t| == 0 {
      assert t + [c] + u == [c] + u;
      assert [c] <= [c] + u;
      assert ([c] + u)[1..] == u;
      assert cur + t == cur;
    } else {
      var s := t + [c] + u;
      assert s[0] == t[0] && s[1..] == t[1..] + [c] + u;
      assert !([c] <= s);
      SplitFromCharJoin(t[1..], c, u, cur + [t[0]]);
      assert cur + [t[0]] + t[1..] == cur + t;
    }
  }

  /**
   * With a one-character separator that occurs in none of the parts,
   * splitting the joined text gives the parts back.
   */
  lemma {:induction false} SplitJoinChar(parts: seq<string>, c: char)
    requires |parts| > 0
    requires forall k :: 0 <= k < |parts| ==> c !in parts[k]
    ensures Split(Join(parts, [c]), [c]) == parts
  {
    if |parts| == 1 {
      var t := parts[0];
      forall j: nat | j <= |t| ensures !OccursAt(t, [c], j) {
        if j + 1 <= |t| {
          assert t[j] in t;
          assert t[j..j + 1] == [t[j]];
        }
      }
      SplitSepFree(t, [c]);
    } else {
      SplitJoinChar(parts[1..], c);
      SplitFromCharJoin(parts[0], c, Join(parts[1..], [c]), "");
      assert "" + parts[0] == parts[0];
    }
  }

  // ---------------------------------------------------------------------------
  // Trimming

  /** The characters `String.trim` removes: every code point up to the space. */
  predicate JavaTrimmable(c: char) {
    c as int <= 0x20
  }

  /** The characters of Guava's `CharMatcher.whitespace()`, used by `trimResults`. */
  predicate GuavaWhitespace(c: char) {
    var n := c as int;
    (0x09 <= n <= 0x0D) || n == 0x20 || n == 0x85 || n == 0xA0 || n == 0x1680
    || (0x2000 <= n <= 0x200A) || n == 0x2028 || n == 0x2029 || n == 0x202F
    || n == 0x205F || n == 0x3000
  }

  datatype TrimKind = JavaTrim | GuavaTrim

  predicate Trimmable(kind: TrimKind, c: char) {
    match kind
    case JavaTrim => JavaTrimmable(c)
    case GuavaTrim => GuavaWhitespace(c)
  }

  function TrimStartIndex(kind: TrimKind, s: string, i: nat): (r: nat)
    requires i <= |s|
    ensures i <= r <= |s|
    ensures forall j :: i <= j < r ==> Trimmable(kind, s[j])
    ensures r < |s| ==> !Trimmable(kind, s[r])
    decreases |s| - i
  {
    if i < |s| && Trimmable(kind, s[i]) then TrimStartIndex(kind, s, i + 1) else i
  }

  function TrimEndIndex(kind: TrimKind, s: string, lo: nat, hi: nat): (r: nat)
    requires lo <= hi <= |s|
    ensures lo <= r <= hi
    ensures forall j :: r <= j < hi ==> Trimmable(kind, s[j])
    ensures r > lo ==> !Trimmable(kind, s[r - 1])
    decreases hi
  {
    if hi > lo && Trimmable(kind, s[hi - 1]) then TrimEndIndex(kind, s, lo, hi - 1) else hi
  }

  /**
   * Removes the leading and trailing trimmable characters: the result is a
   * slice of `s` that neither starts nor ends with one, and everything cut
   * away on either side is trimmable.
   */
  function Trim(kind: TrimKind, s: string): (r: string)
    ensures exists lo, hi :: (0 <= lo <= hi <= |s| && r == s[lo..hi]
      && (forall j :: 0 <= j < lo ==> Trimmable(kind, s[j]))
      && (forall j :: hi <= j < |s| ==> Trimmable(kind, s[j])))
    ensures |r| > 0 ==> !Trimmable(kind, r[0]) && !Trimmable(kind, r[|r| - 1])
  {
    var lo := TrimStartIndex(kind, s, 0);
    var hi := TrimEndIndex(kind, s, lo, |s|);
    s[lo..hi]
  }

  /**
   * Guava `Splitter.on(sep).trimResults().omitEmptyStrings().split(s)`:
   * the pieces of `s`, each trimmed, empty ones left out, in order.
   */
  function Tokens(s: string, sep: string): seq<string>
    requires |sep| > 0
  {
    NonEmptyTrimmed(Split(s, sep))
  }

  function NonEmptyTrimmed(pieces: seq<string>): (r: seq<string>)
    ensures |r| <= |pieces|
  {
    if |pieces| == 0 then []
    else
      var t := Trim(GuavaTrim, pieces[0]);
      (if |t| == 0 then [] else [t]) + NonEmptyTrimmed(pieces[1..])
  }

  lemma {:induction false} NonEmptyTrimmedProps(pieces: seq<string>, sep: string)
    requires forall k :: 0 <= k < |pieces| ==> SepFree(pieces[k], sep)
    ensures forall k :: 0 <= k < |NonEmptyTrimmed(pieces)| ==>
      var t := NonEmptyTrimmed(pieces)[k];
      |t| > 0 && SepFree(t, sep) && Trim(GuavaTrim, t) == t
  {
    if |pieces| > 0 {
      var t := Trim(GuavaTrim, pieces[0]);
      var lo, hi :| 0 <= lo <= hi <= |pieces[0]| && t == pieces[0][lo..hi];
      SepFreeSlice(pieces[0], sep, lo, hi);
      if |t| > 0 { TrimFixed(GuavaTrim, t); }
      NonEmptyTrimmedProps(pieces[1..], sep);
      var rest := NonEmptyTrimmed(pieces[1..]);
      var r := NonEmptyTrimmed(pieces);
      assert r == (if |t| == 0 then [] else [t]) + rest;
      forall k | 0 <= k < |r|
        ensures |r[k]| > 0 && SepFree(r[k], sep) && Trim(GuavaTrim, r[k]) == r[k]
      {
        if |t| > 0 && k > 0 { assert r[k] == rest[k - 1]; }
        else if |t| == 0 { assert r[k] == rest[k]; }
      }
    }
  }

  /** Every token is non-empty, already trimmed and free of the separator. */
  lemma {:induction false} TokensProps(s: string, sep: string)
    requires |sep| > 0
    ensures forall k :: 0 <= k < |Tokens(s, sep)| ==>
      var t := Tokens(s, sep)[k];
      |t| > 0 && SepFree(t, sep) && Trim(GuavaTrim, t) == t
  {
    SplitPiecesSepFree(s, sep);
    NonEmptyTrimmedProps(Split(s, sep), sep);
  }

  /** Trimming a string that has nothing to trim at either end changes nothing. */
  lemma {:induction false} TrimFixed(kind: TrimKind, t: string)
    requires |t| == 0 || (!Trimmable(kind, t[0]) && !Trimmable(kind, t[|t| - 1]))
    ensures Trim(kind, t) == t
  {
  }

  /** A trimmed separator-free string has at most one token. */
  lemma {:induction false} TokensOfToken(t: string, sep: string)
    requires |sep| > 0 && SepFree(t, sep)
    ensures |Tokens(t, sep)| <= 1
  {
    SplitSepFree(t, sep);
    assert Split(t, sep) == [t];
    assert NonEmptyTrimmed([t]) == (if |Trim(GuavaTrim, t)| == 0 then [] else [Trim(GuavaTrim, t)]) + NonEmptyTrimmed([]);
  }

  // ---------------------------------------------------------------------------
  // Decimal numbers (`Integer.toString`, `Integer.valueOf`)

  const IntMin: int := -0x8000_0000
  const IntMax: int := 0x7FFF_FFFF

  predicate IsDigit(c: char) {
    '0' <= c <= '9'
  }

  function DigitChar(d: nat): (c: char)
    requires d < 10
    ensures IsDigit(c)
  {
    ('0' as int + d) as char
  }

  function NatToString(n: nat): (r: string)
    ensures |r| > 0 && forall k :: 0 <= k < |r| ==> IsDigit(r[k])
    decreases n
  {
    if n < 10 then [DigitChar(n)] else NatToString(n / 10) + [DigitChar(n % 10)]
  }

  function IntToString(i: int): string {
    if i < 0 then "-" + NatToString(-i) else NatToString(i)
  }

  function DigitValue(c: char): nat
    requires IsDigit(c)
  {
    c as int - '0' as int
  }

  function DigitsValue(s: string): nat
    requires forall k :: 0 <= k < |s| ==> IsDigit(s[k])
  {
    if |s| == 0 then 0 else DigitsValue(s[..|s| - 1]) * 10 + DigitValue(s[|s| - 1])
  }

  /**
   * `Integer.valueOf`: an optional sign followed by at least one decimal
   * digit, within the 32-bit range; anything else is a NumberFormatException
   * (None).  Only ASCII digits are modelled.
   */
  function ParseInt(s: string): (r: Option<int>)
    ensures r.Some? ==> IntMin <= r.value <= IntMax
  {
    if |s| == 0 then None
    else
      var neg := s[0] == '-';
      var body := if s[0] == '-' || s[0] == '+' then s[1..] else s;
      if |body| == 0 || !(forall k :: 0 <= k < |body| ==> IsDigit(body[k])) then None
      else
        var d: int := DigitsValue(body);
        var v := if neg then -d else d;
        if IntMin <= v <= IntMax then Some(v) else None
  }

  lemma {:induction false} DigitsValueOfNat(n: nat)
    ensures DigitsValue(NatToString(n)) == n
    decreases n
  {
    var s := NatToString(n);
    if n >= 10 {
      DigitsValueOfNat(n / 10);
      assert s[..|s| - 1] == NatToString(n / 10);
    }
  }

  /** `Integer.valueOf` reads back what `Integer.toString` wrote. */
  lemma {:induction false} ParseIntToString(i: int)
    requires IntMin <= i <= IntMax
    ensures ParseInt(IntToString(i)) == Some(i)
  {
    var t := NatToString(if i < 0 then -i else i);
    DigitsValueOfNat(if i < 0 then -i else i);
    assert IsDigit(t[0]);
    if i < 0 {
      assert ("-" + t)[1..] == t;
    }
  }

  /** Distinct numbers have distinct decimal renderings. */
  lemma {:induction false} NatToStringInjective(a: nat, b: nat)
    requires NatToString(a) == NatToString(b)
    ensures a == b
  {
    DigitsValueOfNat(a);
    DigitsValueOfNat(b);
  }
}
