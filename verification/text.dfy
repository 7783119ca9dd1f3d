/** The Python string operations the nodes rely on: `str.strip()`,
    `str.lower()` (ASCII letters only), the `in` substring test, `str()` of an
    integer, `int()` of a string and `url.split(':')[-1]`. */
module Text {
  import opened Base

  /** The characters for which Python's `str.isspace()` holds, i.e. the ones
      `str.strip()` with no argument removes. */
  predicate IsSpace(c: char) {
    || c == ' '
    || '\t' <= c <= '\r'
    || '\U{1C}' <= c <= '\U{1F}'
    || c == '\U{85}' || c == '\U{A0}' || c == '\U{1680}'
    || '\U{2000}' <= c <= '\U{200A}'
    || c == '\U{2028}' || c == '\U{2029}' || c == '\U{202F}' || c == '\U{205F}'
    || c == '\U{3000}'
  }

  /** The ASCII information separators U+001C to U+001F: `str.isspace()`
      holds for them, but `int()` does not skip them. */
  predicate IsSeparator(c: char) {
    '\U{1C}' <= c <= '\U{1F}'
  }

  /** Which whitespace a trim removes: `str.strip()` removes every `isspace`
      character. CPython's `int()` first turns each non-ASCII whitespace
      character into a space and then skips only ASCII space, tab, newline,
      vertical tab, form feed and carriage return, so around a number it
      skips every `isspace` character except the information separators. */
  datatype Blanks = StrBlanks | IntBlanks

  predicate IsBlank(w: Blanks, c: char) {
    IsSpace(c) && (w == StrBlanks || !IsSeparator(c))
  }

  predicate AllSpace(s: string) {
    forall k {:trigger IsSpace(s[k])} :: 0 <= k < |s| ==> IsSpace(s[k])
  }

  /** The index of the first non-blank character of `s` at or after `lo`,
      or `|s|` when there is none. */
  function Start(s: string, lo: nat, w: Blanks): (r: nat)
    requires lo <= |s|
    ensures lo <= r <= |s|
    ensures forall k {:trigger IsBlank(w, s[k])} :: lo <= k < r ==> IsBlank(w, s[k])
    ensures r == |s| || !IsBlank(w, s[r])
    decreases |s| - lo
  {
    if lo < |s| && IsBlank(w, s[lo]) then Start(s, lo + 1, w) else lo
  }

  /** The index just past the last non-blank character of `s` before `hi`
      and at or after `lo`, or `lo` when there is none. */
  function End(s: string, lo: nat, hi: nat, w: Blanks): (r: nat)
    requires lo <= hi <= |s|
    ensures lo <= r <= hi
    ensures forall k {:trigger IsBlank(w, s[k])} :: r <= k < hi ==> IsBlank(w, s[k])
    ensures r == lo || !IsBlank(w, s[r - 1])
  {
    if lo < hi && IsBlank(w, s[hi - 1]) then End(s, lo, hi - 1, w) else hi
  }

  /** The slice of `s` left between a blank prefix and a blank suffix; it
      neither starts nor ends with a blank. */
  function Trim(s: string, w: Blanks): (r: string)
    ensures var lo := Start(s, 0, w);
      && lo + |r| <= |s| && r == s[lo..lo + |r|]
      && (forall k {:trigger IsBlank(w, s[k])} :: lo + |r| <= k < |s| ==> IsBlank(w, s[k]))
      && (r == [] || (!IsBlank(w, r[0]) && !IsBlank(w, r[|r| - 1])))
  {
    var lo := Start(s, 0, w);
    s[lo..End(s, lo, |s|, w)]
  }

  /** Python's `s.strip()`: the slice of `s` left between a whitespace prefix
      and a whitespace suffix; it neither starts nor ends with whitespace. */
  function Strip(s: string): (r: string)
    ensures var lo := Start(s, 0, StrBlanks);
      && lo + |r| <= |s| && r == s[lo..lo + |r|]
      && (forall k {:trigger IsSpace(s[k])} :: 0 <= k < lo ==> IsSpace(s[k]))
      && (forall k {:trigger IsSpace(s[k])} :: lo + |r| <= k < |s| ==> IsSpace(s[k]))
      && (r == [] || (!IsSpace(r[0]) && !IsSpace(r[|r| - 1])))
  {
    var r := Trim(s, StrBlanks);
    assert forall k :: 0 <= k < |s| ==> IsBlank(StrBlanks, s[k]) == IsSpace(s[k]);
    r
  }

  lemma StripEmpty()
    ensures Strip("") == ""
  {
  }

  /** Only an all-whitespace string strips to the empty string. */
  lemma StripEmptyIff(s: string)
    ensures Strip(s) == [] <==> AllSpace(s)
  {
    var lo := Start(s, 0, StrBlanks);
    assert lo < |s| ==> !IsSpace(s[lo]);
  }

  function LowerChar(c: char): char {
    if 'A' <= c <= 'Z' then (c as int + 32) as char else c
  }

  /** Python's `s.lower()` restricted to ASCII letters. */
  function Lower(s: string): string {
    seq(|s|, k requires 0 <= k < |s| => LowerChar(s[k]))
  }

  /** `q` occurs in `s` starting at index `i`. */
  predicate OccursAt(q: string, s: string, i: int) {
    0 <= i && i + |q| <= |s| && s[i..i + |q|] == q
  }

  /** Python's `q in s` for strings. */
  predicate IsSubstring(q: string, s: string) {
    |q| <= |s| && (s[..|q|] == q || IsSubstring(q, s[1..]))
  }

  lemma {:induction false} IsSubstringIff(q: string, s: string)
    ensures IsSubstring(q, s) <==> exists i :: OccursAt(q, s, i)
  {
    if |q| <= |s| && s != [] {
      IsSubstringIff(q, s[1..]);
      if IsSubstring(q, s) && s[..|q|] != q {
        var i :| OccursAt(q, s[1..], i);
        assert s[1..][i..i + |q|] == s[i + 1..i + 1 + |q|];
        assert OccursAt(q, s, i + 1);
      }
      if s[..|q|] == q {
        assert OccursAt(q, s, 0);
      }
      if exists i :: OccursAt(q, s, i) {
        var i :| OccursAt(q, s, i);
        if i > 0 {
          assert s[1..][i - 1..i - 1 + |q|] == s[i..i + |q|];
          assert OccursAt(q, s[1..], i - 1);
          assert IsSubstring(q, s[1..]);
        } else {
          assert s[..|q|] == s[0..|q|];
        }
        assert IsSubstring(q, s);
      }
    } else if |q| <= |s| {
      assert OccursAt(q, s, 0);
    }
  }

  predicate IsDigit(c: char) {
    '0' <= c <= '9'
  }

  function DigitChar(d: nat): char
    requires d < 10
  {
    ('0' as int + d) as char
  }

  function DigitValue(c: char): nat
    requires IsDigit(c)
  {
    c as int - '0' as int
  }

  /** Python's `str(n)` for a natural number: decimal digits, no leading zero. */
  function NatToString(n: nat): (r: string)
    ensures |r| > 0 && (forall k :: 0 <= k < |r| ==> IsDigit(r[k]))
    ensures |r| > 1 ==> r[0] != '0'
  {
    if n < 10 then [DigitChar(n)] else NatToString(n / 10) + [DigitChar(n % 10)]
  }

  /** Python's `str(i)` for an integer. */
  function IntToString(i: int): string {
    if i < 0 then "-" + NatToString(-i) else NatToString(i)
  }

  /** The digit string accepted by Python's `int()` (base 10) after the sign:
      ASCII digits, where an underscore may only stand between two digits. */
  predicate WellFormedDigits(d: string) {
    && |d| > 0
    && IsDigit(d[0])
    && IsDigit(d[|d| - 1])
    && forall k :: 0 <= k < |d| ==> IsDigit(d[k]) || (d[k] == '_' && k + 1 < |d| && IsDigit(d[k + 1]))
  }

  /** The decimal value of the digits of `d`, underscores (and anything else
      that is not a digit) skipped. */
  function DigitsValue(d: string): nat {
    if d == [] then 0
    else if IsDigit(d[|d| - 1]) then 10 * DigitsValue(d[..|d| - 1]) + DigitValue(d[|d| - 1])
    else DigitsValue(d[..|d| - 1])
  }

  /** Python's `int(s)` on a string: the whitespace `int()` skips is ignored
      around the number, and an optional `+` or `-` sign is followed by
      well-formed digits; anything else raises `ValueError`, modelled as
      `None`. The interpreter's limit on the number of digits is not
      modelled: every length is accepted. */
  function ParseInt(s: string): Option<int> {
    var t := Trim(s, IntBlanks);
    if |t| > 0 && (t[0] == '+' || t[0] == '-') then
      if WellFormedDigits(t[1..]) then
        var v: int := DigitsValue(t[1..]);
        Some(if t[0] == '-' then -v else v)
      else None
    else if WellFormedDigits(t) then Some(DigitsValue(t))
    else None
  }

  lemma {:induction false} NatToStringValue(n: nat)
    ensures WellFormedDigits(NatToString(n))
    ensures DigitsValue(NatToString(n)) == n
  {
    var r := NatToString(n);
    if n >= 10 {
      NatToStringValue(n / 10);
      assert r[..|r| - 1] == NatToString(n / 10);
    }
  }

  /** `int(str(i)) == i`: the decimal rendering of an integer parses back to it. */
  lemma IntToStringRoundTrip(i: int)
    ensures ParseInt(IntToString(i)) == Some(i)
  {
    var n: nat := if i < 0 then -i else i;
    NatToStringValue(n);
    if i < 0 {
      ParseNegative(NatToString(n));
    } else {
      ParseUnsigned(NatToString(n));
    }
  }

  lemma ParseUnsigned(d: string)
    requires WellFormedDigits(d)
    ensures ParseInt(d) == Some(DigitsValue(d))
  {
    TrimNoOp(d, IntBlanks);
  }

  lemma ParseNegative(d: string)
    requires WellFormedDigits(d)
    ensures ParseInt("-" + d) == Some(-(DigitsValue(d) as int))
  {
    var s := "-" + d;
    assert s[|s| - 1] == d[|d| - 1];
    TrimNoOp(s, IntBlanks);
    assert s[1..] == d;
  }

  /** A text that neither starts nor ends with a blank is its own trim. */
  lemma TrimNoOp(s: string, w: Blanks)
    requires s != [] && !IsBlank(w, s[0]) && !IsBlank(w, s[|s| - 1])
    ensures Trim(s, w) == s
  {
    assert Start(s, 0, w) == 0;
    assert End(s, 0, |s|, w) == |s|;
  }

  /** `Start` is the only index with a blank run before it and no blank at it. */
  lemma {:induction false} StartAt(s: string, lo: nat, x: nat, w: Blanks)
    requires lo <= x <= |s|
    requires forall k :: lo <= k < x ==> IsBlank(w, s[k])
    requires x == |s| || !IsBlank(w, s[x])
    ensures Start(s, lo, w) == x
    decreases x - lo
  {
    if lo < x {
      StartAt(s, lo + 1, x, w);
    }
  }

  /** `End` is the only index with no blank just before it and a blank run
      after it. */
  lemma {:induction false} EndAt(s: string, lo: nat, hi: nat, x: nat, w: Blanks)
    requires lo <= x <= hi <= |s|
    requires forall k :: x <= k < hi ==> IsBlank(w, s[k])
    requires x == lo || !IsBlank(w, s[x - 1])
    ensures End(s, lo, hi, w) == x
    decreases hi - x
  {
    if x < hi {
      EndAt(s, lo, hi - 1, x, w);
    }
  }

  /** When `int()` accepts a text it accepts the stripped text too, with the
      same value; and on a text with no information separator, stripping
      first never changes what `int()` gives. */
  lemma ParseIntIgnoresStrip(s: string)
    ensures ParseInt(s).Some? ==> ParseInt(Strip(s)) == ParseInt(s)
    ensures (forall k :: 0 <= k < |s| ==> !IsSeparator(s[k])) ==> ParseInt(Strip(s)) == ParseInt(s)
  {
    var t := Trim(s, IntBlanks);
    var lo := Start(s, 0, IntBlanks);
    ParsedEnds(s);
    if t != [] {
      assert t[0] == s[lo] && t[|t| - 1] == s[lo + |t| - 1];
      if !IsSeparator(t[0]) && !IsSeparator(t[|t| - 1]) {
        StripMatchesIntTrim(s);
        TrimNoOp(t, IntBlanks);
        SameTrimSameInt(Strip(s), s);
      }
    } else if forall k :: 0 <= k < |s| ==> !IsSeparator(s[k]) {
      forall k | 0 <= k < |s| ensures IsBlank(StrBlanks, s[k]) {
        assert IsBlank(IntBlanks, s[k]);
      }
      StartAt(s, 0, |s|, StrBlanks);
      StripEmpty();
    }
  }

  lemma SameTrimSameInt(a: string, b: string)
    requires Trim(a, IntBlanks) == Trim(b, IntBlanks)
    ensures ParseInt(a) == ParseInt(b)
  {
  }

  /** A number `int()` accepts starts with a sign or a digit and ends with a
      digit. */
  lemma ParsedEnds(s: string)
    ensures ParseInt(s).Some? ==> var t := Trim(s, IntBlanks);
      t != [] && (t[0] == '+' || t[0] == '-' || IsDigit(t[0])) && IsDigit(t[|t| - 1])
  {
    var t := Trim(s, IntBlanks);
    if |t| > 0 && (t[0] == '+' || t[0] == '-') && WellFormedDigits(t[1..]) {
      assert t[|t| - 1] == t[1..][|t[1..]| - 1];
    }
  }

  /** A text whose `int()` trim neither starts nor ends with an `isspace`
      character is also what `strip()` leaves of it. */
  lemma StripMatchesIntTrim(s: string)
    requires var t := Trim(s, IntBlanks); t != [] && !IsSpace(t[0]) && !IsSpace(t[|t| - 1])
    ensures Strip(s) == Trim(s, IntBlanks)
  {
    var t := Trim(s, IntBlanks);
    var lo := Start(s, 0, IntBlanks);
    var hi := lo + |t|;
    assert t[0] == s[lo] && t[|t| - 1] == s[hi - 1];
    forall k | 0 <= k < lo ensures IsBlank(StrBlanks, s[k]) {
      assert IsBlank(IntBlanks, s[k]);
    }
    forall k | hi <= k < |s| ensures IsBlank(StrBlanks, s[k]) {
      assert IsBlank(IntBlanks, s[k]);
    }
    StartAt(s, 0, lo, StrBlanks);
    EndAt(s, lo, |s|, hi, StrBlanks);
  }

  /** An information separator shows where the two differ: `int()` rejects
      "\x1c30" while it accepts the stripped "30". */
  lemma IntRejectsSeparators()
    ensures ParseInt("\U{1C}30") == None
    ensures ParseInt(Strip("\U{1C}30")) == Some(30)
  {
    SeparatorLedRejected();
    SeparatorLedStrip();
    ParseThirty();
  }

  lemma SeparatorLedRejected()
    ensures ParseInt("\U{1C}30") == None
  {
    var s := "\U{1C}30";
    TrimNoOp(s, IntBlanks);
    assert !IsDigit(s[0]);
  }

  lemma SeparatorLedStrip()
    ensures Strip("\U{1C}30") == "30"
  {
    var s := "\U{1C}30";
    StartAt(s, 0, 1, StrBlanks);
    EndAt(s, 1, 3, 3, StrBlanks);
    assert s[1..3] == "30";
  }

  lemma ParseThirty()
    ensures ParseInt("30") == Some(30)
  {
    ParseUnsigned("30");
    assert "30"[..1] == "3";
  }

  /** Stripping twice is stripping once. */
  lemma StripTwice(s: string)
    ensures Strip(Strip(s)) == Strip(s)
  {
    var t := Strip(s);
    if t != [] {
      TrimNoOp(t, StrBlanks);
    } else {
      StripEmpty();
    }
  }

  /** Distinct naturals have distinct decimal renderings. */
  lemma NatToStringInjective(m: nat, n: nat)
    requires NatToString(m) == NatToString(n)
    ensures m == n
  {
    NatToStringValue(m);
    NatToStringValue(n);
  }

  /** The text after the last `:` of `url`, or all of `url` when it has no
      `:` -- Python's `url.split(':')[-1]`. */
  function AfterLastColon(url: string): string {
    if url == [] then ""
    else if url[|url| - 1] == ':' then ""
    else AfterLastColon(url[..|url| - 1]) + [url[|url| - 1]]
  }

  /** The result is the longest colon-free suffix of `url`: it ends `url`,
      holds no `:`, and is either all of `url` or preceded by a `:`. */
  lemma {:induction false} AfterLastColonSpec(url: string)
    ensures var r := AfterLastColon(url);
      && |r| <= |url| && r == url[|url| - |r|..]
      && ':' !in r
      && (|r| == |url| || url[|url| - |r| - 1] == ':')
  {
    if url != [] && url[|url| - 1] != ':' {
      var init, c := url[..|url| - 1], url[|url| - 1];
      AfterLastColonSpec(init);
      var r0 := AfterLastColon(init);
      var r := r0 + [c];
      assert AfterLastColon(url) == r;
      assert url[|url| - |r|..] == init[|init| - |r0|..] + [c];
      assert forall k :: 0 <= k < |r0| ==> r[k] == r0[k];
      assert |r0| < |init| ==> url[|url| - |r| - 1] == init[|init| - |r0| - 1];
    }
  }
}
