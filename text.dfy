/** String operations of Python's `str` that the server relies on: `strip()`,
    `upper()`, `replace(pattern, "")`, `str(int)` and `int(str)`.
    Strings are sequences of Unicode code points, as Python's are. */
module Text {
  import opened Outcomes

  // ---------------------------------------------------------------------------
  // Whitespace and strip()
  // ---------------------------------------------------------------------------

  /** The characters for which Python's `str.isspace()` holds. */
  predicate IsSpace(c: char)
  {
    var n := c as int;
    n == 0x20 || (0x09 <= n <= 0x0d) || (0x1c <= n <= 0x1f) || n == 0x85 || n == 0xa0
    || n == 0x1680 || (0x2000 <= n <= 0x200a) || n == 0x2028 || n == 0x2029
    || n == 0x202f || n == 0x205f || n == 0x3000
  }

  predicate AllSpace(s: string)
  {
    forall i :: 0 <= i < |s| ==> IsSpace(s[i])
  }

  /** Number of leading whitespace characters. */
  function LeadingSpace(s: string): (n: nat)
    ensures n <= |s| && AllSpace(s[..n])
    ensures n < |s| ==> !IsSpace(s[n])
  {
    if s == [] || !IsSpace(s[0]) then 0
    else
      var m := LeadingSpace(s[1..]);
      assert s[1..][..m] == s[1..m + 1];
      1 + m
  }

  /** Number of trailing whitespace characters. */
  function TrailingSpace(s: string): (n: nat)
    ensures n <= |s|
    ensures forall i :: |s| - n <= i < |s| ==> IsSpace(s[i])
    ensures n < |s| ==> !IsSpace(s[|s| - n - 1])
  {
    if s == [] || !IsSpace(s[|s| - 1]) then 0
    else
      var m := TrailingSpace(s[..|s| - 1]);
      1 + m
  }

  /** Python's `s.strip()` with no argument. */
  function Strip(s: string): (r: string)
    ensures r == [] <==> AllSpace(s)
    ensures r != [] ==> !IsSpace(r[0]) && !IsSpace(r[|r| - 1])
    ensures exists i, j :: 0 <= i <= j <= |s| && r == s[i..j] && AllSpace(s[..i]) && AllSpace(s[j..])
  {
    var a := LeadingSpace(s);
    if a == |s| then
      assert s == s[..a];
      assert s[0..0] == [] && s[..0] == [] && s[0..] == s;
      []
    else
      var t := s[a..];
      var b := TrailingSpace(t);
      assert t[0] == s[a];
      assert !AllSpace(s) by { assert !IsSpace(s[a]); }
      var u := s[a + |t| - b..];
      assert AllSpace(u) by {
        forall i | 0 <= i < |u| ensures IsSpace(u[i]) {
          assert u[i] == t[|t| - b + i];
        }
      }
      s[a..a + |t| - b]
  }

  /** Stripping leaves nothing more to strip. */
  lemma StripIdempotent(s: string)
    ensures Strip(Strip(s)) == Strip(s)
  {
    var r := Strip(s);
    StripUnchanged(r);
  }

  /** A string with no whitespace at either end is its own strip. */
  lemma StripUnchanged(s: string)
    requires s == [] || (!IsSpace(s[0]) && !IsSpace(s[|s| - 1]))
    ensures Strip(s) == s
  {
    if s != [] {
      assert LeadingSpace(s) == 0;
      assert TrailingSpace(s) == 0;
      assert !AllSpace(s);
    }
  }

  /** Whitespace around a word is exactly what `strip()` takes away. */
  lemma StripPadded(a: string, k: string, b: string)
    requires AllSpace(a) && AllSpace(b)
    requires k != [] && !IsSpace(k[0]) && !IsSpace(k[|k| - 1])
    ensures Strip(a + k + b) == k
  {
    var s := a + k + b;
    assert s == a + (k + b);
    LeadingPadded(a, k + b);
    var t := s[|a|..];
    assert t == k + b;
    TrailingPadded(k, b);
    assert s[|a|..|a| + |k|] == k;
  }

  lemma {:induction false} LeadingPadded(a: string, t: string)
    requires AllSpace(a) && t != [] && !IsSpace(t[0])
    ensures LeadingSpace(a + t) == |a|
    decreases |a|
  {
    if a != [] {
      assert (a + t)[1..] == a[1..] + t;
      LeadingPadded(a[1..], t);
    } else {
      assert a + t == t;
    }
  }

  lemma {:induction false} TrailingPadded(t: string, b: string)
    requires AllSpace(b) && t != [] && !IsSpace(t[|t| - 1])
    ensures TrailingSpace(t + b) == |b|
    decreases |b|
  {
    if b != [] {
      var s := t + b;
      assert s[..|s| - 1] == t + b[..|b| - 1];
      TrailingPadded(t, b[..|b| - 1]);
    } else {
      assert t + b == t;
    }
  }

  // ---------------------------------------------------------------------------
  // upper()
  // ---------------------------------------------------------------------------

  function UpperChar(c: char): char
  {
    if 'a' <= c <= 'z' then (c as int - 32) as char else c
  }

  /** `str.upper()` restricted to the ASCII letters. */
  function Upper(s: string): (r: string)
    ensures |r| == |s|
    ensures forall i :: 0 <= i < |s| ==> r[i] == UpperChar(s[i])
  {
    if s == [] then [] else [UpperChar(s[0])] + Upper(s[1..])
  }

  lemma {:induction false} UpperConcat(a: string, b: string)
    ensures Upper(a + b) == Upper(a) + Upper(b)
  {
    // both sides agree index by index, by the contract of Upper
    var l, r := Upper(a + b), Upper(a) + Upper(b);
    assert |l| == |r|;
    forall i | 0 <= i < |l| ensures l[i] == r[i] {
      if i < |a| {
        assert (a + b)[i] == a[i];
      } else {
        assert (a + b)[i] == b[i - |a|];
      }
    }
  }

  /** Upper-casing twice is upper-casing once. */
  lemma UpperIdempotent(s: string)
    ensures Upper(Upper(s)) == Upper(s)
  {
    assert forall i :: 0 <= i < |s| ==> Upper(Upper(s))[i] == Upper(s)[i];
  }

  function LowerChar(c: char): char
  {
    if 'A' <= c <= 'Z' then (c as int + 32) as char else c
  }

  /** `str.lower()` restricted to the ASCII letters. */
  function Lower(s: string): (r: string)
    ensures |r| == |s|
    ensures forall i :: 0 <= i < |s| ==> r[i] == LowerChar(s[i])
  {
    if s == [] then [] else [LowerChar(s[0])] + Lower(s[1..])
  }

  // ---------------------------------------------------------------------------
  // startswith / endswith
  // ---------------------------------------------------------------------------

  predicate StartsWith(s: string, prefix: string)
  {
    |prefix| <= |s| && s[..|prefix|] == prefix
  }

  predicate EndsWith(s: string, suffix: string)
  {
    |suffix| <= |s| && s[|s| - |suffix|..] == suffix
  }

  /** Whether `pat` occurs at position `i` of `s`. */
  predicate OccursAt(s: string, pat: string, i: nat)
  {
    i + |pat| <= |s| && s[i..i + |pat|] == pat
  }

  // ---------------------------------------------------------------------------
  // replace(pattern, "")
  // ---------------------------------------------------------------------------

  /** Python's `s.replace(pat, "")` for a non-empty `pat`: scanning from the
      left, every non-overlapping occurrence is removed. */
  function RemoveAll(s: string, pat: string): (r: string)
    requires pat != []
    ensures |r| <= |s|
    decreases |s|
  {
    if |s| < |pat| then s
    else if s[..|pat|] == pat then RemoveAll(s[|pat|..], pat)
    else [s[0]] + RemoveAll(s[1..], pat)
  }

  /** `base` holds no ".agents" of its own. */
  predicate NoAgentsIn(base: string)
  {
    forall i :: 0 <= i <= |base| ==> !OccursAt(base, ".agents", i)
  }

  /** With no ".agents" in it, nothing is removed. */
  lemma {:induction false} NoAgentsRemoved(s: string)
    requires NoAgentsIn(s)
    ensures RemoveAll(s, ".agents") == s
    decreases |s|
  {
    if |s| >= 7 {
      assert !OccursAt(s, ".agents", 0);
      assert s[..7] != ".agents";
      NoAgentsInTail(s);
      NoAgentsRemoved(s[1..]);
      assert s == [s[0]] + s[1..];
    }
  }

  /** Removing ".agents" from `base + ".agents" + tail` keeps `base` whole
      when `base` holds no ".agents" of its own: since '.' occurs in ".agents"
      only at its start, no occurrence can straddle the join. */
  lemma {:induction false} RemoveAgentsAfter(base: string, tail: string)
    requires NoAgentsIn(base)
    ensures RemoveAll(base + ".agents" + tail, ".agents") == base + RemoveAll(tail, ".agents")
    decreases |base|
  {
    var s := base + ".agents" + tail;
    if base == [] {
      assert s[..7] == ".agents";
      assert s[7..] == tail;
    } else {
      NoAgentsAtJoin(base, tail);
      NoAgentsInTail(base);
      var rest := base[1..];
      assert s[1..] == rest + ".agents" + tail;
      RemoveAgentsAfter(rest, tail);
      assert base == [base[0]] + rest;
    }
  }

  /** ".agents" cannot begin at the start of `base + ".agents" + tail`. */
  lemma NoAgentsAtJoin(base: string, tail: string)
    requires NoAgentsIn(base) && base != []
    ensures (base + ".agents" + tail)[..7] != ".agents"
  {
    var s := base + ".agents" + tail;
    if |base| >= 7 {
      assert s[..7] == base[0..7];
      assert !OccursAt(base, ".agents", 0);
    } else {
      assert s[|base|] == '.';
      assert ".agents"[|base|] != '.';
    }
  }

  lemma NoAgentsInTail(base: string)
    requires NoAgentsIn(base) && base != []
    ensures NoAgentsIn(base[1..])
  {
    var rest := base[1..];
    forall i | 0 <= i <= |rest| ensures !OccursAt(rest, ".agents", i) {
      assert !OccursAt(base, ".agents", i + 1);
      if i + 7 <= |rest| {
        assert rest[i..i + 7] == base[i + 1..i + 8];
      }
    }
  }

  // ---------------------------------------------------------------------------
  // str(int) and int(str)
  // ---------------------------------------------------------------------------

  predicate IsDigit(c: char)
  {
    '0' <= c <= '9'
  }

  function DigitChar(d: nat): (c: char)
    requires d < 10
    ensures IsDigit(c) && DigitValue(c) == d
  {
    ('0' as int + d) as char
  }

  function DigitValue(c: char): nat
    requires IsDigit(c)
  {
    c as int - '0' as int
  }

  /** Decimal rendering of a natural number, most significant digit first. */
  function NatToDecimal(n: nat): (r: string)
    ensures r != [] && forall i :: 0 <= i < |r| ==> IsDigit(r[i])
  {
    if n < 10 then [DigitChar(n)] else NatToDecimal(n / 10) + [DigitChar(n % 10)]
  }

  /** Python's `str(i)` for an `int`. */
  function IntToDecimal(i: int): string
  {
    if i < 0 then "-" + NatToDecimal(-i) else NatToDecimal(i)
  }

  /** Value of a string of decimal digits. */
  function DigitsValue(ds: string): nat
    requires forall i :: 0 <= i < |ds| ==> IsDigit(ds[i])
  {
    if ds == [] then 0 else DigitsValue(ds[..|ds| - 1]) * 10 + DigitValue(ds[|ds| - 1])
  }

  /** Digits with single underscores between them, as Python's `int()`
      accepts ("1_000"), but no leading, trailing or doubled underscore. */
  predicate ValidDigitGroup(b: string)
  {
    && b != []
    && IsDigit(b[0]) && IsDigit(b[|b| - 1])
    && (forall i :: 0 <= i < |b| ==> IsDigit(b[i]) || b[i] == '_')
    && (forall i :: 0 <= i < |b| - 1 ==> !(b[i] == '_' && b[i + 1] == '_'))
  }

  /** The digits of `b` with the underscores taken out. */
  function DropUnderscores(b: string): (r: string)
    requires forall i :: 0 <= i < |b| ==> IsDigit(b[i]) || b[i] == '_'
    ensures forall i :: 0 <= i < |r| ==> IsDigit(r[i])
  {
    if b == [] then []
    else (if b[0] == '_' then [] else [b[0]]) + DropUnderscores(b[1..])
  }

  /** Python's `int(s)` in base 10 over ASCII digits: surrounding whitespace
      is ignored, one optional sign, then a digit group. `None` stands for the
      `ValueError` that `int()` raises on anything else. */
  function ParseInt(s: string): (r: Option<int>)
    ensures r.Some? ==>
      var t := Strip(s);
      && t != []
      && (forall i :: 0 <= i < |t| ==> IsDigit(t[i]) || t[i] == '_' || (i == 0 && (t[i] == '-' || t[i] == '+')))
      && (r.value < 0 ==> t[0] == '-')
  {
    var t := Strip(s);
    if t == [] then None
    else
      var neg := t[0] == '-';
      var body := if t[0] == '-' || t[0] == '+' then t[1..] else t;
      if !ValidDigitGroup(body) then None
      else
        var v: int := DigitsValue(DropUnderscores(body));
        Some(if neg then -v else v)
  }

  lemma {:induction false} DecimalValue(n: nat)
    ensures DigitsValue(NatToDecimal(n)) == n
  {
    if n >= 10 {
      var r := NatToDecimal(n);
      assert r[..|r| - 1] == NatToDecimal(n / 10);
      DecimalValue(n / 10);
    }
  }

  lemma {:induction false} DropUnderscoresNone(ds: string)
    requires forall i :: 0 <= i < |ds| ==> IsDigit(ds[i])
    ensures DropUnderscores(ds) == ds
  {
    if ds != [] {
      DropUnderscoresNone(ds[1..]);
    }
  }

  /** A rendered natural number is a valid digit group worth itself. */
  lemma DecimalIsGroup(n: nat)
    ensures ValidDigitGroup(NatToDecimal(n))
    ensures DigitsValue(DropUnderscores(NatToDecimal(n))) == n
  {
    var ds := NatToDecimal(n);
    DropUnderscoresNone(ds);
    DecimalValue(n);
  }

  /** `int(str(i)) == i`: the parser reads back every rendered integer. */
  lemma IntRoundTrip(i: int)
    ensures ParseInt(IntToDecimal(i)) == Some(i)
  {
    var s := IntToDecimal(i);
    var n: nat := if i < 0 then -i else i;
    var ds := NatToDecimal(n);
    DecimalIsGroup(n);
    assert !IsSpace(s[0]) && !IsSpace(s[|s| - 1]);
    StripUnchanged(s);
    if i < 0 {
      assert s[0] == '-' && s[1..] == ds;
    } else {
      assert s == ds && s[0] != '-' && s[0] != '+';
    }
  }

  // ---------------------------------------------------------------------------
  // Universal newlines
  // ---------------------------------------------------------------------------

  /** What `read_text()` does to line endings in text mode: every "\r\n" and
      every lone "\r" is read as "\n". */
  function TranslateNewlines(s: string): (r: string)
    ensures '\r' !in r
    ensures |r| <= |s|
    decreases |s|
  {
    if s == [] then []
    else if s[0] == '\r' then
      if |s| > 1 && s[1] == '\n' then "\n" + TranslateNewlines(s[2..])
      else "\n" + TranslateNewlines(s[1..])
    else [s[0]] + TranslateNewlines(s[1..])
  }

  /** Text without a carriage return reads back exactly as it was written. */
  lemma {:induction false} NoCarriageReturnUnchanged(s: string)
    requires '\r' !in s
    ensures TranslateNewlines(s) == s
    decreases |s|
  {
    if s != [] {
      assert s[0] != '\r' && '\r' !in s[1..];
      NoCarriageReturnUnchanged(s[1..]);
      assert s == [s[0]] + s[1..];
    }
  }

  /** Translation is idempotent: reading back text that was read once
      changes nothing more. */
  lemma TranslateIdempotent(s: string)
    ensures TranslateNewlines(TranslateNewlines(s)) == TranslateNewlines(s)
  {
    NoCarriageReturnUnchanged(TranslateNewlines(s));
  }

  /** A Windows line ending and an old Mac line ending both come back as "\n". */
  lemma CarriageReturnsTranslated()
    ensures TranslateNewlines("a\r\nb") == "a\nb"
    ensures TranslateNewlines("a\rb") == "a\nb"
  {
    assert "a\r\nb"[1..] == "\r\nb" && "\r\nb"[2..] == "b" && "b"[1..] == [];
    assert "a\rb"[1..] == "\rb" && "\rb"[1..] == "b";
  }
}
