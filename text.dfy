/**
 * Text primitives of the Python standard library and pandas that the scraper relies on,
 * restricted to ASCII: decimal digits, `str.replace`, `str.title`, and the reading of
 * decimal numbers done by `pd.to_numeric` and `astype(np.float64)`.
 */
module Text {
  import opened Wrappers

  // ---------------------------------------------------------------- characters

  predicate IsDigit(c: char) { '0' <= c <= '9' }

  predicate AllDigits(s: string) { forall i :: 0 <= i < |s| ==> IsDigit(s[i]) }

  /**
   * Python's `\s` on a str pattern, which is `str.isspace`: tab through carriage return, the
   * four separators 0x1C-0x1F, space, and the Unicode whitespace characters.
   */
  predicate IsSpace(c: char) {
    '\t' <= c <= '\r' || '\U{1C}' <= c <= ' ' || c == '\U{85}' || c == '\U{A0}' || c == '\U{1680}'
    || '\U{2000}' <= c <= '\U{200A}' || c == '\U{2028}' || c == '\U{2029}' || c == '\U{202F}' || c == '\U{205F}'
    || c == '\U{3000}'
  }

  predicate IsUpper(c: char) { 'A' <= c <= 'Z' }

  predicate IsLower(c: char) { 'a' <= c <= 'z' }

  /** A character that has a case; `str.title` starts a new word after any other character. */
  predicate IsCased(c: char) { IsUpper(c) || IsLower(c) }

  function ToUpper(c: char): (u: char)
    ensures IsCased(u) == IsCased(c) && !IsLower(u)
  {
    if IsLower(c) then (c as int - 32) as char else c
  }

  function ToLower(c: char): (l: char)
    ensures IsCased(l) == IsCased(c) && !IsUpper(l)
  {
    if IsUpper(c) then (c as int + 32) as char else c
  }

  // ---------------------------------------------------------------- digits

  function DigitValue(c: char): (n: nat)
    requires IsDigit(c)
    ensures n < 10
  {
    c as int - '0' as int
  }

  function DigitChar(n: nat): (c: char)
    requires n < 10
    ensures IsDigit(c) && DigitValue(c) == n
  {
    ('0' as int + n) as char
  }

  function Pow10(k: nat): (p: nat)
    ensures p >= 1
  {
    if k == 0 then 1 else 10 * Pow10(k - 1)
  }

  /** The value `int()` gives a string of decimal digits (the empty string reads as 0 here). */
  function DigitsValue(s: string): nat
    requires AllDigits(s)
  {
    if s == [] then 0 else DigitsValue(s[..|s| - 1]) * 10 + DigitValue(s[|s| - 1])
  }

  lemma {:induction false} DigitsValueAppend(a: string, b: string)
    requires AllDigits(a) && AllDigits(b)
    ensures AllDigits(a + b)
    ensures DigitsValue(a + b) == DigitsValue(a) * Pow10(|b|) + DigitsValue(b)
  {
    if b == [] {
      assert a + b == a;
    } else {
      var ab := a + b;
      var front := b[..|b| - 1];
      var d := DigitValue(b[|b| - 1]);
      assert ab[..|ab| - 1] == a + front;
      assert ab[|ab| - 1] == b[|b| - 1];
      DigitsValueAppend(a, front);
      ShiftDigit(DigitsValue(ab), DigitsValue(a + front), DigitsValue(a), Pow10(|front|), DigitsValue(front), d,
                 DigitsValue(b), Pow10(|b|));
    }
  }

  /** Appending a digit to both `a + front` and `front` shifts the split by one place. */
  lemma ShiftDigit(whole: int, prefix: int, x: int, p: int, y: int, d: int, tail: int, q: int)
    requires whole == prefix * 10 + d && prefix == x * p + y
    requires tail == y * 10 + d && q == p * 10
    ensures whole == x * q + tail
  {
  }

  /** `n` written with exactly `width` digits, zero-padded on the left: Python's `%0<width>d`. */
  function Padded(n: nat, width: nat): (s: string)
    ensures |s| == width && AllDigits(s)
  {
    if width == 0 then [] else Padded(n / 10, width - 1) + [DigitChar(n % 10)]
  }

  lemma {:induction false} PaddedRoundTrip(n: nat, width: nat)
    requires n < Pow10(width)
    ensures DigitsValue(Padded(n, width)) == n
  {
    if width > 0 {
      var q, c := n / 10, DigitChar(n % 10);
      var front := Padded(q, width - 1);
      assert Padded(n, width) == front + [c] && n == q * 10 + DigitValue(c) by {
        PaddedStep(n, width);
      }
      assert DigitsValue(front) == q by {
        PaddedStep(n, width);
        PaddedRoundTrip(q, width - 1);
      }
      DigitsValueSnoc(front, c);
    }
  }

  lemma PaddedStep(n: nat, width: nat)
    requires 0 < width && n < Pow10(width)
    ensures n / 10 < Pow10(width - 1) && n == n / 10 * 10 + DigitValue(DigitChar(n % 10))
    ensures Padded(n, width) == Padded(n / 10, width - 1) + [DigitChar(n % 10)]
  {
    assert Pow10(width) == 10 * Pow10(width - 1);
  }

  lemma DigitsValueSnoc(s: string, c: char)
    requires AllDigits(s) && IsDigit(c)
    ensures AllDigits(s + [c]) && DigitsValue(s + [c]) == DigitsValue(s) * 10 + DigitValue(c)
  {
    var t := s + [c];
    assert t[..|t| - 1] == s && t[|t| - 1] == c;
  }

  /** `str(n)` for a natural number: no leading zeros. */
  function Decimal(n: nat): (s: string)
    ensures |s| >= 1 && AllDigits(s)
  {
    if n < 10 then [DigitChar(n)] else Decimal(n / 10) + [DigitChar(n % 10)]
  }

  lemma {:induction false} DecimalRoundTrip(n: nat)
    ensures DigitsValue(Decimal(n)) == n
  {
    var s := Decimal(n);
    if n >= 10 {
      assert s[..|s| - 1] == Decimal(n / 10);
      DecimalRoundTrip(n / 10);
    } else {
      assert s[..|s| - 1] == [];
    }
  }

  /** `n` written with a "," between groups of three digits, as the exchange prints volumes. */
  function Grouped(n: nat): (s: string)
    ensures |s| >= 1
  {
    if n < 1000 then Decimal(n) else Grouped(n / 1000) + "," + Padded(n % 1000, 3)
  }

  // ---------------------------------------------------------------- str.replace

  /** `s.replace(c, "")`: every occurrence of `c` deleted, the rest kept in order. */
  function RemoveChar(s: string, c: char): (r: string)
    ensures |r| <= |s|
    ensures forall x :: x in r <==> x in s && x != c
  {
    if s == [] then [] else (if s[0] == c then [] else [s[0]]) + RemoveChar(s[1..], c)
  }

  lemma {:induction false} RemoveCharAppend(a: string, b: string, c: char)
    ensures RemoveChar(a + b, c) == RemoveChar(a, c) + RemoveChar(b, c)
  {
    if a != [] {
      assert (a + b)[1..] == a[1..] + b;
      RemoveCharAppend(a[1..], b, c);
    } else {
      assert a + b == b;
    }
  }

  /** Deleting a character that does not occur changes nothing. */
  lemma {:induction false} RemoveCharAbsent(s: string, c: char)
    requires c !in s
    ensures RemoveChar(s, c) == s
  {
    if s != [] {
      assert s[1..] == s[1..];
      assert c !in s[1..] by { assert forall x :: x in s[1..] ==> x in s; }
      RemoveCharAbsent(s[1..], c);
      assert [s[0]] + s[1..] == s;
    }
  }

  /** `s.replace(a, b)` for single characters. */
  function ReplaceChar(s: string, a: char, b: char): (r: string)
    ensures |r| == |s|
    ensures forall i :: 0 <= i < |s| ==> r[i] == (if s[i] == a then b else s[i])
  {
    if s == [] then [] else [if s[0] == a then b else s[0]] + ReplaceChar(s[1..], a, b)
  }

  // ---------------------------------------------------------------- str.title

  function TitleFrom(s: string, afterCased: bool): (r: string)
    ensures |r| == |s|
  {
    if s == [] then []
    else [if afterCased then ToLower(s[0]) else ToUpper(s[0])] + TitleFrom(s[1..], IsCased(s[0]))
  }

  /**
   * `str.title`: a cased character is upper-cased when it starts a word (it does not follow
   * a cased character) and lower-cased otherwise; other characters are kept.
   */
  function Title(s: string): (r: string)
    ensures |r| == |s|
  {
    TitleFrom(s, false)
  }

  lemma {:induction false} TitleFromAt(s: string, afterCased: bool, i: nat)
    requires i < |s|
    ensures TitleFrom(s, afterCased)[i] ==
      if (if i == 0 then afterCased else IsCased(s[i - 1])) then ToLower(s[i]) else ToUpper(s[i])
  {
    if i > 0 {
      TitleFromAt(s[1..], IsCased(s[0]), i - 1);
    }
  }

  /** What `str.title` does to each position, stated without the recursion. */
  lemma TitleAt(s: string, i: nat)
    requires i < |s|
    ensures Title(s)[i] == if i > 0 && IsCased(s[i - 1]) then ToLower(s[i]) else ToUpper(s[i])
  {
    TitleFromAt(s, false, i);
  }

  lemma {:induction false} TitleFromIdempotent(s: string, afterCased: bool)
    ensures TitleFrom(TitleFrom(s, afterCased), afterCased) == TitleFrom(s, afterCased)
  {
    if s != [] {
      var t := TitleFrom(s, afterCased);
      assert t[1..] == TitleFrom(s[1..], IsCased(s[0]));
      TitleFromIdempotent(s[1..], IsCased(s[0]));
    }
  }

  /** Title-casing a title-cased name changes nothing. */
  lemma TitleIdempotent(s: string)
    ensures Title(Title(s)) == Title(s)
  {
    TitleFromIdempotent(s, false);
  }

  /** A capitalised word (an upper-case letter, then lower-case letters) is its own title. */
  lemma CapitalizedIsTitle(s: string)
    requires |s| > 0 && IsUpper(s[0]) && forall i :: 1 <= i < |s| ==> IsLower(s[i])
    ensures Title(s) == s
  {
    forall i | 0 <= i < |s| ensures Title(s)[i] == s[i] {
      TitleAt(s, i);
    }
  }

  // ---------------------------------------------------------------- numbers

  /** Index of the first `c` in `s`, or `|s|` when there is none. */
  function FirstIndex(s: string, c: char): (k: nat)
    ensures k <= |s| && c !in s[..k]
    ensures k < |s| ==> s[k] == c
  {
    if s == [] then 0 else if s[0] == c then 0 else 1 + FirstIndex(s[1..], c)
  }

  /** The number written `whole.frac`, when both parts are digits and not both empty. */
  function FromParts(whole: string, frac: string): (r: Option<real>)
    ensures r.Some? ==> r.value >= 0.0
  {
    if |whole| + |frac| == 0 || !AllDigits(whole) || !AllDigits(frac) then None
    else Some(DigitsValue(whole) as real + DigitsValue(frac) as real / Pow10(|frac|) as real)
  }

  /** Digits with an optional fraction after the first ".", at least one digit in all. */
  function ParseUnsigned(body: string): (r: Option<real>)
    ensures r.Some? ==> r.value >= 0.0
  {
    var dot := FirstIndex(body, '.');
    if dot < |body| then FromParts(body[..dot], body[dot + 1..]) else FromParts(body, "")
  }

  /**
   * A decimal number as `pd.to_numeric` and `float()` read it: an optional sign, digits,
   * and an optional fraction after a ".", with at least one digit in all. None when the
   * text is not such a number (pandas then yields NaN under errors="coerce").
   */
  function ParseNumber(s: string): (r: Option<real>)
  {
    if |s| > 0 && (s[0] == '-' || s[0] == '+') then
      match ParseUnsigned(s[1..])
      case None => None
      case Some(m) => Some(if s[0] == '-' then -m else m)
    else ParseUnsigned(s)
  }

  /** Text still holding a thousands separator is never a number: it has to be stripped first. */
  lemma SeparatorBlocksParse(s: string)
    requires ',' in s
    ensures ParseNumber(s) == None
  {
    var signed := |s| > 0 && (s[0] == '-' || s[0] == '+');
    var body := if signed then s[1..] else s;
    assert ParseNumber(s) == None <== ParseUnsigned(body) == None;
    assert ',' in body by {
      var k :| 0 <= k < |s| && s[k] == ',';
      if signed { assert body[k - 1] == ','; }
    }
    var dot := FirstIndex(body, '.');
    var k :| 0 <= k < |body| && body[k] == ',';
    if k < dot {
      assert body[..dot][k] == ',';
    } else {
      assert body[dot + 1..][k - dot - 1] == ',';
    }
  }

  /** Stripping the separators of `head + "," + tail` where `tail` is all digits. */
  lemma StripJoin(head: string, tail: string)
    requires AllDigits(tail)
    ensures RemoveChar(head + "," + tail, ',') == RemoveChar(head, ',') + tail
  {
    var rest := [','] + tail;
    assert head + "," + tail == head + rest;
    RemoveCharAppend(head, rest, ',');
    RemoveLeading(',', tail);
    DigitsHaveNoSigns(tail);
    RemoveCharAbsent(tail, ',');
  }

  lemma RemoveLeading(c: char, s: string)
    ensures RemoveChar([c] + s, c) == RemoveChar(s, c)
  {
    assert ([c] + s)[0] == c && ([c] + s)[1..] == s;
  }

  lemma DigitsHaveNoSigns(s: string)
    requires AllDigits(s)
    ensures ',' !in s && '.' !in s && '-' !in s && '+' !in s
  {
    forall i | 0 <= i < |s| ensures s[i] != ',' && s[i] != '.' && s[i] != '-' && s[i] != '+' {
      assert IsDigit(s[i]);
    }
  }

  /** A grouped number with its separators stripped is the plain number ("1,000" gives 1000). */
  lemma {:induction false} GroupedStripped(n: nat)
    ensures AllDigits(RemoveChar(Grouped(n), ','))
    ensures |RemoveChar(Grouped(n), ',')| >= 1
    ensures DigitsValue(RemoveChar(Grouped(n), ',')) == n
  {
    if n < 1000 {
      DigitsHaveNoSigns(Decimal(n));
      RemoveCharAbsent(Decimal(n), ',');
      DecimalRoundTrip(n);
    } else {
      var head := Grouped(n / 1000);
      var tail := Padded(n % 1000, 3);
      assert Grouped(n) == head + "," + tail;
      GroupedStripped(n / 1000);
      StripJoin(head, tail);
      DigitsValueAppend(RemoveChar(head, ','), tail);
      PaddedRoundTrip(n % 1000, 3);
      assert Pow10(3) == 1000;
    }
  }

  /** Every digit string reads back as its value. */
  lemma DigitsParse(s: string)
    requires AllDigits(s) && |s| >= 1
    ensures ParseNumber(s) == Some(DigitsValue(s) as real)
  {
    DigitsHaveNoSigns(s);
    assert s[0] != '-' && s[0] != '+' by { assert s[0] in s; }
    UnsignedDigits(s);
  }

  lemma UnsignedDigits(s: string)
    requires AllDigits(s) && |s| >= 1 && '.' !in s
    ensures ParseUnsigned(s) == Some(DigitsValue(s) as real)
  {
    FirstIndexAbsent(s, '.');
    assert ParseUnsigned(s) == FromParts(s, "");
    assert AllDigits("") && DigitsValue("") == 0 && Pow10(0) == 1;
  }

  lemma {:induction false} FirstIndexAbsent(s: string, c: char)
    requires c !in s
    ensures FirstIndex(s, c) == |s|
  {
    if s != [] {
      assert s[0] in s;
      assert forall x :: x in s[1..] ==> x in s;
      FirstIndexAbsent(s[1..], c);
    }
  }

  /** Every natural number, written plainly, reads back as itself. */
  lemma DecimalParses(n: nat)
    ensures ParseNumber(Decimal(n)) == Some(n as real)
  {
    DigitsParse(Decimal(n));
    DecimalRoundTrip(n);
  }

  lemma GroupedParses(n: nat)
    ensures ParseNumber(RemoveChar(Grouped(n), ',')) == Some(n as real)
  {
    GroupedStripped(n);
    DigitsParse(RemoveChar(Grouped(n), ','));
  }
}
