/**
 * The value parser of internal/mqttclient/client.go (parseValue): the first
 * match of the regular expression `-?\d{1,}[.]\d{1,}|\d{1,}` in a payload,
 * read as an exact decimal, or zero when nothing matches.
 */
module Numerals {
  import opened Wrappers

  predicate IsDigit(c: char)
  {
    '0' <= c <= '9'
  }

  /** `t` is in the language of `\d{1,}`. */
  predicate AllDigits(t: string)
  {
    |t| > 0 && forall i :: 0 <= i < |t| ==> IsDigit(t[i])
  }

  /** `t` is in the language of `\d{1,}[.]\d{1,}`. */
  ghost predicate IsUnsignedDecimal(t: string)
  {
    exists p :: 0 < p < |t| && t[p] == '.' && AllDigits(t[..p]) && AllDigits(t[p + 1..])
  }

  /** `t` is in the language of `-?\d{1,}[.]\d{1,}|\d{1,}`. */
  ghost predicate InPattern(t: string)
  {
    || AllDigits(t)
    || IsUnsignedDecimal(t)
    || (|t| > 0 && t[0] == '-' && IsUnsignedDecimal(t[1..]))
  }

  /** Length of the greedy `\d{1,}` run starting at `i` (0 when `s[i]` is not a digit). */
  function DigitRun(s: string, i: nat): (n: nat)
    requires i <= |s|
    decreases |s| - i
    ensures i + n <= |s|
    ensures forall j :: i <= j < i + n ==> IsDigit(s[j])
    ensures i + n == |s| || !IsDigit(s[i + n])
  {
    if i < |s| && IsDigit(s[i]) then 1 + DigitRun(s, i + 1) else 0
  }

  /** Length of the greedy match of `\d{1,}[.]\d{1,}` at `i`, or 0 when it fails there. */
  function DecimalAt(s: string, i: nat): (n: nat)
    requires i <= |s|
    ensures i + n <= |s|
  {
    var w := DigitRun(s, i);
    if w > 0 && i + w < |s| && s[i + w] == '.' then
      var f := DigitRun(s, i + w + 1);
      if f > 0 then w + 1 + f else 0
    else 0
  }

  /**
   * Length of the match the regular expression makes when started at `i`, or 0:
   * the first alternative with its optional `-` taken, then without it, then the
   * second alternative, each with greedy repetition.
   */
  function MatchAt(s: string, i: nat): (n: nat)
    requires i < |s|
    ensures i + n <= |s|
  {
    var signed := if s[i] == '-' then DecimalAt(s, i + 1) else 0;
    if signed > 0 then 1 + signed
    else if DecimalAt(s, i) > 0 then DecimalAt(s, i)
    else DigitRun(s, i)
  }

  /** A match: the half-open index range `[start, end)` of the payload. */
  datatype Span = Span(start: nat, end: nat)

  /** The leftmost match starting at or after `i`. */
  function FindFrom(s: string, i: nat): (r: Option<Span>)
    requires i <= |s|
    decreases |s| - i
    ensures r.Some? ==> i <= r.value.start < r.value.end <= |s|
  {
    if i == |s| then None
    else if MatchAt(s, i) > 0 then Some(Span(i, i + MatchAt(s, i)))
    else FindFrom(s, i + 1)
  }

  /** FindAllString(payload, 1): the first match only. */
  function FirstMatch(payload: string): (r: Option<Span>)
    ensures r.Some? ==> r.value.start < r.value.end <= |payload|
  {
    FindFrom(payload, 0)
  }

  /** An exact decimal number: mantissa / 10^scale. */
  datatype Decimal = Decimal(mantissa: int, scale: nat)

  const Zero := Decimal(0, 0)

  function Pow10(n: nat): (p: nat)
    ensures p >= 1
  {
    if n == 0 then 1 else 10 * Pow10(n - 1)
  }

  ghost function AsReal(d: Decimal): real
  {
    d.mantissa as real / Pow10(d.scale) as real
  }

  function DigitValue(c: char): nat
  {
    if IsDigit(c) then c as int - '0' as int else 0
  }

  /** The number a run of decimal digits spells. */
  function DigitsValue(d: string): nat
  {
    if d == [] then 0 else 10 * DigitsValue(d[..|d| - 1]) + DigitValue(d[|d| - 1])
  }

  /**
   * The exact value of a matched token: its sign, integer digits and fraction
   * digits. An integer token reads as the number its digits spell; only a
   * token starting with `-` reads as negative.
   */
  function TokenValue(t: string): (v: Decimal)
    ensures AllDigits(t) ==> v == Decimal(DigitsValue(t), 0)
    ensures v.mantissa < 0 ==> |t| > 0 && t[0] == '-'
  {
    var negative := |t| > 0 && t[0] == '-';
    var body := if negative then t[1..] else t;
    var w := DigitRun(body, 0);
    var magnitude :=
      if w < |body| then Decimal(DigitsValue(body[..w] + body[w + 1..]), |body| - w - 1)
      else Decimal(DigitsValue(body), 0);
    if negative then Decimal(-magnitude.mantissa, magnitude.scale) else magnitude
  }

  /**
   * parseValue: the first match read as a number, or zero when there is none.
   * A payload without a decimal digit reads as zero, and a negative value
   * always has fraction digits: the sign survives only on a decimal.
   */
  function ParseValue(payload: string): (v: Decimal)
    ensures (forall i :: 0 <= i < |payload| ==> !IsDigit(payload[i])) ==> v == Zero
    ensures v.mantissa < 0 ==> v.scale > 0
  {
    MatchIffDigit(payload);
    match FirstMatch(payload)
    case None => Zero
    case Some(m) =>
      NegativeTokenIsDecimal(payload);
      TokenValue(payload[m.start..m.end])
  }

  /** A digit run spanning `[i, k)` is seen whole by DigitRun. */
  lemma DigitRunCovers(s: string, i: nat, k: nat)
    requires i <= k <= |s|
    requires forall j :: i <= j < k ==> IsDigit(s[j])
    ensures k <= i + DigitRun(s, i)
  {
  }

  /** What DecimalAt accepts is in the language of `\d{1,}[.]\d{1,}`. */
  lemma DecimalAtSound(s: string, i: nat)
    requires i <= |s| && DecimalAt(s, i) > 0
    ensures IsUnsignedDecimal(s[i..i + DecimalAt(s, i)])
  {
    var n, w := DecimalAt(s, i), DigitRun(s, i);
    var t := s[i..i + n];
    assert t[..w] == s[i..i + w];
    assert t[w + 1..] == s[i + w + 1..i + n];
    assert 0 < w < |t| && t[w] == '.' && AllDigits(t[..w]) && AllDigits(t[w + 1..]);
  }

  /**
   * Any prefix of `s[i..]` in the language of `\d{1,}[.]\d{1,}` makes DecimalAt
   * succeed, and the greedy match is at least as long.
   */
  lemma DecimalAtComplete(s: string, i: nat, k: nat)
    requires i < k <= |s| && IsUnsignedDecimal(s[i..k])
    ensures DecimalAt(s, i) > 0 && k <= i + DecimalAt(s, i)
  {
    var t := s[i..k];
    var p :| 0 < p < |t| && t[p] == '.' && AllDigits(t[..p]) && AllDigits(t[p + 1..]);
    forall j | i <= j < i + p ensures IsDigit(s[j]) {
      assert s[j] == t[..p][j - i];
    }
    assert s[i + p] == t[p];
    DigitRunCovers(s, i, i + p);
    assert DigitRun(s, i) == p;
    forall j | i + p + 1 <= j < k ensures IsDigit(s[j]) {
      assert s[j] == t[p + 1..][j - i - p - 1];
    }
    DigitRunCovers(s, i + p + 1, k);
  }

  /** A `-` followed by an accepted decimal is in the pattern's first alternative. */
  lemma SignedDecimalSound(s: string, i: nat)
    requires i < |s| && s[i] == '-' && DecimalAt(s, i + 1) > 0
    ensures InPattern(s[i..i + 1 + DecimalAt(s, i + 1)])
  {
    var t := s[i..i + 1 + DecimalAt(s, i + 1)];
    DecimalAtSound(s, i + 1);
    assert t[0] == '-' && t[1..] == s[i + 1..i + 1 + DecimalAt(s, i + 1)];
  }

  /** A non-empty digit run is in the pattern's second alternative. */
  lemma DigitRunSound(s: string, i: nat)
    requires i <= |s| && DigitRun(s, i) > 0
    ensures AllDigits(s[i..i + DigitRun(s, i)])
  {
    var t := s[i..i + DigitRun(s, i)];
    forall j | 0 <= j < |t| ensures IsDigit(t[j]) {
      assert t[j] == s[i + j];
    }
  }

  /** What MatchAt accepts is in the language of the pattern. */
  lemma MatchAtSound(s: string, i: nat)
    requires i < |s| && MatchAt(s, i) > 0
    ensures InPattern(s[i..i + MatchAt(s, i)])
  {
    if s[i] == '-' && DecimalAt(s, i + 1) > 0 {
      SignedDecimalSound(s, i);
    } else if DecimalAt(s, i) > 0 {
      DecimalAtSound(s, i);
    } else {
      DigitRunSound(s, i);
    }
  }

  /**
   * Every prefix of `s[i..]` in the language of the pattern makes MatchAt
   * succeed, and MatchAt's match is at least as long: started at a fixed
   * position, the leftmost-first match is the longest one.
   */
  lemma MatchAtComplete(s: string, i: nat, k: nat)
    requires i < k <= |s| && InPattern(s[i..k])
    ensures MatchAt(s, i) > 0 && k <= i + MatchAt(s, i)
  {
    var t := s[i..k];
    if AllDigits(t) {
      assert s[i] == t[0];
      forall j | i <= j < k ensures IsDigit(s[j]) {
        assert s[j] == t[j - i];
      }
      DigitRunCovers(s, i, k);
    } else if IsUnsignedDecimal(t) {
      var p :| 0 < p < |t| && t[p] == '.' && AllDigits(t[..p]) && AllDigits(t[p + 1..]);
      assert s[i] == t[..p][0];
      DecimalAtComplete(s, i, k);
    } else {
      assert s[i] == '-' && t[1..] == s[i + 1..k];
      DecimalAtComplete(s, i + 1, k);
    }
  }

  /** No prefix of `s[j..]` is in the language of the pattern. */
  ghost predicate NoMatchAt(s: string, j: nat)
    requires j <= |s|
  {
    forall k :: j < k <= |s| ==> !InPattern(s[j..k])
  }

  /** No substring of `s` starting in `[lo, hi)` is in the language of the pattern. */
  ghost predicate NoMatchIn(s: string, lo: nat, hi: nat)
    requires hi <= |s|
  {
    forall j :: lo <= j < hi ==> NoMatchAt(s, j)
  }

  /** MatchAt fails exactly where nothing in the language starts. */
  lemma MatchAtFails(s: string, i: nat)
    requires i < |s| && MatchAt(s, i) == 0
    ensures NoMatchAt(s, i)
  {
    forall k | i < k <= |s| ensures !InPattern(s[i..k]) {
      if InPattern(s[i..k]) { MatchAtComplete(s, i, k); }
    }
  }

  /**
   * FindFrom is the leftmost-longest search: its match is in the pattern's
   * language, nothing in the language starts earlier, and nothing longer
   * starts at the same place. With no match, no substring is in the language.
   */
  lemma {:induction false} FindFromSpec(s: string, i: nat)
    requires i <= |s|
    decreases |s| - i
    ensures FindFrom(s, i).Some? ==>
      var m := FindFrom(s, i).value;
      && InPattern(s[m.start..m.end])
      && NoMatchIn(s, i, m.start)
      && (forall k :: m.end < k <= |s| ==> !InPattern(s[m.start..k]))
    ensures FindFrom(s, i).None? ==> NoMatchIn(s, i, |s|)
  {
    if i < |s| {
      if MatchAt(s, i) > 0 {
        MatchAtSound(s, i);
        forall k | i + MatchAt(s, i) < k <= |s| ensures !InPattern(s[i..k]) {
          if InPattern(s[i..k]) { MatchAtComplete(s, i, k); }
        }
      } else {
        FindFromSpec(s, i + 1);
        MatchAtFails(s, i);
      }
    }
  }

  /**
   * The first match of a payload: a contiguous, non-empty substring in the
   * pattern's language, at the leftmost position where any match starts, and
   * the longest match there.
   */
  lemma FirstMatchSpec(payload: string)
    ensures FirstMatch(payload).Some? ==>
      var m := FirstMatch(payload).value;
      && m.start < m.end <= |payload|
      && InPattern(payload[m.start..m.end])
      && NoMatchIn(payload, 0, m.start)
      && (forall k :: m.end < k <= |payload| ==> !InPattern(payload[m.start..k]))
    ensures FirstMatch(payload).None? ==> NoMatchIn(payload, 0, |payload|)
  {
    FindFromSpec(payload, 0);
  }

  /** Every word of the pattern's language holds a decimal digit. */
  lemma PatternHasDigit(t: string)
    requires InPattern(t)
    ensures exists i :: 0 <= i < |t| && IsDigit(t[i])
  {
    if AllDigits(t) || IsUnsignedDecimal(t) {
      assert IsDigit(t[0]);
    } else {
      var u := t[1..];
      assert IsUnsignedDecimal(u);
      assert IsDigit(u[0]) && u[0] == t[1];
    }
  }

  /** There is a match exactly when the payload holds a decimal digit. */
  lemma MatchIffDigit(payload: string)
    ensures FirstMatch(payload).Some? <==> exists i :: 0 <= i < |payload| && IsDigit(payload[i])
  {
    FindFromSpec(payload, 0);
    if FirstMatch(payload).Some? {
      var m := FirstMatch(payload).value;
      PatternHasDigit(payload[m.start..m.end]);
      var i :| 0 <= i < m.end - m.start && IsDigit(payload[m.start..m.end][i]);
      assert IsDigit(payload[m.start + i]);
    }
    if i :| 0 <= i < |payload| && IsDigit(payload[i]) {
      assert AllDigits(payload[i..i + 1]);
      assert !NoMatchAt(payload, i);
    }
  }

  /** `\d{1,}[.]\d{1,}` holds no `-`. */
  lemma NoMinusInDecimal(t: string)
    ensures IsUnsignedDecimal(t) ==> forall q :: 0 <= q < |t| ==> t[q] != '-'
  {
    if IsUnsignedDecimal(t) {
      var p :| 0 < p < |t| && t[p] == '.' && AllDigits(t[..p]) && AllDigits(t[p + 1..]);
      forall q | 0 <= q < |t| ensures t[q] != '-' {
        if q < p {
          assert t[..p][q] == t[q];
        } else if q > p {
          assert t[p + 1..][q - p - 1] == t[q];
        }
      }
    }
  }

  /**
   * A `-` can appear in the matched token only as its first character, and
   * only when the rest is `\d{1,}[.]\d{1,}`: a negative integer loses its sign.
   */
  lemma MinusOnlyBeforeDecimal(payload: string, q: nat)
    requires FirstMatch(payload).Some?
    requires var m := FirstMatch(payload).value; q < m.end - m.start && payload[m.start..m.end][q] == '-'
    ensures var m := FirstMatch(payload).value;
      q == 0 && IsUnsignedDecimal(payload[m.start + 1..m.end])
  {
    FirstMatchSpec(payload);
    var m := FirstMatch(payload).value;
    var t := payload[m.start..m.end];
    NoMinusInDecimal(t);
    NoMinusInDecimal(t[1..]);
    assert t[1..] == payload[m.start + 1..m.end];
  }

  /** Appending a digit multiplies by ten and adds it. */
  lemma DigitsValueSnoc(d: string, c: char)
    ensures DigitsValue(d + [c]) == 10 * DigitsValue(d) + DigitValue(c)
  {
    assert (d + [c])[..|d|] == d;
  }

  lemma ShiftByTen(x: nat, y: nat, z: nat)
    ensures 10 * (x * y + z) == x * (10 * y) + 10 * z
  {
  }

  /** Reading digits left to right: the value of `a + b` shifts `a` by |b| places. */
  lemma {:induction false} DigitsValueConcat(a: string, b: string)
    ensures DigitsValue(a + b) == DigitsValue(a) * Pow10(|b|) + DigitsValue(b)
    decreases |b|
  {
    if b == [] {
      assert a + b == a;
    } else {
      var c, d := b[..|b| - 1], b[|b| - 1];
      assert b == c + [d];
      assert a + b == (a + c) + [d];
      DigitsValueSnoc(a + c, d);
      DigitsValueSnoc(c, d);
      DigitsValueConcat(a, c);
      ShiftByTen(DigitsValue(a), Pow10(|c|), DigitsValue(c));
    }
  }

  /** The first match reads as negative only when it is a signed decimal, which has fraction digits. */
  lemma NegativeTokenIsDecimal(payload: string)
    requires FirstMatch(payload).Some?
    ensures var m := FirstMatch(payload).value;
      var v := TokenValue(payload[m.start..m.end]);
      v.mantissa < 0 ==> v.scale > 0
  {
    var m := FirstMatch(payload).value;
    var t := payload[m.start..m.end];
    if t[0] == '-' {
      MinusOnlyBeforeDecimal(payload, 0);
      var u := t[1..];
      assert u == payload[m.start + 1..m.end];
      var p :| 0 < p < |u| && u[p] == '.' && AllDigits(u[..p]) && AllDigits(u[p + 1..]);
      TokenValueOfDecimal(t, p);
    }
  }

  /**
   * A decimal token `w.f`, signed or not, is read exactly as
   * (w * 10^|f| + f) / 10^|f|, negated when it starts with `-`.
   */
  lemma TokenValueOfDecimal(t: string, p: nat)
    requires |t| > 0
    requires var u := if t[0] == '-' then t[1..] else t;
      0 < p < |u| && u[p] == '.' && AllDigits(u[..p]) && AllDigits(u[p + 1..])
    ensures var u := if t[0] == '-' then t[1..] else t;
      var magnitude := DigitsValue(u[..p]) * Pow10(|u| - p - 1) + DigitsValue(u[p + 1..]);
      TokenValue(t) == Decimal(if t[0] == '-' then -magnitude else magnitude, |u| - p - 1)
  {
    var u := if t[0] == '-' then t[1..] else t;
    forall j | 0 <= j < p ensures IsDigit(u[j]) { assert u[j] == u[..p][j]; }
    DigitRunCovers(u, 0, p);
    assert DigitRun(u, 0) == p;
    DigitsValueConcat(u[..p], u[p + 1..]);
  }

  /** `"42"` reads as 42. */
  lemma ParseValueInteger()
    ensures ParseValue("42") == Decimal(42, 0)
  {
    var s := "42";
    assert DigitRun(s, 2) == 0;
    assert DigitRun(s, 0) == 2;
    assert FirstMatch(s) == Some(Span(0, 2));
    assert DigitsValue(s) == 10 * DigitsValue("4") + 2;
  }

  /** `"-3.14 degrees"` reads as -3.14: the sign is kept for a decimal. */
  lemma ParseValueSignedDecimal()
    ensures ParseValue("-3.14 degrees") == Decimal(-314, 2)
    ensures AsReal(ParseValue("-3.14 degrees")) == -3.14
  {
    SignedDecimalMatch();
    assert "-3.14 degrees"[0..5] == "-3.14";
    SignedDecimalToken();
    assert Pow10(2) == 100;
  }

  /** In `"-3.14 degrees"` the match is `-3.14`, sign included. */
  lemma SignedDecimalMatch()
    ensures FirstMatch("-3.14 degrees") == Some(Span(0, 5))
  {
    var s := "-3.14 degrees";
    assert DigitRun(s, 2) == 0;
    assert DigitRun(s, 1) == 1;
    assert DigitRun(s, 5) == 0;
    assert DigitRun(s, 3) == 2;
    assert DecimalAt(s, 1) == 4;
    assert MatchAt(s, 0) == 5;
  }

  /** The token `-3.14` is -314 hundredths. */
  lemma SignedDecimalToken()
    ensures TokenValue("-3.14") == Decimal(-314, 2)
  {
    var t := "-3.14";
    var u := t[1..];
    assert u[..1] == "3" && u[2..] == "14";
    assert AllDigits(u[..1]) && AllDigits(u[2..]);
    TokenValueOfDecimal(t, 1);
    assert DigitsValue("3") == 3;
    assert DigitsValue("14") == 14 by { assert "14"[..1] == "1"; }
    assert Pow10(2) == 100;
  }

  /** `"-3"` reads as 3: a `-` before an integer is not part of the match. */
  lemma ParseValueNegativeInteger()
    ensures ParseValue("-3") == Decimal(3, 0)
  {
    var s := "-3";
    assert DigitRun(s, 2) == 0;
    assert DigitRun(s, 1) == 1;
    assert MatchAt(s, 0) == 0;
    assert MatchAt(s, 1) == 1;
    assert FirstMatch(s) == Some(Span(1, 2));
    assert s[1..2] == "3";
  }

  /** `"1.2.3"` reads as 1.2: only the first match counts. */
  lemma ParseValueFirstMatchOnly()
    ensures ParseValue("1.2.3") == Decimal(12, 1)
  {
    var s := "1.2.3";
    assert DigitRun(s, 1) == 0;
    assert DigitRun(s, 0) == 1;
    assert DigitRun(s, 3) == 0;
    assert DigitRun(s, 2) == 1;
    assert MatchAt(s, 0) == 3;
    assert FirstMatch(s) == Some(Span(0, 3));
    var t := s[0..3];
    assert t == "1.2";
    TokenValueOfDecimal(t, 1);
    assert t[..1] == "1" && t[2..] == "2";
  }

  /** A payload without digits, and the empty payload, read as zero. */
  lemma ParseValueNoNumber()
    ensures ParseValue("no numbers here") == Zero
    ensures ParseValue("") == Zero
  {
    var s := "no numbers here";
    assert forall i :: 0 <= i < |s| ==> !IsDigit(s[i]);
  }
}
