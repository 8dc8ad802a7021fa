/** Numbers as text: `Number.parseInt(text, base)` on digit strings and `n.toString(base)`. */
module Digits {

  /** The value of a digit in any base up to 16, or 16 for a character that is no digit. */
  function Digit(c: char): (d: nat)
    ensures d <= 16
  {
    if '0' <= c <= '9' then c as int - '0' as int
    else if 'a' <= c <= 'f' then c as int - 'a' as int + 10
    else if 'A' <= c <= 'F' then c as int - 'A' as int + 10
    else 16
  }

  predicate AllDigits(s: string, base: nat) {
    forall c | c in s :: Digit(c) < base
  }

  /** `parseInt` of a string of digits. */
  function Value(s: string, base: nat): (v: nat)
    requires 2 <= base <= 16
  {
    if s == "" then 0 else Value(s[..|s| - 1], base) * base + Digit(s[|s| - 1])
  }

  function DigitChar(d: nat): (c: char)
    requires d < 16
    ensures Digit(c) == d
  {
    if d < 10 then ('0' as int + d) as char else ('a' as int + d - 10) as char
  }

  /** `n.toString(base)`. */
  function ToText(n: nat, base: nat): (s: string)
    requires 2 <= base <= 16
    ensures s != ""
  {
    if n < base then [DigitChar(n)] else ToText(n / base, base) + [DigitChar(n % base)]
  }

  predicate IsDigitChar(c: char) {
    '0' <= c <= '9' || 'a' <= c <= 'f'
  }

  lemma DivisionLaw(n: nat, base: nat)
    requires base >= 2
    ensures n == n / base * base + n % base
  {
  }

  lemma DivisionIsUnique(q: nat, d: nat, base: nat)
    requires d < base
    ensures (q * base + d) / base == q && (q * base + d) % base == d
  {
    var n := q * base + d;
    var q', d' := n / base, n % base;
    assert n == q' * base + d';
    StrictlyMore(q', q, base);
    StrictlyMore(q, q', base);
  }

  lemma StrictlyMore(a: nat, b: nat, c: nat)
    ensures a < b ==> a * c + c <= b * c
  {
    if a < b { assert (a + 1) * c <= b * c; }
  }

  /** Printing then parsing gives the number back, in lower-case digits without a leading zero. */
  lemma {:induction false} TextRoundTrip(n: nat, base: nat)
    requires 2 <= base <= 16
    ensures Value(ToText(n, base), base) == n && AllDigits(ToText(n, base), base)
    ensures forall c | c in ToText(n, base) :: IsDigitChar(c)
    ensures n > 0 ==> ToText(n, base)[0] != '0'
  {
    hide DigitChar, Digit, IsDigitChar, Value;
    if n < base {
      OneDigit(n, base);
    } else {
      TextRoundTrip(n / base, base);
      DivisionLaw(n, base);
      AppendDigit(ToText(n / base, base), n % base, base);
    }
  }

  lemma OneDigit(d: nat, base: nat)
    requires d < base <= 16 && base >= 2
    ensures Value([DigitChar(d)], base) == d && IsDigitChar(DigitChar(d)) && (d > 0 ==> DigitChar(d) != '0')
  {
    AppendDigit("", d, base);
    assert "" + [DigitChar(d)] == [DigitChar(d)] && Value("", base) == 0;
  }

  lemma AppendDigit(head: string, d: nat, base: nat)
    requires 2 <= base <= 16 && d < base
    ensures var s := head + [DigitChar(d)]; Value(s, base) == Value(head, base) * base + d
    ensures IsDigitChar(DigitChar(d))
  {
    var s := head + [DigitChar(d)];
    assert s[..|s| - 1] == head;
  }

  function Power(base: nat, k: nat): nat {
    if k == 0 then 1 else base * Power(base, k - 1)
  }

  lemma {:induction false} TextLength(n: nat, base: nat, k: nat)
    requires 2 <= base <= 16 && k > 0 && n < Power(base, k)
    ensures |ToText(n, base)| <= k
    decreases k
  {
    hide ToText, Power;
    LastDigit(n, base);
    PowerIs(base, k);
    if n >= base {
      DivisionBelow(n, base, Power(base, k - 1));
      TextLength(n / base, base, k - 1);
    }
  }

  lemma LastDigit(n: nat, base: nat)
    requires 2 <= base <= 16
    ensures |ToText(n, base)| == if n < base then 1 else |ToText(n / base, base)| + 1
  {
    hide DigitChar;
  }

  lemma PowerIs(base: nat, k: nat)
    requires k > 0
    ensures Power(base, k) == base * Power(base, k - 1)
    ensures Power(base, 1) == base
  {
  }

  lemma DivisionBelow(n: nat, base: nat, p: nat)
    requires base >= 2 && n < base * p
    ensures n / base < p
  {
    DivisionLaw(n, base);
    StrictlyMore(p, n / base + 1, base);
    assert (n / base + 1) * base == n / base * base + base;
  }

  lemma BelowNext(v: nat, d: nat, base: nat, p: nat)
    requires v < p && d < base
    ensures v * base + d < base * p
  {
    assert (v + 1) * base <= p * base;
  }

  lemma {:induction false} ValueBound(s: string, base: nat)
    requires 2 <= base <= 16 && AllDigits(s, base)
    ensures Value(s, base) < Power(base, |s|)
  {
    if s != "" {
      var front := s[..|s| - 1];
      assert forall c | c in front :: c in s;
      ValueBound(front, base);
      assert s[|s| - 1] in s;
      BelowNext(Value(front, base), Digit(s[|s| - 1]), base, Power(base, |s| - 1));
    }
  }

  lemma DigitRoundTrip(c: char)
    requires IsDigitChar(c)
    ensures Digit(c) < 16 && DigitChar(Digit(c)) == c
    ensures c != '0' ==> Digit(c) > 0
  {
  }

  /** A lower-case digit string without superfluous zeros is the text of its value. */
  lemma {:induction false} ValueRoundTrip(s: string, base: nat)
    requires 2 <= base <= 16 && s != "" && AllDigits(s, base)
    requires (forall c | c in s :: IsDigitChar(c)) && (|s| > 1 ==> s[0] != '0')
    ensures ToText(Value(s, base), base) == s
    ensures s[0] != '0' ==> Value(s, base) > 0
  {
    hide Digit, DigitChar, IsDigitChar, ToText, Value;
    var front, last := s[..|s| - 1], s[|s| - 1];
    assert last in s;
    DigitRoundTrip(last);
    assert s == front + [last];
    LastValue(s, base);
    if front == "" {
      TextOfDigit(Digit(last), base);
    } else {
      assert forall c | c in front :: c in s;
      ValueRoundTrip(front, base);
      AtLeast(Value(front, base), base);
      TextSnoc(Value(front, base), Digit(last), base);
    }
  }

  lemma LastValue(s: string, base: nat)
    requires s != "" && AllDigits(s, base) && 2 <= base <= 16
    ensures AllDigits(s[..|s| - 1], base) && Digit(s[|s| - 1]) < base
    ensures Value(s, base) == Value(s[..|s| - 1], base) * base + Digit(s[|s| - 1])
    ensures |s| == 1 ==> Value(s, base) == Digit(s[0])
  {
    hide Digit;
    assert |s| == 1 ==> Value(s[..0], base) == 0;
  }

  lemma TextOfDigit(d: nat, base: nat)
    requires d < base && 2 <= base <= 16
    ensures ToText(d, base) == [DigitChar(d)]
  {
  }

  lemma TextSnoc(v: nat, d: nat, base: nat)
    requires v >= 1 && d < base && 2 <= base <= 16
    ensures ToText(v * base + d, base) == ToText(v, base) + [DigitChar(d)]
  {
    hide DigitChar;
    DivisionIsUnique(v, d, base);
    AtLeast(v, base);
  }

  lemma AtLeast(v: nat, base: nat)
    requires v >= 1
    ensures v * base >= base
  {
  }

  /** The digits and their values, in both cases. */
  lemma DigitsAre(i: nat)
    requires i < 16
    ensures DigitChar(i) == "0123456789abcdef"[i]
    ensures Digit("0123456789abcdef"[i]) == i && Digit("0123456789ABCDEF"[i]) == i
  {
  }

  /** The value of a text is the sum of its digits by place. */
  lemma ValueByPlace(s: string, c: char, base: nat)
    requires 2 <= base <= 16
    ensures Value("", base) == 0 && Value(s + [c], base) == Value(s, base) * base + Digit(c)
  {
    assert (s + [c])[..|s|] == s;
  }
}
