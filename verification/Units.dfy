/** Numbers as decimal text, and fixed-point amounts: formatUnits and parseUnits for amounts that are not negative. */
module Units {
  import opened Common

  predicate IsDigits(s: string) {
    forall i :: 0 <= i < |s| ==> '0' <= s[i] <= '9'
  }

  /** The number a string of digits denotes. */
  function Val(s: string): nat
    requires IsDigits(s)
  {
    if s == "" then 0 else 10 * Val(s[..|s| - 1]) + (s[|s| - 1] - '0') as nat
  }

  /** The decimal digits of a number. */
  function Dec(n: nat): (s: string)
    ensures IsDigits(s) && |s| >= 1
    ensures |s| > 1 ==> s[0] != '0'
  {
    if n < 10 then ['0' + n as char] else Dec(n / 10) + ['0' + (n % 10) as char]
  }

  function Zeros(k: nat): (s: string)
    ensures IsDigits(s) && |s| == k
  {
    seq(k, i => '0')
  }

  lemma {:induction false} ValDec(n: nat)
    ensures Val(Dec(n)) == n
  {
    if n >= 10 {
      ValDec(n / 10);
      assert Dec(n)[..|Dec(n)| - 1] == Dec(n / 10);
    }
  }

  /** Different numbers print differently. */
  lemma DecInjective(m: nat, n: nat)
    requires Dec(m) == Dec(n)
    ensures m == n
  {
    ValDec(m);
    ValDec(n);
  }

  /** The decimal text of an integer. */
  function DecInt(n: int): string {
    if n < 0 then "-" + Dec(-n) else Dec(n)
  }

  lemma DecIntInjective(m: int, n: int)
    requires DecInt(m) == DecInt(n)
    ensures m == n
  {
    hide Dec;
    assert DecInt(m)[0] == '-' <==> m < 0;
    assert DecInt(n)[0] == '-' <==> n < 0;
    if m < 0 && n < 0 {
      assert DecInt(m)[1..] == Dec(-m) && DecInt(n)[1..] == Dec(-n);
      DecInjective(-m, -n);
    } else if m >= 0 && n >= 0 {
      DecInjective(m, n);
    }
  }

  lemma {:induction false} ValLeadingZeros(k: nat, s: string)
    requires IsDigits(s)
    ensures Val(Zeros(k) + s) == Val(s)
    decreases k + |s|
  {
    if s == "" {
      if k > 0 {
        assert Zeros(k) + s == Zeros(k);
        assert Zeros(k)[..k - 1] == Zeros(k - 1);
        ValLeadingZeros(k - 1, "");
        assert Zeros(k - 1) + "" == Zeros(k - 1);
      }
    } else {
      assert (Zeros(k) + s)[..k + |s| - 1] == Zeros(k) + s[..|s| - 1];
      ValLeadingZeros(k, s[..|s| - 1]);
    }
  }

  /** Drop trailing zeros, keeping at least one digit. */
  function Trim(s: string): string {
    if |s| > 1 && s[|s| - 1] == '0' then Trim(s[..|s| - 1]) else s
  }

  lemma {:induction false} TrimDropsZeros(s: string)
    ensures |Trim(s)| <= |s| && s == Trim(s) + Zeros(|s| - |Trim(s)|)
    ensures |s| >= 1 ==> |Trim(s)| >= 1
  {
    if |s| > 1 && s[|s| - 1] == '0' {
      var t := s[..|s| - 1];
      TrimDropsZeros(t);
      assert s == t + ['0'];
      assert Zeros(|s| - |Trim(s)|) == Zeros(|t| - |Trim(t)|) + ['0'];
    }
  }

  /** Print v / 10^decimals: padded to a digit before the point, trailing zeros of the fraction trimmed. */
  function FormatUnits(v: nat, decimals: nat): string {
    if decimals == 0 then Dec(v) else
    var digits := Padded(v, decimals);
    digits[..|digits| - decimals] + "." + Trim(digits[|digits| - decimals..])
  }

  function Padded(v: nat, decimals: nat): (s: string)
    ensures IsDigits(s) && |s| > decimals
  {
    var digits := Dec(v);
    if |digits| <= decimals then Zeros(decimals + 1 - |digits|) + digits else digits
  }

  /** The position of the decimal point, or the length when there is none. */
  function Point(s: string): (i: nat)
    ensures i <= |s|
    ensures forall k :: 0 <= k < i ==> s[k] != '.'
    ensures i < |s| ==> s[i] == '.'
  {
    if s == "" || s[0] == '.' then 0 else 1 + Point(s[1..])
  }

  /** Read digits with at most one point as a multiple of 10^-decimals; excess fraction digits must be zeros. */
  function ParseUnits(s: string, decimals: nat): Option<nat> {
    var i := Point(s);
    var whole := s[..i];
    var fraction := if i < |s| then s[i + 1..] else "";
    if !IsDigits(whole) || !IsDigits(fraction) || |whole| + |fraction| == 0 then None
    else if |fraction| <= decimals then Some(Val(whole + fraction + Zeros(decimals - |fraction|)))
    else if fraction[decimals..] == Zeros(|fraction| - decimals) then Some(Val(whole + fraction[..decimals]))
    else None
  }

  lemma {:induction false} PointOfConcat(whole: string, rest: string)
    requires IsDigits(whole)
    ensures Point(whole + "." + rest) == |whole|
  {
    if whole == "" {
      assert whole + "." + rest == "." + rest;
    } else {
      assert (whole + "." + rest)[1..] == whole[1..] + "." + rest;
      PointOfConcat(whole[1..], rest);
    }
  }

  lemma {:induction false} NoPoint(s: string)
    requires IsDigits(s)
    ensures Point(s) == |s|
  {
    if s != "" {
      NoPoint(s[1..]);
    }
  }

  /** Reading text with a point: the fraction is filled up with zeros. */
  lemma ParseText(whole: string, fraction: string, decimals: nat)
    requires IsDigits(whole) && IsDigits(fraction)
    requires 0 < |fraction| <= decimals
    ensures IsDigits(whole + fraction + Zeros(decimals - |fraction|))
    ensures ParseUnits(whole + "." + fraction, decimals) ==
            Some(Val(whole + fraction + Zeros(decimals - |fraction|)))
  {
    hide Val, Point;
    PointOfConcat(whole, fraction);
    var text := whole + "." + fraction;
    assert text[..|whole|] == whole && text[|whole| + 1..] == fraction;
  }

  lemma ValPadded(v: nat, decimals: nat)
    ensures Val(Padded(v, decimals)) == v
  {
    hide Val, Dec;
    ValDec(v);
    if |Dec(v)| <= decimals {
      ValLeadingZeros(decimals + 1 - |Dec(v)|, Dec(v));
    }
  }

  lemma DigitsOfParts(s: string, i: nat)
    requires IsDigits(s) && i <= |s|
    ensures IsDigits(s[..i]) && IsDigits(s[i..])
  {
  }

  /** Reading a printed amount gives the same integer back. */
  lemma ParseFormat(v: nat, decimals: nat)
    ensures ParseUnits(FormatUnits(v, decimals), decimals) == Some(v)
  {
    hide Val, Dec, Padded, Trim, Point, IsDigits;
    if decimals == 0 {
      ValDec(v);
      NoPoint(Dec(v));
      EmptyText();
      assert Dec(v) + "" + Zeros(0) == Dec(v);
      assert Dec(v)[..|Dec(v)|] == Dec(v);
    } else {
      var digits := Padded(v, decimals);
      ValPadded(v, decimals);
      var i := |digits| - decimals;
      DigitsOfParts(digits, i);
      TrimDropsZeros(digits[i..]);
      var trimmed := Trim(digits[i..]);
      DigitsOfParts(digits[i..], |trimmed|);
      assert digits[i..][..|trimmed|] == trimmed;
      ParseText(digits[..i], trimmed, decimals);
      assert digits[..i] + trimmed + Zeros(decimals - |trimmed|) == digits[..i] + digits[i..] == digits;
    }
  }

  lemma EmptyText()
    ensures IsDigits("")
  {
  }

  // ---------------------------------------------------------------- what text means

  function Pow10(k: nat): nat {
    if k == 0 then 1 else 10 * Pow10(k - 1)
  }

  lemma ValLast(s: string)
    requires IsDigits(s) && s != ""
    ensures IsDigits(s[..|s| - 1]) && Val(s) == 10 * Val(s[..|s| - 1]) + (s[|s| - 1] - '0') as nat
  {
  }

  lemma {:induction false} ValConcat(a: string, b: string)
    requires IsDigits(a) && IsDigits(b)
    ensures IsDigits(a + b) && Val(a + b) == Val(a) * Pow10(|b|) + Val(b)
  {
    if b == "" {
      assert a + b == a;
    } else {
      var front := b[..|b| - 1];
      ValLast(b);
      ValLast(a + b);
      ValConcat(a, front);
      assert (a + b)[..|a + b| - 1] == a + front;
      TimesTen(Val(a), Pow10(|front|), Val(front));
      hide Val, IsDigits;
    }
  }

  lemma TimesTen(a: nat, p: nat, v: nat)
    ensures 10 * (a * p + v) == a * (10 * p) + 10 * v
  {
  }

  lemma ValZeros(k: nat)
    ensures Val(Zeros(k)) == 0
  {
    ValLeadingZeros(k, "");
    assert Zeros(k) + "" == Zeros(k);
  }

  lemma {:induction false} Pow10Sum(j: nat, k: nat)
    ensures Pow10(j) * Pow10(k) == Pow10(j + k)
  {
    if j == 0 {
    } else {
      Pow10Sum(j - 1, k);
      assert 10 * Pow10(j - 1) * Pow10(k) == 10 * (Pow10(j - 1) * Pow10(k));
    }
  }

  /** A whole number is read in full. */
  lemma ParseWhole(whole: string, decimals: nat)
    requires IsDigits(whole) && whole != ""
    ensures ParseUnits(whole, decimals) == Some(Val(whole) * Pow10(decimals))
  {
    hide Val;
    NoPoint(whole);
    EmptyText();
    assert whole[..|whole|] == whole;
    assert whole + "" + Zeros(decimals) == whole + Zeros(decimals);
    ValConcat(whole, Zeros(decimals));
    ValZeros(decimals);
  }

  /** Digits after the point count by their place; those beyond the decimals must be zeros. */
  lemma ParseFraction(whole: string, fraction: string, more: string, decimals: nat)
    requires IsDigits(whole) && IsDigits(fraction) && IsDigits(more) && |whole| + |fraction| + |more| > 0
    requires |fraction| <= decimals && (more != "" ==> |fraction| == decimals)
    ensures ParseUnits(whole + "." + fraction + more, decimals) ==
            if more == Zeros(|more|)
            then Some(Val(whole) * Pow10(decimals) + Val(fraction) * Pow10(decimals - |fraction|)) else None
  {
    hide Val, Point;
    var f := fraction + more;
    PointOfConcat(whole, f);
    var text := whole + "." + f;
    assert whole + "." + fraction + more == text;
    assert text[..|whole|] == whole && text[|whole| + 1..] == f;
    ValConcat(whole, fraction);
    if more == "" {
      assert f == fraction;
      var zeros := Zeros(decimals - |fraction|);
      ValConcat(whole + fraction, zeros);
      ValZeros(decimals - |fraction|);
      Pow10Sum(|fraction|, decimals - |fraction|);
      PlaceValue(Val(whole), Pow10(|fraction|), Val(fraction), Pow10(decimals - |fraction|));
      assert Zeros(0) == "";
    } else {
      assert f[decimals..] == more && f[..decimals] == fraction;
      assert Pow10(0) == 1;
    }
  }

  lemma PlaceValue(w: nat, p: nat, f: nat, q: nat)
    ensures (w * p + f) * q == w * (p * q) + f * q
  {
    assert (w * p + f) * q == w * p * q + f * q;
  }

  /** Text that is no digits with at most one point among them is not read. */
  lemma ParseRejects(text: string, decimals: nat)
    requires text == "" || text == "." || (exists i :: 0 <= i < |text| && text[i] != '.' && !('0' <= text[i] <= '9')) ||
             (exists i, j :: 0 <= i < j < |text| && text[i] == text[j] == '.')
    ensures ParseUnits(text, decimals) == None
  {
    hide Val;
    var i := Point(text);
    if k :| 0 <= k < |text| && text[k] != '.' && !('0' <= text[k] <= '9') {
      if k < i {
        assert text[..i][k] == text[k];
      } else {
        assert text[i + 1..][k - i - 1] == text[k];
      }
    } else if j, k :| 0 <= j < k < |text| && text[j] == text[k] == '.' {
      assert i <= j;
      assert text[i + 1..][k - i - 1] == text[k];
    }
  }
}
