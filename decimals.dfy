/**
  Python's `float()` restricted to plain decimal text: an optional sign, then
  digits with at most one decimal point and at least one digit. Values are
  exact reals.
 */
module Decimals {
  import opened Wrappers
  import opened Strings

  predicate AllDigits(s: string) {
    forall i :: 0 <= i < |s| ==> IsDigit(s[i])
  }

  /** The natural number written by a string of decimal digits ("" is 0). */
  function DigitsValue(s: string): nat
    requires AllDigits(s)
  {
    if s == [] then 0 else DigitsValue(s[..|s| - 1]) * 10 + (s[|s| - 1] as int - '0' as int)
  }

  function Pow10(k: nat): (p: nat)
    ensures p >= 1
  {
    if k == 0 then 1 else 10 * Pow10(k - 1)
  }

  /** The grammar accepted by `ParseUnsigned`: only digits and points, at
      most one point, at least one digit. */
  predicate IsDecimal(s: string) {
    && (forall i :: 0 <= i < |s| ==> IsDigit(s[i]) || s[i] == '.')
    && (forall i, j :: 0 <= i < j < |s| && s[i] == '.' ==> s[j] != '.')
    && (exists i :: 0 <= i < |s| && IsDigit(s[i]))
  }

  /** `float(s)` for unsigned decimal text: the digits before the point give
      the whole part, those after it the fraction. */
  function ParseUnsigned(s: string): (r: Option<real>)
    ensures r.Some? ==> r.value >= 0.0
  {
    var k := Find(s, '.');
    var whole := s[..k];
    var fraction := if k < |s| then s[k + 1..] else [];
    if AllDigits(whole) && AllDigits(fraction) && |whole| + |fraction| > 0 then
      Some(DigitsValue(whole) as real + DigitsValue(fraction) as real / Pow10(|fraction|) as real)
    else
      None
  }

  /** `ParseUnsigned` succeeds on exactly the strings of the decimal grammar:
      "1." and ".5" are numbers, "." and "1.2.3" are not. */
  lemma ParseUnsignedAcceptsExactly(s: string)
    ensures ParseUnsigned(s).Some? <==> IsDecimal(s)
  {
    var k := Find(s, '.');
    var whole := s[..k];
    var fraction := if k < |s| then s[k + 1..] else [];
    if ParseUnsigned(s).Some? {
      if k < |s| {
        assert forall i :: 0 <= i < |s| && i != k ==> (i < k ==> s[i] == whole[i]) && (i > k ==> s[i] == fraction[i - k - 1]);
        if |whole| > 0 {
          assert IsDigit(s[0]);
        } else {
          assert IsDigit(s[k + 1]);
        }
      } else {
        assert IsDigit(s[0]);
      }
    }
    if IsDecimal(s) {
      var d :| 0 <= d < |s| && IsDigit(s[d]);
      if k < |s| {
        assert forall i :: k < i < |s| ==> s[i] != '.';
        assert AllDigits(fraction) by {
          forall i | 0 <= i < |fraction| ensures IsDigit(fraction[i]) {
            assert fraction[i] == s[k + 1 + i];
          }
        }
        if d < k {
          assert whole[d] == s[d];
        } else {
          assert d != k;
          assert fraction[d - k - 1] == s[d];
        }
      } else {
        assert whole == s;
      }
    }
  }

  /** Python's `float(s)` on text with an optional leading `+` or `-`. */
  function ParseFloat(s: string): Option<real> {
    if |s| > 0 && s[0] == '-' then
      match ParseUnsigned(s[1..])
      case None => None
      case Some(v) => Some(-v)
    else if |s| > 0 && s[0] == '+' then
      ParseUnsigned(s[1..])
    else
      ParseUnsigned(s)
  }

  /** `ParseFloat` accepts a decimal, possibly behind one sign, and nothing
      else; unsigned text keeps its non-negative value. */
  lemma ParseFloatAcceptsExactly(s: string)
    ensures ParseFloat(s).Some? <==> IsDecimal(s) || (|s| > 0 && (s[0] == '-' || s[0] == '+') && IsDecimal(s[1..]))
    ensures IsDecimal(s) ==> ParseFloat(s) == ParseUnsigned(s)
  {
    ParseUnsignedAcceptsExactly(s);
    if |s| > 0 {
      ParseUnsignedAcceptsExactly(s[1..]);
    }
  }

  /** What `float()` makes of a few numbers a report may contain. */
  lemma ParseFloatAcceptsExamples()
    ensures ParseFloat("0.85") == Some(0.85)
    ensures ParseFloat("1.") == Some(1.0)
    ensures ParseFloat(".5") == Some(0.5)
  {
    assert Find("0.85", '.') == 1;
    assert "0.85"[..1] == "0" && "0.85"[2..] == "85";
    assert DigitsValue("85") == 85 by {
      assert "85"[..1] == "8";
      assert "8"[..0] == "";
    }
  }

  /** Captures of `[\d.]+` that are no number: `float()` raises on them. */
  lemma ParseFloatRejectsExamples()
    ensures ParseFloat(".") == None
    ensures ParseFloat("1.2.3") == None
  {
    assert Find("1.2.3", '.') == 1;
    assert !AllDigits("1.2.3"[2..]) by {
      assert "1.2.3"[2..][1] == '.';
    }
  }
}
