/** The immediate parser `imm`: strip, then `int(s, 16)` when the token
    starts with `0x`, else `int(s)` in base 10. */
module Immediates {
  import opened Results
  import opened Text

  predicate AllDecimal(ds: string)
  {
    forall i :: 0 <= i < |ds| ==> IsDecimalDigit(ds[i])
  }

  predicate AllHex(ds: string)
  {
    forall i :: 0 <= i < |ds| ==> IsHexDigit(ds[i])
  }

  predicate HasHexPrefix(t: string)
  {
    |t| >= 2 && t[0] == '0' && t[1] == 'x'
  }

  /** `int(t)` on a stripped token: an optional `+` or `-`, then at least one
      decimal digit. */
  function DecimalLiteral(t: string): (res: Result<int>)
    ensures res.Err? ==> res.error == InvalidImmediate(t)
    ensures res.Ok? && t != [] && t[0] != '-' ==> res.value >= 0
  {
    var negative := t != [] && t[0] == '-';
    var ds := if t != [] && (t[0] == '-' || t[0] == '+') then t[1..] else t;
    if ds != [] && AllDecimal(ds) then
      Ok(if negative then -(DecimalValue(ds) as int) else DecimalValue(ds))
    else
      Err(InvalidImmediate(t))
  }

  /** `imm(s)`. A `0x` token needs at least one hexadecimal digit (either
      case) after the prefix; a `-0x` or `0X` token goes to the decimal
      branch and is rejected there. */
  function Imm(s: string): (res: Result<int>)
    ensures res.Err? ==> res.error == InvalidImmediate(Trim(s))
    ensures res.Ok? && HasHexPrefix(Trim(s)) ==> res.value >= 0
  {
    var t := Trim(s);
    if HasHexPrefix(t) then
      var ds := t[2..];
      if ds != [] && AllHex(ds) then Ok(HexValue(ds)) else Err(InvalidImmediate(t))
    else
      DecimalLiteral(t)
  }

  /** How an integer is written in decimal: `str(v)`. */
  function IntToDecimal(v: int): (s: string)
  {
    if v < 0 then "-" + NatToDecimal(-v) else NatToDecimal(v)
  }

  /** Surrounding whitespace is ignored. */
  lemma ImmStrips(s: string)
    ensures Imm(Trim(s)) == Imm(s)
  {
    TrimIdempotent(s);
  }

  lemma DecimalLiteralOf(n: nat)
    ensures DecimalLiteral(NatToDecimal(n)) == Ok(n)
    ensures DecimalLiteral("-" + NatToDecimal(n)) == Ok(-(n as int))
  {
    var ds := NatToDecimal(n);
    assert AllDecimal(ds);
    assert IsDecimalDigit(ds[0]);
    assert ("-" + ds)[1..] == ds;
    DecimalRoundTrip(n);
  }

  /** Every integer, written in decimal, is read back as itself. */
  lemma ImmDecimalRoundTrip(v: int)
    ensures Imm(IntToDecimal(v)) == Ok(v)
  {
    var s := IntToDecimal(v);
    var n: nat := if v < 0 then -v else v;
    var ds := NatToDecimal(n);
    assert s == if v < 0 then "-" + ds else ds;
    assert !IsSpace(s[0]) && !IsSpace(s[|s| - 1]) && !HasHexPrefix(s) by {
      assert IsDecimalDigit(ds[0]) && IsDecimalDigit(ds[|ds| - 1]);
      assert s[|s| - 1] == ds[|ds| - 1];
      if v >= 0 && |s| >= 2 { assert IsDecimalDigit(ds[1]); }
    }
    TrimFixed(s);
    DecimalLiteralOf(n);
  }

  /** Every natural number, written in hexadecimal after `0x`, is read back
      as itself. */
  lemma ImmHexRoundTrip(n: nat)
    ensures Imm("0x" + NatToHex(n)) == Ok(n)
  {
    var ds := NatToHex(n);
    var s := "0x" + ds;
    assert !IsSpace(s[0]) && !IsSpace(s[|s| - 1]) by {
      assert IsHexDigit(ds[|ds| - 1]);
      assert s[|s| - 1] == ds[|ds| - 1];
    }
    TrimFixed(s);
    assert HasHexPrefix(s);
    assert s[2..] == ds;
    assert AllHex(ds);
    HexRoundTrip(n);
  }

  /** A token without a digit is never an immediate: in particular the empty
      token and a bare `0x`, `-` or `+`. */
  lemma ImmNeedsDigit(s: string)
    requires forall i :: 0 <= i < |Trim(s)| ==> !IsDecimalDigit(Trim(s)[i])
    ensures Imm(s) == Err(InvalidImmediate(Trim(s)))
  {
    var t := Trim(s);
    if t != [] {
      assert !IsDecimalDigit(t[0]);
      if (t[0] == '-' || t[0] == '+') && |t| > 1 {
        assert !IsDecimalDigit(t[1..][0]);
      }
    }
  }
}
