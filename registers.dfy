/** The register table built by `RISCVAssembler.__init__` and the lookup
    `reg`: the 32 generic names `x0`..`x31` and the ABI names of the
    register table in the "RISC-V Assembly Programmer's Handbook" chapter of
    the RISC-V Unprivileged ISA Specification, version 20191213. */
module Registers {
  import opened Results
  import opened Text

  /** `range(32)`: the number of integer registers of RV32I. */
  const RegisterCount: nat := 32

  /** The generic name of register `i`: `f'x{i}'`. */
  function GenericName(i: nat): string
  {
    "x" + NatToDecimal(i)
  }

  /** The ABI names the constructor adds with `dict.update`. */
  const AbiNames: map<string, nat> := map[
    "zero" := 0, "ra" := 1, "sp" := 2, "gp" := 3, "tp" := 4,
    "t0" := 5, "t1" := 6, "t2" := 7,
    "s0" := 8, "fp" := 8, "s1" := 9,
    "a0" := 10, "a1" := 11, "a2" := 12, "a3" := 13, "a4" := 14, "a5" := 15,
    "a6" := 16, "a7" := 17,
    "s2" := 18, "s3" := 19, "s4" := 20, "s5" := 21, "s6" := 22, "s7" := 23,
    "s8" := 24, "s9" := 25, "s10" := 26, "s11" := 27,
    "t3" := 28, "t4" := 29, "t5" := 30, "t6" := 31]

  lemma GenericNameInjective(i: nat, j: nat)
    requires GenericName(i) == GenericName(j)
    ensures i == j
  {
    assert GenericName(i)[1..] == NatToDecimal(i);
    assert GenericName(j)[1..] == NatToDecimal(j);
    DecimalInjective(i, j);
  }

  /** The table after the first `n` rounds of the constructor's loop: it
      maps exactly `x0`..`x{n-1}`, each to its own number. */
  function GenericNames(n: nat): (m: map<string, nat>)
    ensures forall i :: 0 <= i < n ==> GenericName(i) in m && m[GenericName(i)] == i
    ensures forall k :: k in m ==> m[k] < n && exists i :: 0 <= i < n && k == GenericName(i)
  {
    assert forall i, j :: 0 <= i < n && 0 <= j < n && GenericName(i) == GenericName(j) ==> i == j by {
      forall i, j | 0 <= i < n && 0 <= j < n && GenericName(i) == GenericName(j) {
        GenericNameInjective(i, j);
      }
    }
    map i | 0 <= i < n :: GenericName(i) := i
  }

  /** One more round of the constructor's loop adds `x{i} := i`. */
  lemma GenericNamesStep(i: nat)
    ensures GenericNames(i)[GenericName(i) := i] == GenericNames(i + 1)
  {
    var before, after := GenericNames(i)[GenericName(i) := i], GenericNames(i + 1);
    forall k | k in after
      ensures k in before && before[k] == after[k]
    {
      GenericNamesLater(i, k);
    }
    forall k | k in before
      ensures k in after
    {
      if k != GenericName(i) {
        GenericNamesEarlier(i, k);
      }
    }
    SameEntries(before, after);
  }

  lemma SameEntries(a: map<string, nat>, b: map<string, nat>)
    requires forall k :: k in b ==> k in a && a[k] == b[k]
    requires forall k :: k in a ==> k in b
    ensures a == b
  {
  }

  lemma GenericNamesLater(i: nat, k: string)
    requires k in GenericNames(i + 1)
    ensures k in GenericNames(i)[GenericName(i) := i]
    ensures GenericNames(i)[GenericName(i) := i][k] == GenericNames(i + 1)[k]
  {
    var j :| 0 <= j < i + 1 && k == GenericName(j);
    if j < i && k == GenericName(i) {
      GenericNameInjective(j, i);
    }
  }

  lemma GenericNamesEarlier(i: nat, k: string)
    requires k in GenericNames(i)
    ensures k in GenericNames(i + 1)
  {
    var j :| 0 <= j < i && k == GenericName(j);
  }

  /** A name made of lower-case letters and digits only. */
  predicate Canonical(name: string)
  {
    name != [] && forall i :: 0 <= i < |name| ==> 'a' <= name[i] <= 'z' || '0' <= name[i] <= '9'
  }

  lemma AbiNamesShape()
    ensures forall k :: k in AbiNames ==> AbiNames[k] < 32 && Canonical(k) && k[0] != 'x'
  {
  }

  /** The finished table: the ABI names are added last, so they would win
      over a generic name of the same spelling (there is none). Every name
      in it maps to one of the 32 registers. */
  function Table(): (t: map<string, nat>)
    ensures forall name :: name in t ==> t[name] < RegisterCount
  {
    AbiNamesShape();
    GenericNames(RegisterCount) + AbiNames
  }

  /** `reg(r)`: strip, lower-case, look up. */
  function Reg(r: string): (res: Result<nat>)
    ensures res.Ok? ==> res.value < 32
    ensures res.Err? ==> res.error == UnknownRegister(Lower(Trim(r)))
  {
    var name := Lower(Trim(r));
    if name in Table() then Ok(Table()[name]) else Err(UnknownRegister(name))
  }

  lemma CanonicalNormal(name: string)
    requires Canonical(name)
    ensures Lower(Trim(name)) == name
  {
    TrimFixed(name);
    assert forall i :: 0 <= i < |name| ==> LowerChar(name[i]) == name[i];
  }

  /** `x0`..`x31` name registers 0..31 (`RegNormalised` adds any case
      and surrounding whitespace). */
  lemma RegGeneric(i: nat)
    requires i < 32
    ensures Reg(GenericName(i)) == Ok(i)
  {
    var name := GenericName(i);
    assert Canonical(name) by {
      assert name == "x" + NatToDecimal(i);
    }
    CanonicalNormal(name);
    AbiNamesShape();
    assert name !in AbiNames;
  }

  /** Every ABI name resolves to the number the table gives it; in
      particular `fp` and `s0` are both register 8. */
  lemma RegAbi(name: string)
    requires name in AbiNames
    ensures Reg(name) == Ok(AbiNames[name])
  {
    AbiNamesShape();
    CanonicalNormal(name);
  }

  /** `reg` succeeds exactly on the spellings whose stripped, lower-cased form
      is a generic or an ABI name. */
  lemma RegDefined(r: string)
    ensures Reg(r).Ok? <==>
      (exists i :: 0 <= i < 32 && Lower(Trim(r)) == GenericName(i)) || Lower(Trim(r)) in AbiNames
  {
    var name := Lower(Trim(r));
    if name in GenericNames(RegisterCount) {
      var i :| 0 <= i < 32 && name == GenericName(i);
    }
  }

  /** Stripping and lower-casing first changes nothing: `reg` only sees the
      normalised spelling. */
  lemma RegNormalised(r: string)
    ensures Reg(Lower(Trim(r))) == Reg(r)
  {
    LowerTrim(r);
    LowerIdempotent(Trim(r));
  }
}
