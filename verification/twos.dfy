/** `twos_complement` of the hardware model helper: flip every digit of a binary
    string, parse it in base 2, add one and print the sum in binary, zero-padded
    to at least `total_bits` digits. */
module TwosComplement {
  import opened Results

  predicate IsBinary(s: string) {
    forall i :: 0 <= i < |s| ==> s[i] == '0' || s[i] == '1'
  }

  predicate AllZero(s: string) {
    forall i :: 0 <= i < |s| ==> s[i] == '0'
  }

  function Zeros(n: nat): (z: string)
    ensures |z| == n && AllZero(z) && IsBinary(z)
  {
    seq(n, _ => '0')
  }

  function Pow2(n: nat): (p: nat)
    ensures p >= 1
  {
    if n == 0 then 1 else 2 * Pow2(n - 1)
  }

  function Digit(bit: bool): char {
    if bit then '1' else '0'
  }

  /** `int(s, 2)` for a string of binary digits, most significant digit first
      (only applied to strings of '0' and '1'). */
  function Value(s: string): (v: nat)
    ensures v < Pow2(|s|)
  {
    if s == [] then 0 else 2 * Value(s[..|s| - 1]) + (if s[|s| - 1] == '1' then 1 else 0)
  }

  /** The generator expression: '1' for every '0', '0' for every other character. */
  function Invert(s: string): (r: string)
    ensures |r| == |s| && IsBinary(r)
    ensures forall i :: 0 <= i < |s| ==> (r[i] == '1' <==> s[i] == '0')
  {
    seq(|s|, i requires 0 <= i < |s| => if s[i] == '0' then '1' else '0')
  }

  /** `format(v, 'b')`: binary digits without leading zeros ("0" for zero). */
  function Binary(v: nat): (s: string)
    ensures IsBinary(s) && |s| >= 1 && Value(s) == v
    ensures v > 0 ==> s[0] == '1'
  {
    if v < 2 then [Digit(v == 1)]
    else
      var high := Binary(v / 2);
      var s := high + [Digit(v % 2 == 1)];
      assert s[..|s| - 1] == high;
      s
  }

  /** The `0{total_bits}` part of the format: zeros on the left up to the width, never truncating. */
  function PadLeft(s: string, width: nat): (r: string)
    ensures |r| == if |s| >= width then |s| else width
    ensures r[|r| - |s|..] == s && AllZero(r[..|r| - |s|])
  {
    if |s| >= width then s else Zeros(width - |s|) + s
  }

  /** `twos_complement(binary_str, total_bits)`; None where Python raises (`int('', 2)`). */
  function Complement(binaryStr: string, totalBits: nat): (r: Option<string>)
    ensures r.None? <==> binaryStr == []
    ensures r.Some? ==> IsBinary(r.value) && |r.value| >= totalBits
  {
    if binaryStr == [] then None
    else Some(PadLeft(Binary(Value(Invert(binaryStr)) + 1), totalBits))
  }

  /** The digits printed are those of int(flipped digits, 2) + 1. */
  lemma ComplementValue(binaryStr: string, totalBits: nat)
    requires binaryStr != []
    ensures Value(Complement(binaryStr, totalBits).value) == Value(Invert(binaryStr)) + 1
  {
    var b := Binary(Value(Invert(binaryStr)) + 1);
    PaddedValue(b, PadLeft(b, totalBits));
  }

  /** Leading zeros do not change the value of a binary string. */
  lemma {:induction false} PaddedValue(s: string, r: string)
    requires IsBinary(s) && |s| <= |r|
    requires r[|r| - |s|..] == s && AllZero(r[..|r| - |s|])
    ensures IsBinary(r) && Value(r) == Value(s)
  {
    if s == [] {
      ZerosValue(r);
    } else {
      var r', s' := r[..|r| - 1], s[..|s| - 1];
      assert r'[|r'| - |s'|..] == s';
      assert r'[..|r'| - |s'|] == r[..|r| - |s|];
      PaddedValue(s', r');
    }
  }

  lemma {:induction false} ZerosValue(z: string)
    requires AllZero(z)
    ensures IsBinary(z) && Value(z) == 0
  {
    if z != [] {
      ZerosValue(z[..|z| - 1]);
    }
  }

  /** A binary string is worth zero exactly when it has no '1'. */
  lemma {:induction false} ValueZero(s: string)
    requires IsBinary(s)
    ensures Value(s) == 0 <==> AllZero(s)
  {
    if s != [] {
      var s' := s[..|s| - 1];
      ValueZero(s');
      if AllZero(s) {
        assert AllZero(s');
      }
      if AllZero(s') && s[|s| - 1] == '0' {
        assert forall i :: 0 <= i < |s| ==> s[i] == (s' + [s[|s| - 1]])[i];
      }
    }
  }

  /** Flipping every digit turns the value v of an n-digit string into 2^n - 1 - v. */
  lemma {:induction false} InvertValue(s: string)
    requires IsBinary(s)
    ensures Value(Invert(s)) + Value(s) == Pow2(|s|) - 1
  {
    if s != [] {
      var s' := s[..|s| - 1];
      assert Invert(s)[..|s| - 1] == Invert(s');
      InvertValue(s');
    }
  }

  /** Two binary strings of one length with one value are equal. */
  lemma {:induction false} ValueInjective(s: string, t: string)
    requires IsBinary(s) && IsBinary(t) && |s| == |t|
    requires Value(s) == Value(t)
    ensures s == t
  {
    if s != [] {
      var n := |s| - 1;
      assert s[n] == t[n];
      ValueInjective(s[..n], t[..n]);
      assert s == s[..n] + [s[n]] && t == t[..n] + [t[n]];
    }
  }

  /** A positive value below 2^n needs at most n binary digits. */
  lemma {:induction false} BinaryLength(v: nat, n: nat)
    requires 1 <= v < Pow2(n)
    ensures |Binary(v)| <= n
  {
    if v >= 2 {
      BinaryLength(v / 2, n - 1);
    }
  }

  /** 2^n is printed as '1' followed by n zeros. */
  lemma {:induction false} BinaryOfPow2(n: nat)
    ensures Binary(Pow2(n)) == ['1'] + Zeros(n)
  {
    if n > 0 {
      BinaryOfPow2(n - 1);
      BinaryOfPow2Step(n);
    } else {
      assert Binary(Pow2(0)) == Binary(1) == ['1'];
    }
  }

  /** The inductive step: one more power of two appends a '0'. */
  lemma BinaryOfPow2Step(n: nat)
    requires n > 0
    requires Binary(Pow2(n - 1)) == ['1'] + Zeros(n - 1)
    ensures Binary(Pow2(n)) == ['1'] + Zeros(n)
  {
    var q, z := Pow2(n - 1), Zeros(n - 1);
    assert Pow2(n) == 2 * q;
    assert (2 * q) / 2 == q && (2 * q) % 2 == 0;
    assert Binary(2 * q) == Binary(q) + ['0'];
    assert Zeros(n) == z + ['0'];
    assert (['1'] + z) + ['0'] == ['1'] + (z + ['0']);
  }

  /** For an n-digit string that is not all zeros, the result has n digits and the value 2^n - val(s). */
  lemma ComplementOfNonZero(s: string)
    requires IsBinary(s) && !AllZero(s)
    ensures Complement(s, |s|).Some?
    ensures |Complement(s, |s|).value| == |s|
    ensures Value(Complement(s, |s|).value) == Pow2(|s|) - Value(s)
  {
    var n := |s|;
    InvertValue(s);
    ValueZero(s);
    var v := Value(Invert(s)) + 1;
    assert v == Pow2(n) - Value(s);
    BinaryLength(v, n);
    ComplementValue(s, n);
  }

  /** Applying the helper twice with total_bits = n gives back any n-digit string that is not all zeros. */
  lemma ComplementInvolution(s: string)
    requires IsBinary(s) && !AllZero(s)
    ensures Complement(s, |s|).Some?
    ensures Complement(Complement(s, |s|).value, |s|) == Some(s)
  {
    ComplementOfNonZero(s);
    var t := Complement(s, |s|).value;
    ValueZero(t);
    ComplementOfNonZero(t);
    ValueInjective(Complement(t, |t|).value, s);
  }

  /** An all-zero n-digit string gives '1' followed by n zeros: n + 1 digits, since the padding never truncates. */
  lemma ComplementOfZero(n: nat)
    requires n > 0
    ensures Complement(Zeros(n), n) == Some(['1'] + Zeros(n))
  {
    InvertValue(Zeros(n));
    ZerosValue(Zeros(n));
    ComplementValue(Zeros(n), n);
    BinaryOfPow2(n);
  }
}
