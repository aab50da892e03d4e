/** libbyte's decimal numbers: fmt_ulong, fmt_uint0, scan_ulong. */
module Decimals {
  import opened Bytes

  const ZERO: byte := 48

  predicate IsDigit(c: byte) {
    '0' as int <= c <= '9' as int
  }

  predicate AllDigits(t: Text) {
    forall i :: 0 <= i < |t| ==> IsDigit(t[i])
  }

  /** u / 10 */
  function Tenth(u: nat): (q: nat)
    ensures u <= 9 ==> q == 0
    ensures u > 9 ==> 0 < q < u
  {
    u / 10
  }

  /** u % 10 */
  function Unit(u: nat): (c: nat)
    ensures c < 10 && Tenth(u) * 10 + c == u
  {
    u % 10
  }

  /** The decimal numeral of u: no zero in front, but at least one digit. */
  function Decimal(u: nat): (t: Text)
    ensures |t| >= 1 && AllDigits(t)
  {
    (if u > 9 then Decimal(Tenth(u)) else []) + [ZERO + Unit(u)]
  }

  /** What a string of digits denotes. */
  function Number(t: Text): nat
    requires AllDigits(t)
  {
    if t == [] then 0 else Number(t[..|t| - 1]) * 10 + (t[|t| - 1] - '0' as int)
  }

  function DigitsInFront(t: Text): (k: nat)
    ensures k <= |t| && AllDigits(t[..k]) && (k < |t| ==> !IsDigit(t[k]))
  {
    if t == [] || !IsDigit(t[0]) then 0
    else
      var k := 1 + DigitsInFront(t[1..]);
      assert forall i :: 1 <= i < k ==> t[i] == t[1..][..k - 1][i - 1];
      k
  }

  lemma {:induction false} NumberOfDecimal(u: nat)
    ensures Number(Decimal(u)) == u
  {
    hide Tenth, Unit;
    var t, q, c := Decimal(u), Tenth(u), Unit(u);
    var front := if u > 9 then Decimal(q) else [];
    if u > 9 {
      NumberOfDecimal(q);
    }
    assert t == front + [ZERO + c] && t[..|t| - 1] == front;
    assert Number(front) == q;
  }

  lemma TenTimes(n: nat, c: nat)
    requires c < 10
    ensures Tenth(n * 10 + c) == n && Unit(n * 10 + c) == c
  {
  }

  /** And back: a string of digits without a superfluous zero is the numeral of what it denotes. */
  lemma {:induction false} DecimalOfNumber(t: Text)
    requires AllDigits(t) && |t| >= 1 && (|t| > 1 ==> t[0] != ZERO)
    ensures Decimal(Number(t)) == t
  {
    hide Tenth, Unit;
    var front: Text, c := t[..|t| - 1], t[|t| - 1] - ZERO;
    assert t == front + [ZERO + c];
    var n := Number(front);
    TenTimes(n, c);
    if |t| > 1 {
      DecimalOfNumber(front);
      assert front[0] == t[0];
      assert Decimal(0) == [ZERO];
      assert n != 0;
      assert Decimal(Number(t)) == Decimal(n) + [ZERO + c];
    } else {
      assert front == [] && Number(t) == c;
    }
  }

  /** Zeros in front do not matter. */
  lemma {:induction false} PaddingIsFree(k: nat, t: Text)
    requires AllDigits(t)
    ensures AllDigits(seq(k, _ => ZERO) + t)
    ensures Number(seq(k, _ => ZERO) + t) == Number(t)
    decreases |t| + k
  {
    var z: Text := seq(k, _ => ZERO);
    var s := z + t;
    if t != [] {
      assert s[..|s| - 1] == z + t[..|t| - 1];
      PaddingIsFree(k, t[..|t| - 1]);
    } else if k > 0 {
      assert s[..|s| - 1] == seq(k - 1, _ => ZERO) + [];
      PaddingIsFree(k - 1, []);
    }
  }

  /** Wrapping at every step is wrapping once. */
  lemma {:induction false} WrapStep(x: nat, c: nat)
    ensures Wrap64(Wrap64(x) * 10 + c) == Wrap64(x * 10 + c)
  {
    var k := WrapCongruent(x);
    var l := WrapCongruent(Wrap64(x) * 10 + c);
    var m := WrapCongruent(x * 10 + c);
    var a, b := Wrap64(Wrap64(x) * 10 + c), Wrap64(x * 10 + c);
    assert b - a == (10 * k + l - m) * 0x1_0000_0000_0000_0000;
  }

  lemma {:induction false} DigitsStop(t: Text, rest: Text)
    requires AllDigits(t) && (rest == [] || !IsDigit(rest[0]))
    ensures DigitsInFront(t + rest) == |t|
  {
    if t == [] {
      assert t + rest == rest;
    } else {
      assert (t + rest)[1..] == t[1..] + rest;
      DigitsStop(t[1..], rest);
    }
  }

  /** fmt_ulong, which only counts when s is the null pointer. */
  method FmtUlong(s: array?<byte>, at: nat, u0: u64) returns (len: nat)
    requires s != null ==> at + |Decimal(u0)| <= s.Length
    modifies s
    ensures len == |Decimal(u0)|
    ensures s != null ==> s[at..at + len] == Decimal(u0)
    ensures s != null ==> forall i :: 0 <= i < s.Length && !(at <= i < at + len) ==> s[i] == old(s[i])
  {
    hide Tenth, Unit;
    len := 1;
    var q: nat := u0;
    while q > 9
      invariant len >= 1 && |Decimal(u0)| == len - 1 + |Decimal(q)|
    {
      len := len + 1;
      q := Tenth(q);
    }
    if s != null {
      WriteDecimal(s, at, len, u0);
    }
  }

  lemma {:induction false} LastDigit(whole: Text, k: nat, u: nat)
    requires k <= |whole| && Decimal(u) == whole[..k]
    ensures k > 0 && whole[k - 1] == ZERO + Unit(u)
    ensures if Tenth(u) == 0 then k == 1 else Decimal(Tenth(u)) == whole[..k - 1]
  {
    hide Tenth, Unit;
    var front := if u > 9 then Decimal(Tenth(u)) else [];
    assert whole[..k] == front + [ZERO + Unit(u)];
    assert whole[k - 1] == whole[..k][k - 1];
    assert whole[..k - 1] == whole[..k][..k - 1];
  }

  /** The second loop of fmt_ulong: the digits, from the back. */
  method WriteDecimal(s: array<byte>, at: nat, len: nat, u0: nat)
    requires len == |Decimal(u0)| && at + len <= s.Length
    modifies s
    ensures s[at..at + len] == Decimal(u0)
    ensures forall i :: 0 <= i < s.Length && !(at <= i < at + len) ==> s[i] == old(s[i])
  {
    hide Tenth, Unit, Decimal;
    var u, p, more := u0, at + len, true;
    ghost var whole := Decimal(u0);
    while more
      invariant 0 <= u && at <= p <= at + len && more == (p > at)
      invariant more ==> Decimal(u) == whole[..p - at]
      invariant forall i :: p <= i < at + len ==> s[i] == whole[i - at]
      invariant forall i :: 0 <= i < s.Length && !(at <= i < at + len) ==> s[i] == old(s[i])
      decreases p
    {
      LastDigit(whole, p - at, u);
      p := p - 1;
      s[p] := ZERO + Unit(u);
      u := Tenth(u);
      more := u != 0;
    }
    assert s[at..at + len] == whole;
  }

  /** fmt_uint0: padded with zeros to n characters; a longer numeral is not cut. */
  method FmtUint0(s: array?<byte>, u: u32, n: u32) returns (len: nat)
    requires s != null ==> |Decimal(u)| <= s.Length && n <= s.Length
    modifies s
    ensures len == if n > |Decimal(u)| then n else |Decimal(u)|
    ensures s != null ==> AllDigits(s[..len]) && Number(s[..len]) == u
    ensures s != null ==> s[..len] == seq(len - |Decimal(u)|, _ => ZERO) + Decimal(u)
  {
    hide Decimal, Number;
    len := FmtUlong(null, 0, u);
    var p := 0;
    while len < n
      invariant len == |Decimal(u)| + p
      invariant len <= n || p == 0
      invariant s != null ==> s[..p] == seq(p, _ => ZERO)
    {
      if s != null {
        s[p] := ZERO;
      }
      p := p + 1;
      len := len + 1;
    }
    if s != null {
      var l := FmtUlong(s, p, u);
      PaddingIsFree(p, Decimal(u));
      NumberOfDecimal(u);
      assert s[..p] == seq(p, _ => ZERO);
      assert s[..len] == s[..p] + s[p..p + l];
    }
  }

  /** scan_ulong on a C string: the digits in front, their number modulo 2^64. */
  method ScanUlong(s: Text) returns (pos: nat, u: u64)
    ensures pos == DigitsInFront(s)
    ensures u == Wrap64(Number(s[..pos]))
  {
    pos, u := 0, 0;
    while IsDigit(At(s, pos))
      invariant pos <= |s| && AllDigits(s[..pos])
      invariant DigitsInFront(s) == pos + DigitsInFront(s[pos..])
      invariant u == Wrap64(Number(s[..pos]))
      decreases |s| - pos
    {
      var c := s[pos] - ZERO;
      WrapStep(Number(s[..pos]), c);
      assert s[..pos + 1][..pos] == s[..pos];
      assert s[pos..][1..] == s[pos + 1..];
      u := Wrap64(u * 10 + c);
      pos := pos + 1;
    }
  }

  /** Written and read back: every number below 2^64, whatever comes after it, as long as that does
      not start with a digit. */
  lemma {:induction false} ReadsBack(u: u64, rest: Text)
    requires rest == [] || !IsDigit(rest[0])
    ensures var s, k := Decimal(u) + rest, |Decimal(u)|;
      DigitsInFront(s) == k && Wrap64(Number(s[..k])) == u
  {
    DigitsStop(Decimal(u), rest);
    NumberOfDecimal(u);
    assert (Decimal(u) + rest)[..|Decimal(u)|] == Decimal(u);
  }
}
