/** Machine words, bytes and the order that str_diff puts on byte strings. */
module Bytes {
  type byte = x: int | 0 <= x < 256
  type Text = seq<byte>

  const NL: byte := 10

  type u32 = x: int | 0 <= x < 0x1_0000_0000
  type u64 = x: int | 0 <= x < 0x1_0000_0000_0000_0000

  /** A C string or the null pointer. */
  datatype Maybe = None | Some(text: Text)

  /** The bytes of a text written in ASCII. */
  function Ascii(s: string): (t: Text)
    requires forall i :: 0 <= i < |s| ==> s[i] as int < 128
    ensures |t| == |s| && forall i :: 0 <= i < |s| ==> t[i] == s[i] as int
  {
    seq(|s|, i requires 0 <= i < |s| => s[i] as int)
  }

  /** A byte of a C string, the terminator included. Nothing behind it may be read. */
  function At(s: Text, i: nat): byte
    requires i <= |s|
  {
    if i == |s| then 0 else s[i]
  }

  /** What an unsigned long keeps of an integer result. */
  function Wrap64(x: int): (r: u64)
    ensures 0 <= x < 0x1_0000_0000_0000_0000 ==> r == x
    ensures -0x1_0000_0000_0000_0000 <= x < 0 ==> r == x + 0x1_0000_0000_0000_0000
    ensures 0x1_0000_0000_0000_0000 <= x < 0x2_0000_0000_0000_0000 ==> r == x - 0x1_0000_0000_0000_0000
    decreases x < 0, if x < 0 then -x else x
  {
    if x < 0 then Wrap64(x + 0x1_0000_0000_0000_0000)
    else if x >= 0x1_0000_0000_0000_0000 then Wrap64(x - 0x1_0000_0000_0000_0000)
    else x
  }

  /** Wrapping changes a number by a multiple of 2^64. */
  lemma {:induction false} WrapCongruent(x: int) returns (k: int)
    ensures x == Wrap64(x) + k * 0x1_0000_0000_0000_0000
    decreases x < 0, if x < 0 then -x else x
  {
    k := 0;
    if x < 0 {
      k := WrapCongruent(x + 0x1_0000_0000_0000_0000);
      k := k - 1;
    } else if x >= 0x1_0000_0000_0000_0000 {
      k := WrapCongruent(x - 0x1_0000_0000_0000_0000);
      k := k + 1;
    }
  }

  /** Strict lexicographic order on byte strings; a proper prefix comes first. */
  ghost predicate LexLess(s: Text, t: Text)
    decreases |s|
  {
    if t == [] then false
    else if s == [] then true
    else s[0] < t[0] || (s[0] == t[0] && LexLess(s[1..], t[1..]))
  }

  ghost predicate LexLeq(s: Text, t: Text) {
    s == t || LexLess(s, t)
  }

  lemma {:induction false} LexTrichotomy(s: Text, t: Text)
    ensures LexLess(s, t) || s == t || LexLess(t, s)
    ensures !(LexLess(s, t) && LexLess(t, s))
    ensures !LexLess(s, s)
  {
    if s != [] {
      LexTrichotomy(s[1..], s[1..]);
      if t != [] {
        LexTrichotomy(s[1..], t[1..]);
        assert s[0] == t[0] && s[1..] == t[1..] ==> s == t by {
          assert s == [s[0]] + s[1..] && t == [t[0]] + t[1..];
        }
      }
    }
  }

  lemma {:induction false} LexTransitive(s: Text, t: Text, u: Text)
    requires LexLess(s, t) && LexLess(t, u)
    ensures LexLess(s, u)
    decreases |s|
  {
    if s != [] && s[0] == t[0] && t[0] == u[0] {
      LexTransitive(s[1..], t[1..], u[1..]);
    }
  }

  /** Among strings of one length the order is decided before anything appended is looked at. */
  lemma {:induction false} LexAppend(s: Text, t: Text, a: Text, b: Text)
    requires |s| == |t| && LexLess(s, t)
    ensures LexLess(s + a, t + b)
    decreases |s|
  {
    assert (s + a)[1..] == s[1..] + a && (t + b)[1..] == t[1..] + b;
    if s[0] == t[0] {
      LexAppend(s[1..], t[1..], a, b);
    }
  }

  /** A common front does not matter. */
  lemma {:induction false} LexPrepend(p: Text, s: Text, t: Text)
    ensures LexLess(p + s, p + t) <==> LexLess(s, t)
    decreases |p|
  {
    if p == [] {
      assert p + s == s && p + t == t;
    } else {
      assert (p + s)[1..] == p[1..] + s && (p + t)[1..] == p[1..] + t;
      LexPrepend(p[1..], s, t);
    }
  }

  /** libbyte/str_diff.c on NUL-free strings: the difference of the first bytes that differ,
      the terminator counting as 0. */
  method StrDiff(s: Text, t: Text) returns (d: int)
    requires 0 !in s && 0 !in t
    ensures d < 0 <==> LexLess(s, t)
    ensures d == 0 <==> s == t
    ensures d > 0 <==> LexLess(t, s)
  {
    var i := 0;
    while true
      invariant i <= |s| && i <= |t| && s[..i] == t[..i]
      invariant LexLess(s, t) <==> LexLess(s[i..], t[i..])
      invariant LexLess(t, s) <==> LexLess(t[i..], s[i..])
      decreases |s| - i
    {
      var x: int := if i < |s| then s[i] else 0;
      var y: int := if i < |t| then t[i] else 0;
      if x != y || x == 0 {
        LexTrichotomy(s, t);
        return x - y;
      }
      assert s[i..][1..] == s[i + 1..] && t[i..][1..] == t[i + 1..];
      i := i + 1;
    }
  }
}
