/** libtime's packed times and the '@' labels made from them. The text order of labels is
    the order of times: svlogd finds its oldest file by comparing names. */
module Labels {
  import opened Bytes
  import opened Tai

  /** The low k base-b digits of x, most significant first. */
  function Digits(b: nat, x: nat, k: nat): (d: seq<nat>)
    requires b > 1
    ensures |d| == k && forall i :: 0 <= i < k ==> d[i] < b
    decreases k, b, x
  {
    if k == 0 then [] else Digits(b, x / b, k - 1) + [x % b]
  }

  function Power(b: nat, k: nat): nat {
    if k == 0 then 1 else b * Power(b, k - 1)
  }

  function FromDigits(b: nat, d: seq<nat>): nat {
    if d == [] then 0 else FromDigits(b, d[..|d| - 1]) * b + d[|d| - 1]
  }

  lemma {:induction false} DigitsRoundTrip(b: nat, x: nat, k: nat)
    requires b > 1 && x < Power(b, k)
    ensures FromDigits(b, Digits(b, x, k)) == x
    decreases k
  {
    if k > 0 {
      QuotientBelow(b, x, Power(b, k - 1));
      DigitsRoundTrip(b, x / b, k - 1);
      var d := Digits(b, x / b, k - 1);
      assert Digits(b, x, k) == d + [x % b];
      assert (d + [x % b])[..k - 1] == d;
      DivBack(x, b);
    }
  }

  lemma DivBack(x: nat, b: nat)
    requires b > 0
    ensures x / b * b + x % b == x
  {
  }

  lemma QuotientBelow(b: nat, x: nat, p: nat)
    requires b > 0 && x < b * p
    ensures x / b < p
  {
    assert x == b * (x / b) + x % b;
    if x / b >= p {
      MulMono(b, p, x / b);
    }
  }

  lemma MulMono(b: nat, p: nat, q: nat)
    requires p <= q
    ensures b * p <= b * q
  {
  }

  /** Splitting off the low j digits. */
  lemma {:induction false} DigitsSplit(b: nat, x: nat, y: nat, k: nat, j: nat)
    requires b > 1 && y < Power(b, j)
    ensures Digits(b, x * Power(b, j) + y, k + j) == Digits(b, x, k) + Digits(b, y, j)
    decreases j
  {
    if j == 0 {
      assert Digits(b, x, k) + [] == Digits(b, x, k);
    } else {
      var p := Power(b, j - 1);
      QuotientBelow(b, y, p);
      var z := x * p + y / b;
      assert x * Power(b, j) + y == z * b + y % b by {
        assert x * (b * p) == x * p * b;
        assert y == y / b * b + y % b;
        Distribute(x * p, y / b, b);
      }
      DivMod(z, y % b, b);
      DigitsSplit(b, x, y / b, k, j - 1);
    }
  }

  lemma Distribute(p: nat, q: nat, b: nat)
    ensures (p + q) * b == p * b + q * b
  {
  }

  lemma DivMod(q: nat, r: nat, b: nat)
    requires r < b
    ensures (q * b + r) / b == q && (q * b + r) % b == r
  {
    var x := q * b + r;
    assert x == x / b * b + x % b;
    if x / b < q {
      MulMono(b, x / b + 1, q);
    } else if x / b > q {
      MulMono(b, q + 1, x / b);
    }
  }

  ghost function BigEndian(x: nat, k: nat): Text {
    Digits(256, x, k)
  }

  /** libtime/tai_pack.c: the eight bytes of x at s + off, the rest of s untouched. */
  method TaiPack(s: array<byte>, off: nat, x0: u64)
    requires off + 8 <= s.Length
    modifies s
    ensures s[off..off + 8] == BigEndian(x0, 8)
    ensures s[..off] == old(s[..off]) && s[off + 8..] == old(s[off + 8..])
  {
    var x: nat := x0;
    s[off + 7] := x % 256;
    x := x / 256;
    s[off + 6] := x % 256;
    x := x / 256;
    s[off + 5] := x % 256;
    x := x / 256;
    s[off + 4] := x % 256;
    x := x / 256;
    s[off + 3] := x % 256;
    x := x / 256;
    s[off + 2] := x % 256;
    x := x / 256;
    s[off + 1] := x % 256;
    x := x / 256;
    s[off] := x % 256;
    EightDigits(x0);
  }

  lemma FourDigits(x: nat)
    ensures Digits(256, x, 4) ==
            [x / 256 / 256 / 256 % 256, x / 256 / 256 % 256, x / 256 % 256, x % 256]
  {
    assert Digits(256, x / 256 / 256 / 256 / 256, 0) == [];
    assert Digits(256, x / 256 / 256 / 256, 1) == [x / 256 / 256 / 256 % 256];
    assert Digits(256, x / 256 / 256, 2) == [x / 256 / 256 / 256 % 256, x / 256 / 256 % 256];
    assert Digits(256, x / 256, 3) == [x / 256 / 256 / 256 % 256, x / 256 / 256 % 256, x / 256 % 256];
  }

  lemma EightDigits(x: nat)
    ensures var y := x / 256 / 256 / 256 / 256;
            Digits(256, x, 8) ==
            [y / 256 / 256 / 256 % 256, y / 256 / 256 % 256, y / 256 % 256, y % 256,
             x / 256 / 256 / 256 % 256, x / 256 / 256 % 256, x / 256 % 256, x % 256]
  {
    var y := x / 256 / 256 / 256 / 256;
    FourDigits(y);
    assert Digits(256, x / 256 / 256 / 256, 5) == Digits(256, y, 4) + [x / 256 / 256 / 256 % 256];
    assert Digits(256, x / 256 / 256, 6) == Digits(256, x / 256 / 256 / 256, 5) + [x / 256 / 256 % 256];
    assert Digits(256, x / 256, 7) == Digits(256, x / 256 / 256, 6) + [x / 256 % 256];
  }

  /** The low four bytes of x at s + off, as taia_pack stores each fraction. */
  method PackFour(s: array<byte>, off: nat, x0: u64)
    requires off + 4 <= s.Length
    modifies s
    ensures s[off..off + 4] == BigEndian(x0, 4)
    ensures s[..off] == old(s[..off]) && s[off + 4..] == old(s[off + 4..])
  {
    var x: nat := x0;
    s[off + 3] := x % 256;
    x := x / 256;
    s[off + 2] := x % 256;
    x := x / 256;
    s[off + 1] := x % 256;
    x := x / 256;
    s[off] := x % 256;
    FourDigits(x0);
  }

  /** libtime/taia_pack.c: seconds, nanoseconds and attoseconds, big-endian one after another. */
  method TaiaPack(s: array<byte>, t: Taia)
    requires s.Length >= 16
    modifies s
    ensures s[..16] == BigEndian(t.sec, 8) + BigEndian(t.nano, 4) + BigEndian(t.atto, 4)
    ensures s[16..] == old(s[16..])
  {
    TaiPack(s, 0, t.sec);
    assert s[0..8] == BigEndian(t.sec, 8);
    PackFour(s, 12, t.atto);
    assert s[12..16] == BigEndian(t.atto, 4);
    assert s[0..8] == s[..12][0..8];
    ghost var tail := s[12..];
    PackFour(s, 8, t.nano);
    assert s[0..8] == s[..8];
    assert s[12..16] == s[12..][..4] == tail[..4];
    assert s[..16] == s[0..8] + s[8..12] + s[12..16];
    assert s[16..] == s[12..][4..];
  }

  /** libtime/tai_unpack.c: the number whose big-endian bytes are s[0..8). */
  method TaiUnpack(s: Text) returns (t: u64)
    requires |s| >= 8
    ensures t == FromDigits(256, s[..8])
  {
    var x := s[0] as int;
    x := Wrap64(x * 256);
    x := Wrap64(x + s[1]);
    x := Wrap64(x * 256);
    x := Wrap64(x + s[2]);
    x := Wrap64(x * 256);
    x := Wrap64(x + s[3]);
    x := Wrap64(x * 256);
    x := Wrap64(x + s[4]);
    x := Wrap64(x * 256);
    x := Wrap64(x + s[5]);
    x := Wrap64(x * 256);
    x := Wrap64(x + s[6]);
    x := Wrap64(x * 256);
    x := Wrap64(x + s[7]);
    t := x;
    FromEight(s[..8]);
  }

  lemma FromEight(s: seq<nat>)
    requires |s| == 8
    ensures FromDigits(256, s) ==
            ((((((s[0] * 256 + s[1]) * 256 + s[2]) * 256 + s[3]) * 256 + s[4]) * 256 + s[5]) * 256 + s[6]) * 256 + s[7]
  {
    assert s[..7][..6] == s[..6] && s[..6][..5] == s[..5] && s[..5][..4] == s[..4] && s[..4][..3] == s[..3];
    assert s[..3][..2] == s[..2] && s[..2][..1] == s[..1] && s[..1][..0] == [];
    assert FromDigits(256, s[..1]) == s[0];
    assert FromDigits(256, s[..2]) == s[0] * 256 + s[1];
    assert FromDigits(256, s[..3]) == FromDigits(256, s[..2]) * 256 + s[2];
    assert FromDigits(256, s[..4]) == FromDigits(256, s[..3]) * 256 + s[3];
    assert FromDigits(256, s[..5]) == FromDigits(256, s[..4]) * 256 + s[4];
    assert FromDigits(256, s[..6]) == FromDigits(256, s[..5]) * 256 + s[5];
    assert FromDigits(256, s[..7]) == FromDigits(256, s[..6]) * 256 + s[6];
  }

  /** What is packed is what is unpacked. */
  lemma PackUnpack(x: u64, s: Text)
    requires |s| >= 8 && s[..8] == BigEndian(x, 8)
    ensures FromDigits(256, s[..8]) == x
  {
    assert Power(256, 8) == 0x1_0000_0000_0000_0000;
    DigitsRoundTrip(256, x, 8);
  }

  function Hex(d: nat): byte
    requires d < 16
  {
    if d < 10 then 48 + d else 87 + d
  }

  function HexText(d: seq<nat>): (r: Text)
    requires forall i :: 0 <= i < |d| ==> d[i] < 16
    ensures |r| == |d| && forall i :: 0 <= i < |d| ==> r[i] == Hex(d[i])
  {
    if d == [] then [] else [Hex(d[0])] + HexText(d[1..])
  }

  /** Seconds and nanoseconds as one number: what a label shows of a time. */
  ghost function Moment(t: Taia): nat {
    t.sec * 0x1_0000_0000 + t.nano
  }

  /** "@" and the 24 hexadecimal digits of the moment. */
  ghost function Label(t: Taia): Text {
    [64] + HexText(Digits(16, Moment(t), 24))
  }

  /** Each byte is two hexadecimal digits. */
  lemma {:induction false} HexPair(x: nat, k: nat, i: nat)
    requires i < k
    ensures Digits(16, x, 2 * k)[2 * i] == Digits(256, x, k)[i] / 16
    ensures Digits(16, x, 2 * k)[2 * i + 1] == Digits(256, x, k)[i] % 16
    decreases k
  {
    assert x / 16 / 16 == x / 256 && x / 16 % 16 == x % 256 / 16 && x % 16 == x % 256 % 16;
    var d := Digits(16, x / 256, 2 * k - 2);
    assert Digits(16, x / 16, 2 * k - 1) == d + [x / 16 % 16];
    assert Digits(16, x, 2 * k) == d + [x / 16 % 16] + [x % 16];
    if i < k - 1 {
      HexPair(x / 256, k - 1, i);
    }
  }

  lemma PackedMoment(t: Taia)
    requires t.nano < 0x1_0000_0000
    ensures BigEndian(t.sec, 8) + BigEndian(t.nano, 4) == Digits(256, Moment(t), 12)
  {
    assert Power(256, 4) == 0x1_0000_0000;
    DigitsSplit(256, t.sec, t.nano, 8, 4);
  }

  /** The loop of fmt_taia: the bytes of m written out as hexadecimal digits from s[1] on. */
  method HexLoop(s: array<byte>, pack: array<byte>, n: nat, ghost m: nat)
    requires s != pack && s.Length >= 2 * n + 1 && pack.Length >= n
    requires pack[..n] == Digits(256, m, n)
    modifies s
    ensures s[1..2 * n + 1] == HexText(Digits(16, m, 2 * n))
    ensures s[0] == old(s[0]) && s[2 * n + 1..] == old(s[2 * n + 1..])
  {
    var i := 0;
    while i < n
      invariant 0 <= i <= n
      invariant pack[..n] == Digits(256, m, n)
      invariant forall j :: 0 <= j < 2 * i ==> s[j + 1] == Hex(Digits(16, m, 2 * n)[j])
      invariant s[0] == old(s[0]) && s[2 * n + 1..] == old(s[2 * n + 1..])
    {
      HexPair(m, n, i);
      assert pack[i] == pack[..n][i];
      s[i * 2 + 1] := Hex(pack[i] / 16 % 16);
      s[i * 2 + 2] := Hex(pack[i] % 16);
      i := i + 1;
    }
    assert s[1..2 * n + 1] == HexText(Digits(16, m, 2 * n));
  }

  /** libtime/fmt_ptime.c, fmt_taia: writes the label of t into s[0..25). */
  method FmtTaia(s: array<byte>, t: Taia)
    requires s.Length >= 25 && t.nano < 0x1_0000_0000
    modifies s
    ensures s[..25] == Label(t)
    ensures s[25..] == old(s[25..])
  {
    var pack := new byte[16];
    TaiaPack(pack, t);
    PackedMoment(t);
    assert pack[..12] == pack[..16][..12];
    s[0] := 64;
    HexLoop(s, pack, 12, Moment(t));
    assert s[..25] == [s[0]] + s[1..25];
  }

  /** Digits, or letters from 'a' to 'f'. */
  predicate IsHex(t: Text) {
    forall i :: 0 <= i < |t| ==> 48 <= t[i] <= 57 || 97 <= t[i] <= 102
  }

  /** Reading hexadecimal text. */
  function HexDigits(t: Text): (d: seq<nat>)
    requires IsHex(t)
    ensures |d| == |t| && forall i :: 0 <= i < |t| ==> d[i] == if t[i] <= 57 then t[i] - 48 else t[i] - 97 + 10
  {
    if t == [] then [] else [if t[0] <= 57 then t[0] - 48 else t[0] - 87] + HexDigits(t[1..])
  }

  lemma HexIsHex(d: seq<nat>)
    requires forall i :: 0 <= i < |d| ==> d[i] < 16
    ensures IsHex(HexText(d)) && HexDigits(HexText(d)) == d
  {
    hide HexText, HexDigits;
    var t := HexText(d);
    assert forall i :: 0 <= i < |t| ==> t[i] == Hex(d[i]);
    assert |HexDigits(t)| == |d| && forall i :: 0 <= i < |d| ==> HexDigits(t)[i] == d[i];
  }

  lemma HexLetter(d: nat)
    requires d < 16
    ensures Hex(d) == "0123456789abcdef"[d] as int
  {
    var letters := "0123456789abcdef";
    assert letters[0] == '0' && letters[1] == '1' && letters[2] == '2' && letters[3] == '3';
    assert letters[4] == '4' && letters[5] == '5' && letters[6] == '6' && letters[7] == '7';
    assert letters[8] == '8' && letters[9] == '9' && letters[10] == 'a' && letters[11] == 'b';
    assert letters[12] == 'c' && letters[13] == 'd' && letters[14] == 'e' && letters[15] == 'f';
  }

  /** A label is "@" and 24 hexadecimal digits in lower case, and tells the time: the first sixteen
      denote the second, the last eight the nanosecond. */
  lemma LabelTells(t: Taia)
    requires t.nano < 0x1_0000_0000
    ensures var l := Label(t);
            && |l| == 25 && l[0] == '@' as int && IsHex(l[1..])
            && FromDigits(16, HexDigits(l[1..17])) == t.sec && FromDigits(16, HexDigits(l[17..])) == t.nano
  {
    var l, d, a, b := Label(t), Digits(16, Moment(t), 24), Digits(16, t.sec, 16), Digits(16, t.nano, 8);
    PowersOf16();
    DigitsSplit(16, t.sec, t.nano, 16, 8);
    DigitsRoundTrip(16, t.sec, 16);
    DigitsRoundTrip(16, t.nano, 8);
    assert d == a + b;
    hide *;
    HexIsHex(d);
    HexIsHex(a);
    HexIsHex(b);
    LabelParts(t);
  }

  lemma LabelParts(t: Taia)
    requires Digits(16, Moment(t), 24) == Digits(16, t.sec, 16) + Digits(16, t.nano, 8)
    ensures var l := Label(t);
            && |l| == 25 && l[0] == '@' as int && l[1..] == HexText(Digits(16, Moment(t), 24))
            && l[1..17] == HexText(Digits(16, t.sec, 16)) && l[17..] == HexText(Digits(16, t.nano, 8))
  {
    hide HexText, Digits;
    var l, a, b := Label(t), Digits(16, t.sec, 16), Digits(16, t.nano, 8);
    assert forall i :: 0 <= i < 16 ==> l[1..17][i] == Hex((a + b)[i]);
    assert forall i :: 0 <= i < 8 ==> l[17..][i] == Hex((a + b)[16 + i]);
  }

  /** Digit by digit. */
  lemma LabelLetters(t: Taia, i: nat)
    requires i < 24
    ensures Label(t)[i + 1] == "0123456789abcdef"[Digits(16, Moment(t), 24)[i]] as int
  {
    HexLetter(Digits(16, Moment(t), 24)[i]);
  }

  lemma PowersOf16()
    ensures Power(16, 8) == 0x1_0000_0000 && Power(16, 16) == 0x1_0000_0000_0000_0000
  {
    assert Power(16, 4) == 0x1_0000;
    assert Power(16, 12) == 0x1_0000_0000_0000;
  }

  lemma {:induction false} HexTextConcat(d: seq<nat>, e: nat)
    requires e < 16 && forall i :: 0 <= i < |d| ==> d[i] < 16
    ensures HexText(d + [e]) == HexText(d) + [Hex(e)]
  {
  }

  lemma {:induction false} HexOrder(x: nat, y: nat, k: nat)
    requires x < y < Power(16, k)
    ensures LexLess(HexText(Digits(16, x, k)), HexText(Digits(16, y, k)))
    decreases k
  {
    var qx, qy, rx, ry := x / 16, y / 16, x % 16, y % 16;
    var dx, dy := Digits(16, qx, k - 1), Digits(16, qy, k - 1);
    assert Digits(16, x, k) == dx + [rx] && Digits(16, y, k) == dy + [ry];
    DivBack(x, 16);
    DivBack(y, 16);
    QuotientBelow(16, y, Power(16, k - 1));
    hide *;
    if qx < qy {
      HexOrder(qx, qy, k - 1);
    }
    HexOrderStep(dx, dy, rx, ry);
  }

  lemma HexOrderStep(dx: seq<nat>, dy: seq<nat>, rx: nat, ry: nat)
    requires |dx| == |dy| && rx < 16 && ry < 16
    requires forall i :: 0 <= i < |dx| ==> dx[i] < 16 && dy[i] < 16
    requires LexLess(HexText(dx), HexText(dy)) || (dx == dy && rx < ry)
    ensures LexLess(HexText(dx + [rx]), HexText(dy + [ry]))
  {
    HexTextConcat(dx, rx);
    HexTextConcat(dy, ry);
    hide HexText;
    if LexLess(HexText(dx), HexText(dy)) {
      LexAppend(HexText(dx), HexText(dy), [Hex(rx)], [Hex(ry)]);
    } else {
      LexPrepend(HexText(dx), [Hex(rx)], [Hex(ry)]);
    }
  }

  lemma MomentsFit()
    ensures Power(16, 24) == 0x1_0000_0000_0000_0000_0000_0000
  {
    assert Power(16, 6) == 0x100_0000;
    assert Power(16, 12) == 0x1_0000_0000_0000;
    assert Power(16, 18) == 0x100_0000_0000_0000_0000;
  }

  /** The order of labels is the order of moments, whatever follows the labels. */
  lemma LabelOrder(t: Taia, u: Taia, a: Text, b: Text)
    requires t.nano < 0x1_0000_0000 && u.nano < 0x1_0000_0000
    ensures Moment(t) < Moment(u) ==> LexLess(Label(t) + a, Label(u) + b)
    ensures Label(t) == Label(u) <==> Moment(t) == Moment(u)
    ensures LexLess(Label(t), Label(u)) <==> Moment(t) < Moment(u)
  {
    MomentsFit();
    LexTrichotomy(Label(t), Label(u));
    if Moment(t) < Moment(u) {
      OneWay(t, u);
      LexAppend(Label(t), Label(u), a, b);
    } else if Moment(u) < Moment(t) {
      OneWay(u, t);
    }
  }

  lemma OneWay(t: Taia, u: Taia)
    requires t.nano < 0x1_0000_0000 && u.nano < 0x1_0000_0000 && Moment(t) < Moment(u)
    ensures LexLess(Label(t), Label(u))
  {
    MomentsFit();
    HexOrder(Moment(t), Moment(u), 24);
    LexPrepend([64], HexText(Digits(16, Moment(t), 24)), HexText(Digits(16, Moment(u), 24)));
  }

  /** For clock readings, which carry no attoseconds, label order and taia_less agree. */
  lemma LabelsSortByTime(t: Taia, u: Taia)
    requires Normal(t) && Normal(u) && t.atto == u.atto == 0
    ensures LexLess(Label(t), Label(u)) <==> TaiaLess(t, u)
    ensures Label(t) == Label(u) <==> t == u
  {
    LabelOrder(t, u, [], []);
  }
}
