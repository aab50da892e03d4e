/** libtime: TAI64NA times, their arithmetic, and the text labels svlogd sorts its files by. */
module Tai {
  import opened Bytes

  datatype Taia = Taia(sec: u64, nano: u64, atto: u64)

  /** Both fractions are below 10^9, as libtime/taia.h says. */
  ghost predicate Normal(t: Taia) {
    t.nano < 1_000_000_000 && t.atto < 1_000_000_000
  }

  /** The time in attoseconds. */
  ghost function Value(t: Taia): nat {
    t.sec * 1_000_000_000_000_000_000 + t.nano * 1_000_000_000 + t.atto
  }

  /** 2^64 seconds in attoseconds: where times wrap around. */
  ghost const SPAN: int := 0x1_0000_0000_0000_0000 * 1_000_000_000_000_000_000

  /** libtime/taia_less.c */
  predicate TaiaLess(t: Taia, u: Taia)
    ensures Normal(t) && Normal(u) ==> (TaiaLess(t, u) <==> Value(t) < Value(u))
  {
    if t.sec < u.sec then true
    else if t.sec > u.sec then false
    else if t.nano < u.nano then true
    else if t.nano > u.nano then false
    else t.atto < u.atto
  }

  lemma ValueInjective(t: Taia, u: Taia)
    requires Normal(t) && Normal(u) && Value(t) == Value(u)
    ensures t == u
  {
    assert !TaiaLess(t, u) && !TaiaLess(u, t);
  }

  /** A struct taia in memory. Callers pass the same one as result and as operand. */
  class TaiaCell {
    var sec: u64
    var nano: u64
    var atto: u64

    constructor (t: Taia)
      ensures Get() == t
    {
      sec, nano, atto := t.sec, t.nano, t.atto;
    }

    function Get(): Taia
      reads this
    {
      Taia(sec, nano, atto)
    }
  }

  /** The normalised time with this many attoseconds, modulo SPAN. */
  ghost function AtValue(v: int): (t: Taia)
    ensures Normal(t) && Value(t) == v % SPAN
  {
    SomeTime(v % SPAN);
    var t :| Normal(t) && Value(t) == v % SPAN;
    t
  }

  lemma SomeTime(w: int)
    requires 0 <= w < SPAN
    ensures exists t :: Normal(t) && Value(t) == w
  {
    var ns := w / 1_000_000_000;
    assert Value(Taia(ns / 1_000_000_000, ns % 1_000_000_000, w % 1_000_000_000)) == w;
  }

  lemma ModIs(x: int, r: int, m: int)
    requires 0 <= r < m && (x == r || x == r + m || x == r - m)
    ensures x % m == r
  {
    if x == r + m {
      assert x == 1 * m + r;
    } else if x == r - m {
      assert x == -1 * m + r;
    }
  }

  /** Carrying by hand gives the sum modulo SPAN; the flags say which carries happened. */
  lemma Carry(a: Taia, b: Taia, r: Taia, c0: bool, c1: bool)
    requires Normal(a) && Normal(b)
    requires c0 <==> a.atto + b.atto > 999999999
    requires c1 <==> a.nano + b.nano + (if c0 then 1 else 0) > 999999999
    requires r.atto == a.atto + b.atto - (if c0 then 1000000000 else 0)
    requires r.nano == a.nano + b.nano + (if c0 then 1 else 0) - (if c1 then 1000000000 else 0)
    requires r.sec == Wrap64(a.sec + b.sec + (if c1 then 1 else 0))
    ensures Normal(r) && Value(r) == (Value(a) + Value(b)) % SPAN
  {
    ModIs(Value(a) + Value(b), Value(r), SPAN);
  }

  lemma Borrow(a: Taia, b: Taia, r: Taia, c0: bool, c1: bool)
    requires Normal(a) && Normal(b)
    requires c0 <==> a.atto < b.atto
    requires c1 <==> a.nano - b.nano - (if c0 then 1 else 0) < 0
    requires r.atto == a.atto - b.atto + (if c0 then 1000000000 else 0)
    requires r.nano == a.nano - b.nano - (if c0 then 1 else 0) + (if c1 then 1000000000 else 0)
    requires r.sec == Wrap64(a.sec - b.sec - (if c1 then 1 else 0))
    ensures Normal(r) && Value(r) == (Value(a) - Value(b)) % SPAN
  {
    ModIs(Value(a) - Value(b), Value(r), SPAN);
  }

  /** libtime/taia_add.c: addition modulo SPAN, whatever t, u and v share. */
  method TaiaAdd(t: TaiaCell, u: TaiaCell, v: TaiaCell)
    requires Normal(u.Get()) && Normal(v.Get())
    modifies t
    ensures t.Get() == AtValue(old(Value(u.Get())) + old(Value(v.Get())))
  {
    ghost var a, b := u.Get(), v.Get();
    t.sec := Wrap64(u.sec + v.sec);
    t.nano := Wrap64(u.nano + v.nano);
    t.atto := Wrap64(u.atto + v.atto);
    assert t.Get() == Taia(Wrap64(a.sec + b.sec), a.nano + b.nano, a.atto + b.atto);
    ghost var c0 := t.atto > 999999999;
    if t.atto > 999999999 {
      t.atto := Wrap64(t.atto - 1000000000);
      t.nano := Wrap64(t.nano + 1);
    }
    ghost var c1 := t.nano > 999999999;
    if t.nano > 999999999 {
      t.nano := Wrap64(t.nano - 1000000000);
      t.sec := Wrap64(t.sec + 1);
    }
    Carry(a, b, t.Get(), c0, c1);
    ValueInjective(t.Get(), AtValue(Value(a) + Value(b)));
  }

  /** libtime/taia_sub.c: subtraction modulo SPAN, whatever t, u and v share. */
  method TaiaSub(t: TaiaCell, u: TaiaCell, v: TaiaCell)
    requires Normal(u.Get()) && Normal(v.Get())
    modifies t
    ensures t.Get() == AtValue(old(Value(u.Get())) - old(Value(v.Get())))
  {
    ghost var a, b := u.Get(), v.Get();
    var unano := u.nano;
    var uatto := u.atto;
    t.sec := Wrap64(u.sec - v.sec);
    t.nano := Wrap64(unano - v.nano);
    t.atto := Wrap64(uatto - v.atto);
    assert t.Get() == Taia(Wrap64(a.sec - b.sec), Wrap64(a.nano - b.nano), Wrap64(a.atto - b.atto));
    ghost var c0 := t.atto > uatto;
    if t.atto > uatto {
      t.atto := Wrap64(t.atto + 1000000000);
      t.nano := Wrap64(t.nano - 1);
    }
    ghost var c1 := t.nano > unano;
    if t.nano > unano {
      t.nano := Wrap64(t.nano + 1000000000);
      t.sec := Wrap64(t.sec - 1);
    }
    Borrow(a, b, t.Get(), c0, c1);
    ValueInjective(t.Get(), AtValue(Value(a) - Value(b)));
  }

  /** A shift and the opposite shift give the time back: taia_add undoes taia_sub, and the
      other way round (y is plus or minus the value of a time). */
  lemma ShiftUndo(a: Taia, y: int)
    requires Normal(a) && -SPAN < y < SPAN
    ensures AtValue(Value(AtValue(Value(a) + y)) - y) == a
  {
    var v: int := Value(AtValue(Value(a) + y));
    var w := AtValue(v - y);
    ModUndo(Value(a), y, SPAN);
    ValueInjective(w, a);
  }

  lemma ModUndo(x: int, y: int, m: int)
    requires 0 <= x < m && -m < y < m
    ensures ((x + y) % m - y) % m == x
  {
    var r := if x + y < 0 then x + y + m else if x + y >= m then x + y - m else x + y;
    ModIs(x + y, r, m);
    ModIs(r - y, x, m);
  }
}
