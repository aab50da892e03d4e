/** libunix's input buffer: unread bytes lie at the end of the block, so that what is left of the
    block in front of them has the size of the next read. */
module InBuffers {
  import opened Bytes

  /** byte_copyr, on overlapping stretches of one block. Going backwards is right when the bytes
      move up, or do not overlap. */
  method ByteCopyR(a: array<byte>, to: nat, count: nat, from: nat)
    requires to + count <= a.Length && from + count <= a.Length
    requires from <= to || to + count <= from
    modifies a
    ensures a[to..to + count] == old(a[from..from + count])
    ensures forall i :: 0 <= i < a.Length && !(to <= i < to + count) ==> a[i] == old(a[i])
  {
    var k := count;
    while k > 0
      invariant 0 <= k <= count
      invariant a[to + k..to + count] == old(a[from + k..from + count])
      invariant forall i :: 0 <= i < a.Length && !(to + k <= i < to + count) ==> a[i] == old(a[i])
    {
      k := k - 1;
      a[to + k] := a[from + k];
      assert a[to + k..to + count] == [a[to + k]] + a[to + k + 1..to + count];
      assert old(a[from + k..from + count]) == [old(a[from + k])] + old(a[from + k + 1..from + count]);
    }
  }

  /** The bytes that a read puts in front of a block. */
  method Fill(buf: array<byte>, t: Text)
    requires |t| <= buf.Length
    modifies buf
    ensures buf[..|t|] == t && buf[|t|..] == old(buf[|t|..])
  {
    var i := 0;
    while i < |t|
      invariant i <= |t| && buf[..i] == t[..i]
      invariant forall k :: i <= k < buf.Length ==> buf[k] == old(buf[k])
    {
      buf[i] := t[i];
      i := i + 1;
    }
  }

  lemma Regroup(a: Text, b: Text, c: Text)
    ensures a + (b + c) == a + b + c
  {
  }

  lemma GivenIsTaken(given: Text, more: Text, coming: Text, before: Text)
    requires given + before == given + more + coming
    ensures before == more + coming
  {
    Regroup(given, more, coming);
    assert before == (given + before)[|given|..] && more + coming == (given + (more + coming))[|given|..];
  }

  class InBuffer {
    const x: array<byte>
    var p: nat                 // unread bytes
    var n: nat                 // bytes of the block before them
    var input: Text            // what the descriptor will still give
    var signals: nat           // how often a read will still be interrupted
    ghost const all: Text      // everything the descriptor had at the start
    ghost var taken: Text      // bytes read from the descriptor
    ghost var given: Text      // bytes handed to the caller

    /** Delivered bytes followed by the unread ones are exactly the bytes read so far. */
    ghost predicate Valid()
      reads this, x
    {
      && p + n == x.Length
      && given + x[n..] == taken
      && taken + input == all
    }

    /** What the caller will get: the unread bytes, and then the rest of the input. */
    ghost function Coming(): Text
      reads this, x
      requires Valid()
    {
      x[n..] + input
    }

    /** What was given and what is coming is all there is. */
    lemma ComingIsRest()
      requires Valid()
      ensures given + Coming() == all
    {
      assert given + (x[n..] + input) == given + x[n..] + input;
    }

    constructor (x: array<byte>, input: Text, signals: nat)
      ensures Valid() && all == input && given == [] && p == 0 && this.x == x
    {
      this.x, p, n, this.input, this.signals := x, 0, x.Length, input, signals;
      all, taken, given := input, [], [];
    }

    /** s->op: a read may give fewer bytes than asked for, fail, or be interrupted. No byte at all
        means the end of the input. */
    method Op(buf: array<byte>, len: nat) returns (r: int, interrupted: bool)
      requires len <= buf.Length
      modifies this`input, this`signals, this`taken, buf
      ensures -1 <= r <= len && r <= |old(input)|
      ensures r > 0 ==> buf[..r] == old(input)[..r] && input == old(input)[r..] && taken == old(taken) + buf[..r]
      ensures r <= 0 ==> input == old(input) && taken == old(taken) && buf[..] == old(buf[..])
      ensures r == 0 ==> len == 0 || input == []
      ensures interrupted ==> r == -1 && signals < old(signals)
      ensures buf[if r > 0 then r else 0..] == old(buf[if r > 0 then r else 0..])
    {
      var wish: int, failing: bool := *, *;
      if failing {
        interrupted := signals > 0;
        if interrupted {
          signals := signals - 1;
        }
        return -1, interrupted;
      }
      r := if wish > 0 then wish else 1;
      r := if r > len then len else r;
      r := if r > |input| then |input| else r;
      interrupted := false;
      Fill(buf, input[..r]);
      taken, input := taken + input[..r], input[r..];
    }

    /** oneread */
    method OneRead(buf: array<byte>, len: nat) returns (r: int)
      requires len <= buf.Length
      modifies this`input, this`signals, this`taken, buf
      ensures -1 <= r <= len && r <= |old(input)|
      ensures r > 0 ==> buf[..r] == old(input)[..r] && input == old(input)[r..] && taken == old(taken) + buf[..r]
      ensures r <= 0 ==> input == old(input) && taken == old(taken) && buf[..] == old(buf[..])
      ensures r == 0 ==> len == 0 || input == []
    {
      while true
        invariant input == old(input) && taken == old(taken) && buf[..] == old(buf[..])
        decreases signals
      {
        var interrupted;
        r, interrupted := Op(buf, len);
        if interrupted {
          continue;
        }
        return;
      }
    }

    /** getthis */
    method GetThis(buf: array<byte>, len: nat) returns (r: nat)
      requires Valid() && buf != x && len <= buf.Length
      modifies this`p, this`n, this`given, buf
      ensures Valid()
      ensures r == (if len > old(p) then old(p) else len) && p == old(p) - r
      ensures buf[..r] == old(x[n..])[..r] && given == old(given) + buf[..r]
    {
      r := if len > p then p else len;
      CopyOut(buf, r);
      Seek(r);
    }

    /** byte_copy of r unread bytes to the caller. */
    method CopyOut(buf: array<byte>, r: nat)
      requires buf != x && r <= buf.Length && n + r <= x.Length
      modifies buf
      ensures buf[..r] == x[n..][..r]
    {
      var i := 0;
      while i < r
        invariant i <= r && buf[..i] == x[n..n + i]
      {
        buf[i] := x[n + i];
        i := i + 1;
      }
    }

    /** buffer_feed. After it there are unread bytes, or there is nothing to read. */
    method Feed() returns (r: int)
      requires Valid()
      modifies this`p, this`n, this`input, this`signals, this`taken, x
      ensures Valid()
      ensures -1 <= r <= x.Length && (r > 0 ==> p == r)
      ensures r <= 0 ==> p == 0 && input == old(input)
      ensures r == 0 ==> x.Length == 0 || given == all
      ensures old(p) > 0 ==> r == old(p) && taken == old(taken) && x[n..] == old(x[n..])
    {
      if p > 0 {
        return p;
      }
      assert x[n..] == [];
      r := OneRead(x, n);
      if r <= 0 {
        return;
      }
      MoveUp(r);
    }

    /** The bytes read are moved from the front of the block to its end. */
    method MoveUp(r: nat)
      requires p == 0 && n == x.Length && 0 < r <= n
      modifies this`p, this`n, x
      ensures p == r && n == x.Length - r && x[n..] == old(x[..r])
    {
      p := r;
      n := n - r;
      if n > 0 {
        ByteCopyR(x, n, r, 0);
      }
      assert x[n..n + r] == x[n..];
    }

    /** A read past the empty buffer. */
    method PastBuffer(buf: array<byte>, len: nat) returns (r: int)
      requires Valid() && p == 0 && buf != x && len <= buf.Length
      modifies this`input, this`signals, this`taken, this`given, buf
      ensures Valid() && -1 <= r <= len
      ensures given == old(given) + buf[..if r > 0 then r else 0]
      ensures r == 0 && len > 0 ==> given == all
    {
      assert x[n..] == [];
      r := OneRead(buf, len);
      if r > 0 {
        given := given + buf[..r];
        Regroup(taken, buf[..r], input);
      }
    }

    /** buffer_get. It gives 0 only at the end of the input, all of which was then delivered. */
    method Get(buf: array<byte>, len: nat) returns (r: int)
      requires Valid() && buf != x && len <= buf.Length
      modifies this`p, this`n, this`input, this`signals, this`taken, this`given, x, buf
      ensures Valid()
      ensures -1 <= r <= len
      ensures given == old(given) + buf[..if r > 0 then r else 0]
      ensures r == 0 && len > 0 ==> given == all
      ensures r <= 0 && len > 0 ==> p == 0
    {
      if p > 0 {
        r := GetThis(buf, len);
        return;
      }
      if n <= len {
        r := PastBuffer(buf, len);
        return;
      }
      r := Feed();
      if r <= 0 {
        return;
      }
      r := GetThis(buf, len);
    }

    /** buffer_bget: like buffer_get, but never more than a block at a time. */
    method BGet(buf: array<byte>, len: nat) returns (r: int)
      requires Valid() && buf != x && len <= buf.Length
      modifies this`p, this`n, this`input, this`signals, this`taken, this`given, x, buf
      ensures Valid()
      ensures -1 <= r <= len && r <= x.Length
      ensures given == old(given) + buf[..if r > 0 then r else 0]
      ensures r == 0 && len > 0 && x.Length > 0 ==> given == all
    {
      if p > 0 {
        r := GetThis(buf, len);
        return;
      }
      if n <= len {
        r := PastBuffer(buf, n);
        return;
      }
      r := Feed();
      if r <= 0 {
        return;
      }
      r := GetThis(buf, len);
    }

    /** buffer_PEEK: the unread bytes, in place. */
    method Peek() returns (at: nat)
      requires Valid()
      ensures at + p == x.Length && given + x[at..at + p] == taken
    {
      at := n;
      assert x[at..at + p] == x[n..];
    }

    /** buffer_SEEK over bytes that were peeked at. */
    method Seek(len: nat)
      requires Valid() && len <= p
      modifies this`p, this`n, this`given
      ensures Valid() && p == old(p) - len && given == old(given) + old(x[n..n + len])
    {
      assert x[n..] == x[n..n + len] + x[n + len..];
      given := given + x[n..n + len];
      p := p - len;
      n := n + len;
    }

    /** buffer_GETC */
    method GetC(c: array<byte>) returns (r: int)
      requires Valid() && c != x && c.Length >= 1
      modifies this`p, this`n, this`input, this`signals, this`taken, this`given, x, c
      ensures Valid() && -1 <= r <= 1
      ensures given == old(given) + if r > 0 then [c[0]] else []
      ensures r > 0 ==> [c[0]] + Coming() == old(Coming())
      ensures r <= 0 ==> Coming() == old(Coming()) && p == 0
      ensures r == 0 ==> given == all
    {
      ComingIsRest();
      ghost var g0, rest := given, Coming();
      if p > 0 {
        c[0] := x[n];
        Seek(1);
        r := 1;
      } else {
        r := Get(c, 1);
        assert r > 0 ==> c[..r] == [c[0]];
      }
      ComingIsRest();
      GivenIsTaken(g0, if r > 0 then [c[0]] else [], Coming(), rest);
    }
  }
}
