/** libunix's stralloc: a growing byte string. */
module Strallocs {
  import opened Bytes

  const LETTER_Z: byte := 90

  /** Asking for n bytes does not overflow the 32-bit size computed from it. */
  predicate Small(n: nat) {
    30 + n + n / 8 < 0x1_0000_0000
  }

  lemma SmallerIsSmall(m: nat, n: nat)
    requires m <= n && Small(n)
    ensures Small(m)
  {
  }

  function Max(x: nat, y: nat): nat {
    if x < y then y else x
  }

  /** All the copying is linear: at most 8 bytes for each byte of capacity a, which is at most an
      eighth more than the largest request. */
  ghost predicate Linear(a: nat, copied: nat, peak: nat) {
    copied <= 8 * a && a <= 30 + peak + peak / 8 && copied <= 240 + 9 * peak
  }

  class Stralloc {
    var s: array?<byte>
    var len: nat
    var a: nat
    ghost var copied: nat      // bytes copied by alloc_re so far
    ghost var peak: nat        // the largest block asked for so far

    ghost predicate Valid()
      reads this
    {
      && (s != null ==> len <= a == s.Length)
      && Linear(a, copied, peak) && (s == null ==> copied == 0)
    }

    ghost function Contents(): Text
      reads this, s
      requires Valid()
    {
      if s == null then [] else s[..len]
    }

    constructor ()
      ensures Valid() && Contents() == [] && s == null
    {
      s, len, a, copied, peak := null, 0, 0, 0, 0;
    }

    /** alloc_re: a new block with the first m bytes of the old one. It fails at the whim of alloc. */
    method AllocRe(m: nat, n: nat) returns (ok: bool)
      requires s != null && m == s.Length <= n
      modifies this`s, this`copied
      ensures ok ==> s != null && fresh(s) && s.Length == n && s[..m] == old(s[..]) && copied == old(copied) + m
      ensures !ok ==> s == old(s) && copied == old(copied)
    {
      ok := *;
      if ok {
        var y := new byte[n];
        var i := 0;
        while i < m
          invariant 0 <= i <= m && s == old(s) && y != s && copied == old(copied)
          invariant y[..i] == old(s[..i]) && s[..] == old(s[..])
        {
          y[i] := s[i];
          i := i + 1;
        }
        ghost var front := y[..m];
        assert front == old(s[..]);
        s := y;
        copied := copied + m;
        assert s[..m] == front;
      }
    }

    /** stralloc_ready. Growth is by an eighth, which keeps the copying linear. */
    method Ready(n: nat) returns (ok: bool)
      requires Valid() && Small(n)
      modifies this
      ensures Valid() && Contents() == old(Contents()) && peak == Max(old(peak), n)
      ensures ok ==> s != null && n <= a
      ensures s == old(s) || fresh(s)
      ensures !ok && old(s) != null ==> s == old(s) && a == old(a) && len == old(len)
    {
      peak := Max(peak, n);
      if s != null {
        var i := a;
        if n > i {
          a := 30 + n + n / 8;
          ok := AllocRe(i, a);
          if ok {
            assert s[..len] == s[..i][..len] && old(s[..len]) == old(s[..])[..len];
            return;
          }
          a := i;
          return;
        }
        return true;
      }
      len := 0;
      a := n;
      ok := *;
      if ok {
        s := new byte[a];
      }
    }

    /** stralloc_readyplus */
    method ReadyPlus(n: nat) returns (ok: bool)
      requires Valid() && Small(n + |Contents()|)
      modifies this
      ensures Valid() && Contents() == old(Contents()) && peak == Max(old(peak), n + |Contents()|)
      ensures ok ==> s != null && len + n <= a
      ensures s == old(s) || fresh(s)
      ensures !ok && old(s) != null ==> s == old(s) && a == old(a) && len == old(len)
    {
      if s != null {
        ok := Ready(n + len);
        ghost var c := Contents();
        assert |c| == len;
      } else {
        ok := Ready(n);
        assert |Contents()| == 0;
      }
    }

    /** byte_copy of buf to s + at. */
    method Store(at: nat, buf: Text)
      requires s != null && at + |buf| <= s.Length
      modifies s
      ensures s[..at] == old(s[..at]) && s[at..at + |buf|] == buf
    {
      var i := 0;
      while i < |buf|
        invariant 0 <= i <= |buf| && s[..at] == old(s[..at]) && s[at..at + i] == buf[..i]
      {
        s[at + i] := buf[i];
        i := i + 1;
      }
    }

    /** stralloc_copyb */
    method CopyB(buf: Text) returns (ok: bool)
      requires Valid() && Small(|buf| + 1)
      modifies this, s
      ensures Valid() && (s == old(s) || fresh(s)) && (ok ==> s != null)
      ensures peak == Max(old(peak), |buf| + 1)
      ensures Contents() == if ok then buf else old(Contents())
    {
      ok := Ready(|buf| + 1);
      if !ok {
        return;
      }
      Store(0, buf);
      len := |buf|;
      s[len] := LETTER_Z;
      assert s[..len] == s[0..|buf|];
    }

    /** stralloc_catb */
    method CatB(buf: Text) returns (ok: bool)
      requires Valid() && Small(|Contents()| + |buf| + 1)
      modifies this, s
      ensures Valid() && (s == old(s) || fresh(s)) && (ok ==> s != null)
      ensures peak == Max(old(peak), |old(Contents())| + |buf| + 1)
      ensures Contents() == if ok then old(Contents()) + buf else old(Contents())
    {
      if s == null {
        ok := CopyB(buf);
        assert [] + buf == buf;
        return;
      }
      ok := ReadyPlus(|buf| + 1);
      if !ok {
        return;
      }
      Store(len, buf);
      assert s[..len + |buf|] == s[..len] + s[len..len + |buf|];
      len := len + |buf|;
      s[len] := LETTER_Z;
    }

    /** stralloc_append, and stralloc_0 when c is 0. */
    method Append(c: byte) returns (ok: bool)
      requires Valid() && Small(|Contents()| + 1)
      modifies this, s
      ensures Valid() && (s == old(s) || fresh(s)) && (ok ==> s != null)
      ensures peak == Max(old(peak), |old(Contents())| + 1)
      ensures Contents() == if ok then old(Contents()) + [c] else old(Contents())
    {
      ok := ReadyPlus(1);
      if !ok {
        return;
      }
      ghost var before := s[..len];
      s[len] := c;
      len := len + 1;
      assert s[..len] == before + [c];
    }
  }
}
