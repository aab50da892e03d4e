/** svlogd's patterns (utils/pmatch.c) and the walk over a log directory's rules (logmatch). */
module Match {
  import opened Bytes

  const STAR: byte := 42
  const PLUS: byte := 43
  const MINUS: byte := 45
  const LOWER_E: byte := 101
  const UPPER_E: byte := 69

  // ----- what the manual says -----

  /** svlogd(8), PATTERN MATCHING: a character matches itself, a plus (43) matches the next pattern
      character one or more times, a star (42) spans a stretch without the next pattern character,
      a star at the end spans anything. */
  ghost predicate Matches(p: Text, s: Text)
    decreases |p|
  {
    if p == [] then s == []
    else if p[0] == 42 then
      |p| == 1 || exists k :: 0 <= k <= |s| && p[1] !in s[..k] && Matches(p[1..], s[k..])
    else if p[0] == 43 then
      |p| > 1 && exists k :: 1 <= k <= |s| && (forall i :: 0 <= i < k ==> s[i] == p[1]) && Matches(p[2..], s[k..])
    else
      s != [] && s[0] == p[0] && Matches(p[1..], s[1..])
  }

  // ----- what the code does -----

  /** How far the scan for c goes. */
  function Skip(s: Text, c: byte): (k: nat)
    ensures k <= |s| && c !in s[..k] && (k < |s| ==> s[k] == c)
  {
    if s == [] || s[0] == c then 0 else 1 + Skip(s[1..], c)
  }

  /** How long the run of c is. */
  function RunOf(s: Text, c: byte): (k: nat)
    ensures k <= |s| && (forall i :: 0 <= i < k ==> s[i] == c) && (k < |s| ==> s[k] != c)
  {
    if s == [] || s[0] != c then 0 else 1 + RunOf(s[1..], c)
  }

  /** What the scan meets outside of its two texts: the byte in memory behind the line, and the
      answer it comes to should it leave the memory that holds the rules. */
  datatype Around = Around(beyond: byte, wild: bool)

  /** The pattern read once from left to right, never backtracking; m is the memory from the
      pattern on. A plus looks at the byte at hand before asking whether the text has ended. A plus
      at the end of the pattern repeats its NUL and then goes on with what lies behind it. */
  function Accepts(m: Text, s: Text, w: Around): bool
    decreases |m|
  {
    if m == [] then w.wild
    else if m[0] == 0 then s == []
    else if m[0] == STAR then
      if |m| == 1 then w.wild
      else m[1] == 0 || (Skip(s, m[1]) < |s| && Accepts(m[1..], s[Skip(s, m[1])..], w))
    else if m[0] == PLUS then
      if |m| == 1 then w.wild
      else
        (if s == [] then w.beyond else s[0]) == m[1] &&
        (RunOf(s, m[1]) == |s| || Accepts(m[2..], s[RunOf(s, m[1])..], w))
    else
      s != [] && s[0] == m[0] && Accepts(m[1..], s[1..], w)
  }

  /** A pattern as a C string, with more memory behind it. */
  function Stored(p: Text, rest: Text): Text {
    p + [0] + rest
  }

  lemma StoredTail(p: Text, rest: Text)
    requires p != []
    ensures Stored(p, rest)[0] == p[0] && Stored(p, rest)[1..] == Stored(p[1..], rest)
  {
  }

  lemma {:induction false} SkipIsFirst(s: Text, c: byte, m: nat)
    requires m < |s| && s[m] == c && c !in s[..m]
    ensures Skip(s, c) == m
  {
    if m > 0 {
      assert s[..m][0] == s[0] && s[1..][..m - 1] == s[..m][1..];
      SkipIsFirst(s[1..], c, m - 1);
    }
  }

  /** The scan behind a star. */
  method SkipTo(s: Text, from: nat, c: byte) returns (j: nat)
    requires from <= |s|
    ensures j == from + Skip(s[from..], c)
  {
    j := from;
    while j < |s| && s[j] != c
      invariant from <= j <= |s| && from + Skip(s[from..], c) == j + Skip(s[j..], c)
    {
      assert s[j..][1..] == s[j + 1..];
      j := j + 1;
    }
  }

  /** The scan behind a plus. */
  method RunPast(s: Text, from: nat, c: byte) returns (j: nat)
    requires from <= |s|
    ensures j == from + RunOf(s[from..], c)
  {
    j := from;
    while j < |s| && s[j] == c
      invariant from <= j <= |s| && from + RunOf(s[from..], c) == j + RunOf(s[j..], c)
    {
      assert s[j..][1..] == s[j + 1..];
      j := j + 1;
    }
  }

  /** utils/pmatch.c */
  method PMatch(m: Text, s: Text, w: Around, ghost p: Text, ghost rest: Text) returns (r: bool)
    requires m == Stored(p, rest) && 0 !in p
    ensures r == Accepts(m, s, w)
    ensures Simple(p) ==> (r <==> Matches(p, s))
    ensures Steady(p) ==> (r <==> Matches(p, s) || EndsAtPlus(p, s, w))
  {
    AcceptsMeans(p, rest, s, w);
    hide Matches, Simple, Stored, Steady, EndsAtPlus;
    var i, j := 0, 0;
    while i < |m|
      invariant i <= |m| && j <= |s|
      invariant Accepts(m, s, w) == Accepts(m[i..], s[j..], w)
      decreases |m| - i
    {
      ghost var q, t := m[i..], s[j..];
      var c := m[i];
      i := i + 1;
      assert q[1..] == m[i..];
      if c == 0 {
        return j == |s|;
      } else if c == STAR {
        if i == |m| {
          return w.wild;
        }
        c := m[i];
        if c == 0 {
          return true;
        }
        ghost var k := Skip(t, c);
        var from := j;
        j := SkipTo(s, from, c);
        if j == |s| {
          return false;
        }
        assert t[k..] == s[j..];
      } else if c == PLUS {
        if i == |m| {
          return w.wild;
        }
        c := m[i];
        i := i + 1;
        assert q[2..] == m[i..];
        if c != (if j < |s| then s[j] else w.beyond) {
          return false;
        }
        ghost var k := RunOf(t, c);
        var from := j;
        j := RunPast(s, from, c);
        if j == |s| {
          return true;
        }
        assert t[k..] == s[j..];
      } else {
        if j == |s| || s[j] != c {
          return false;
        }
        j := j + 1;
        assert t[1..] == s[j..];
      }
    }
    return w.wild;
  }

  // ----- when the two agree -----

  predicate NoPlus(p: Text) {
    PLUS !in p
  }

  predicate NoDoubleStar(p: Text) {
    forall i :: 0 <= i < |p| - 1 ==> !(p[i] == STAR && p[i + 1] == STAR)
  }

  /** No plus, and no star right after a star. */
  predicate Simple(p: Text) {
    NoPlus(p) && NoDoubleStar(p)
  }

  lemma SimpleTail(p: Text)
    requires p != [] && Simple(p)
    ensures Simple(p[1..])
  {
    assert forall i :: 0 <= i < |p[1..]| ==> p[1..][i] == p[i + 1];
  }

  predicate Ordinary(c: byte) {
    c != STAR && c != PLUS
  }

  /** c is not the first pattern character of r. */
  predicate Apart(c: byte, r: Text) {
    r == [] || (if Ordinary(r[0]) then r[0] != c else |r| == 1 || r[1] != c)
  }

  /** A star is the last character or stands before an ordinary one; a plus stands before an ordinary
      one that is not the pattern character after it, too. */
  predicate Steady(p: Text) {
    p != [] ==>
      && Steady(p[1..])
      && (p[0] == STAR ==> |p| == 1 || Ordinary(p[1]))
      && (p[0] == PLUS ==> |p| > 1 && Ordinary(p[1]) && Apart(p[1], p[2..]))
  }

  lemma {:induction false} SimpleIsSteady(p: Text)
    requires Simple(p)
    ensures Steady(p)
  {
    if p != [] {
      SimpleTail(p);
      SimpleIsSteady(p[1..]);
    }
  }

  /** The text ends behind the character of the plus at i, or right in front of that plus, and then
      the byte behind the text in memory is that character. */
  ghost predicate StopsAt(p: Text, i: nat, s: Text, w: Around)
    requires i + 1 < |p|
  {
    Matches(p[..i + 2], s) || (Matches(p[..i], s) && w.beyond == p[i + 1])
  }

  ghost predicate EndsAtPlus(p: Text, s: Text, w: Around) {
    exists i :: 0 <= i < |p| - 1 && p[i] == PLUS && StopsAt(p, i, s, w)
  }

  /** How many characters of the pattern one round of the scan uses up. */
  function Used(p: Text): nat
    requires p != []
  {
    if p[0] == PLUS then 2 else 1
  }

  /** How many of the text, if it gets on. */
  function Passed(p: Text, s: Text): (k: nat)
    requires p != [] && (Ordinary(p[0]) || |p| > 1)
    ensures GetsOn(p, s) ==> k <= |s|
  {
    if p[0] == STAR then Skip(s, p[1]) else if p[0] == PLUS then RunOf(s, p[1]) else 1
  }

  predicate GetsOn(p: Text, s: Text)
    requires p != [] && (Ordinary(p[0]) || |p| > 1)
  {
    if p[0] == STAR then Skip(s, p[1]) < |s| else s != [] && s[0] == (if p[0] == PLUS then p[1] else p[0])
  }

  /** A longer run can be taken as well, if its character does not come next. */
  lemma {:induction false} RunWhole(q: Text, s: Text, c: byte, k: nat)
    requires k <= RunOf(s, c) && Matches(q, s[k..])
    requires Apart(c, q) && (q != [] && q[0] == STAR ==> |q| == 1 || Ordinary(q[1]))
    ensures Matches(q, s[RunOf(s, c)..])
    decreases |s| - k
  {
    if k < RunOf(s, c) {
      var t := s[k..];
      assert t[0] == s[k] == c && t[1..] == s[k + 1..];
      if q[0] == STAR && |q| > 1 {
        StarPasses(q, t);
      }
      assert Matches(q, t[1..]);
      hide Matches, RunOf, Apart;
      RunWhole(q, s, c, k + 1);
    }
  }

  lemma StarPasses(q: Text, t: Text)
    requires |q| > 1 && q[0] == STAR && Ordinary(q[1]) && t != [] && t[0] != q[1] && Matches(q, t)
    ensures Matches(q, t[1..])
  {
    var m :| 0 <= m <= |t| && q[1] !in t[..m] && Matches(q[1..], t[m..]);
    assert t[m..][0] == q[1];
    assert t[1..][m - 1..] == t[m..] && t[1..][..m - 1] == t[..m][1..];
  }

  /** What the manual says of a first part of a steady pattern, one round at a time. */
  lemma {:induction false} MatchesOn(p: Text, j: nat, s: Text)
    requires p != [] && Steady(p) && (Ordinary(p[0]) || |p| > 1)
    requires Used(p) <= j <= |p| && (j < |p| ==> Ordinary(p[j - 1]))
    ensures Matches(p[..j], s) <==>
              GetsOn(p, s) && Matches(p[Used(p)..][..j - Used(p)], s[Passed(p, s)..])
  {
    var q, n := p[..j], Used(p);
    assert q[n..] == p[n..][..j - n];
    if p[0] == STAR {
      var k := Skip(s, p[1]);
      if Matches(q, s) {
        var m :| 0 <= m <= |s| && q[1] !in s[..m] && Matches(q[1..], s[m..]);
        assert s[m..][0] == q[1];
        SkipIsFirst(s, q[1], m);
      }
      if k < |s| && Matches(q[1..], s[k..]) {
        assert q[1] !in s[..k];
      }
    } else if p[0] == PLUS {
      var c, k := p[1], RunOf(s, p[1]);
      if Matches(q, s) {
        var m :| 1 <= m <= |s| && (forall i :: 0 <= i < m ==> s[i] == q[1]) && Matches(q[2..], s[m..]);
        SteadyTail(p);
        assert |q| > 3 ==> q[2] == p[2..][0] && q[3] == p[2..][1];
        RunWhole(q[2..], s, c, m);
      }
    }
  }

  /** So it is for the ends at a plus further on. */
  lemma StopsOn(p: Text, i: nat, s: Text, w: Around)
    requires p != [] && Steady(p) && (Ordinary(p[0]) || |p| > 1)
    requires Used(p) <= i < |p| - 1 && p[i] == PLUS
    ensures var n := Used(p);
            StopsAt(p, i, s, w) <==> GetsOn(p, s) && StopsAt(p[n..], i - n, s[Passed(p, s)..], w)
  {
    SteadyAt(p, i);
    MatchesOn(p, i, s);
    MatchesOn(p, i + 2, s);
  }

  lemma {:induction false} SteadyAt(p: Text, i: nat)
    requires Steady(p) && i < |p| && p[i] == PLUS
    ensures i + 1 < |p| && Ordinary(p[i + 1]) && (i > 0 ==> Ordinary(p[i - 1]))
  {
    if i > 0 {
      assert p[1..][i - 1] == p[i];
      SteadyAt(p[1..], i - 1);
    }
  }

  lemma EndsOn(p: Text, s: Text, w: Around)
    requires p != [] && Steady(p) && (Ordinary(p[0]) || |p| > 1)
    ensures EndsAtPlus(p, s, w) <==>
              (p[0] == PLUS && StopsAt(p, 0, s, w)) ||
              (GetsOn(p, s) && EndsAtPlus(p[Used(p)..], s[Passed(p, s)..], w))
  {
    hide StopsAt, Steady, GetsOn, Passed;
    var n := Used(p);
    if EndsAtPlus(p, s, w) {
      var i :| 0 <= i < |p| - 1 && p[i] == PLUS && StopsAt(p, i, s, w);
      if i >= n {
        StopsOn(p, i, s, w);
        assert p[n..][i - n] == PLUS;
      } else if i == 1 {
        SteadyAt(p, 1);
      }
    }
    if GetsOn(p, s) && EndsAtPlus(p[n..], s[Passed(p, s)..], w) {
      var q, t := p[n..], s[Passed(p, s)..];
      var i :| 0 <= i < |q| - 1 && q[i] == PLUS && StopsAt(q, i, t, w);
      assert p[i + n] == PLUS;
      StopsOn(p, i + n, s, w);
    }
  }

  /** On a steady pattern the single pass accepts what the manual says, and besides exactly the texts
      that end at a plus: the rest of the pattern is not looked at then. */
  lemma {:induction false} SteadyAgrees(p: Text, rest: Text, s: Text, w: Around)
    requires 0 !in p && Steady(p)
    ensures Accepts(Stored(p, rest), s, w) <==> Matches(p, s) || EndsAtPlus(p, s, w)
    decreases |p|
  {
    if p != [] && (Ordinary(p[0]) || |p| > 1) {
      var n, m := Used(p), Stored(p, rest);
      var q := p[n..];
      assert p[0] != 0 && m[0] == p[0] && m[n..] == Stored(q, rest);
      assert |p| > 1 ==> p[1] != 0 && m[1] == p[1];
      SteadyTail(p);
      MatchesOn(p, |p|, s);
      assert p[..|p|] == p && q[..|p| - n] == q;
      EndsOn(p, s, w);
      if GetsOn(p, s) {
        SteadyAgrees(q, rest, s[Passed(p, s)..], w);
      }
      if p[0] == PLUS {
        StopsFirst(p, s, w);
      }
      hide Matches, EndsAtPlus, StopsAt, Stored, Steady;
    }
  }

  lemma SteadyTail(p: Text)
    requires p != [] && Steady(p)
    ensures Steady(p[Used(p)..])
  {
    if p[0] == PLUS {
      assert p[1..][1..] == p[2..];
    }
  }

  lemma StopsFirst(p: Text, s: Text, w: Around)
    requires |p| > 1 && Steady(p) && p[0] == PLUS
    ensures StopsAt(p, 0, s, w) <==> if s == [] then w.beyond == p[1] else s[0] == p[1] && RunOf(s, p[1]) == |s|
  {
    MatchesOn(p, 2, s);
    assert p[2..][..0] == [] && p[..0] == [];
  }

  /** On a simple pattern the single pass accepts exactly what the manual says. */
  lemma SimpleAgrees(p: Text, rest: Text, s: Text, w: Around)
    requires 0 !in p && Simple(p)
    ensures Accepts(Stored(p, rest), s, w) <==> Matches(p, s)
  {
    SimpleIsSteady(p);
    SteadyAgrees(p, rest, s, w);
  }

  lemma AcceptsMeans(p: Text, rest: Text, s: Text, w: Around)
    requires 0 !in p
    ensures Simple(p) ==> (Accepts(Stored(p, rest), s, w) <==> Matches(p, s))
    ensures Steady(p) ==> (Accepts(Stored(p, rest), s, w) <==> Matches(p, s) || EndsAtPlus(p, s, w))
  {
    hide Accepts, Matches, Stored, EndsAtPlus;
    if Simple(p) {
      SimpleAgrees(p, rest, s, w);
    }
    if Steady(p) {
      SteadyAgrees(p, rest, s, w);
    }
  }

  /** The pattern's own characters, its stars left out. */
  function Plain(p: Text): Text {
    if p == [] then []
    else if p[0] == STAR then Plain(p[1..])
    else [p[0]] + Plain(p[1..])
  }

  lemma {:induction false} PlainMatches(p: Text)
    requires NoPlus(p)
    ensures Matches(p, Plain(p)) && STAR !in Plain(p)
    decreases |p|
  {
    if p != [] {
      assert p[0] != PLUS;
      PlainMatches(p[1..]);
      if p[0] == STAR {
        assert Plain(p)[0..] == Plain(p);
        assert |p| > 1 ==> p[1] !in Plain(p)[..0] && Matches(p[1..], Plain(p)[0..]);
      } else {
        assert Plain(p)[1..] == Plain(p[1..]);
      }
    }
  }

  /** Two stars in a row make the code look for a literal star, which Plain(p) does not have. */
  lemma {:induction false} DoubleStarRejects(p: Text, rest: Text, w: Around)
    requires 0 !in p && NoPlus(p) && !NoDoubleStar(p)
    ensures !Accepts(Stored(p, rest), Plain(p), w)
    decreases |p|
  {
    var q := p[1..];
    assert p[0] != PLUS && p[0] != 0 && p[1] != 0;
    PlainMatches(p);
    StoredTail(p, rest);
    assert Stored(p, rest)[1] == p[1];
    if p[0] == STAR && p[1] == STAR {
      assert Skip(Plain(p), STAR) < |Plain(p)| ==> STAR in Plain(p);
    } else {
      assert !NoDoubleStar(q) by {
        var i :| 0 <= i < |p| - 1 && p[i] == STAR && p[i + 1] == STAR;
        assert i > 0 && q[i - 1] == STAR && q[i] == STAR;
      }
      DoubleStarRejects(q, rest, w);
      if p[0] == STAR {
        assert Plain(p) == Plain(q) && Plain(q)[0] == p[1];
        assert Plain(p)[0..] == Plain(p);
      } else {
        assert Plain(p)[1..] == Plain(q);
      }
    }
  }

  /** Code and manual agree about the pattern, for every text and in every memory. */
  ghost predicate Agrees(p: Text, rest: Text) {
    forall s: Text, w: Around :: Accepts(Stored(p, rest), s, w) <==> Matches(p, s)
  }

  lemma Disagree(p: Text, rest: Text, s: Text, w: Around)
    requires Accepts(Stored(p, rest), s, w) != Matches(p, s)
    ensures !Agrees(p, rest)
  {
    hide Accepts, Matches, Stored;
  }

  /** Among patterns without a plus, exactly those without a double star are matched as the
      manual says on every text. */
  lemma AgreesExactlyWhenSimple(p: Text, rest: Text)
    requires 0 !in p && NoPlus(p)
    ensures Agrees(p, rest) <==> NoDoubleStar(p)
  {
    if NoDoubleStar(p) {
      forall s: Text, w: Around
        ensures Accepts(Stored(p, rest), s, w) <==> Matches(p, s)
      {
        SimpleAgrees(p, rest, s, w);
      }
    } else {
      var w := Around(0, false);
      PlainMatches(p);
      DoubleStarRejects(p, rest, w);
      Disagree(p, rest, Plain(p), w);
    }
  }

  /** A plus accepts a text that ends where it stands, if the byte behind the text in memory is the
      one it repeats: then the rest of the pattern is never looked at. */
  lemma {:induction false} PlusAcceptsTooMuch(p: Text, rest: Text, i: nat, w: Around)
    requires 0 !in p && i < |p| && p[i] == PLUS
    requires Simple(p[..i]) && (i > 0 ==> p[i - 1] != STAR)
    requires w.beyond == Stored(p, rest)[i + 1]
    ensures Accepts(Stored(p, rest), Plain(p[..i]), w) && !Matches(p, Plain(p[..i]))
    decreases i
  {
    StoredTail(p, rest);
    assert p[..i] != [] ==> p[..i][1..] == p[1..][..i - 1];
    if i > 0 {
      var q, s := p[1..], Plain(p[..i]);
      assert p[..i][0] == p[0] && p[0] != PLUS && p[0] != 0;
      SimpleTail(p[..i]);
      assert Stored(q, rest)[i] == Stored(p, rest)[i + 1];
      PlusAcceptsTooMuch(q, rest, i - 1, w);
      if p[0] == STAR {
        assert p[..i][1] == p[1] && p[1] != STAR && p[1] != PLUS && Stored(p, rest)[1] == p[1];
        assert s == Plain(q[..i - 1]) && q[..i - 1][0] == p[1] && s[0] == p[1];
        assert Skip(s, p[1]) == 0 && s[0..] == s;
        assert forall k :: 1 <= k <= |s| ==> s[..k][0] == p[1];
      } else {
        assert s[1..] == Plain(q[..i - 1]);
      }
    }
  }

  function FirstPlus(p: Text): (i: nat)
    ensures i <= |p| && PLUS !in p[..i] && (i < |p| ==> p[i] == PLUS)
  {
    if p == [] || p[0] == PLUS then 0
    else
      var i := 1 + FirstPlus(p[1..]);
      assert p[..i] == [p[0]] + p[1..][..i - 1];
      i
  }

  /** Among patterns whose part in front of the first plus is simple and does not end in a star,
      exactly those without a plus are matched as the manual says on every text in any memory. */
  lemma AgreesExactlyWithoutPlus(p: Text, rest: Text)
    requires 0 !in p && Simple(p[..FirstPlus(p)])
    requires 0 < FirstPlus(p) < |p| ==> p[FirstPlus(p) - 1] != STAR
    ensures Agrees(p, rest) <==> NoPlus(p)
  {
    hide Accepts, Matches, Plain, FirstPlus, Agrees;
    var i := FirstPlus(p);
    assert i == |p| ==> p[..i] == p;
    assert NoPlus(p) <==> i == |p|;
    if i == |p| {
      AgreesExactlyWhenSimple(p, rest);
    } else {
      assert |Stored(p, rest)| > i + 1;
      var w := Around(Stored(p, rest)[i + 1], false);
      PlusAcceptsTooMuch(p, rest, i, w);
      Disagree(p, rest, Plain(p[..i]), w);
    }
  }

  /** A plus takes the whole run: if its character comes once more in the pattern, no text with
      any other character is accepted, though the manual's relation has such texts. */
  lemma {:induction false} PlusAcceptsTooLittle(q: byte, r: Text, rest: Text, t: Text, w: Around)
    requires q !in {0, STAR, PLUS} && Matches(r, t) && (exists i :: 0 <= i < |t| && t[i] != q)
    ensures var p, s: Text := [PLUS, q, q] + r, [q, q] + t;
            Matches(p, s) && !Accepts(Stored(p, rest), s, w)
  {
    var p, s: Text := [PLUS, q, q] + r, [q, q] + t;
    var m := Stored(p, rest);
    assert p[2..] == [q] + r && p[2..][1..] == r;
    assert s[1..] == [q] + t && s[1..][1..] == t;
    assert Matches(p[2..], s[1..]);
    assert m[0] == PLUS && m[1] == q && m[2..][0] == q;
    var i :| 0 <= i < |t| && t[i] != q;
    assert s[i + 2] != q;
    var k := RunOf(s, q);
    assert k < |s|;
    assert s[k..][0] == s[k] != q;
    hide Matches, Stored;
    assert !Accepts(m[2..], s[k..], w);
  }

  // ----- the rules of a log directory -----

  /** logdir_open appends each rule and a NUL. */
  function Blob(rules: seq<Text>): Text {
    if rules == [] then [] else Blob(rules[..|rules| - 1]) + rules[|rules| - 1] + [0]
  }

  predicate IsRule(r: Text) {
    r != [] && r[0] in {PLUS, MINUS, LOWER_E, UPPER_E} && 0 !in r
  }

  lemma {:induction false} BlobPrefix(rules: seq<Text>, k: nat)
    requires k <= |rules|
    ensures Blob(rules[..k]) <= Blob(rules)
    decreases |rules|
  {
    if k < |rules| {
      var pre := rules[..|rules| - 1];
      BlobPrefix(pre, k);
      assert pre[..k] == rules[..k];
    } else {
      assert rules[..k] == rules;
    }
  }

  /** Where rule k stands in the blob. */
  lemma RuleAt(rules: seq<Text>, k: nat)
    requires k < |rules|
    ensures var i := |Blob(rules[..k])|;
            var r := rules[k];
            && i + |r| + 1 == |Blob(rules[..k + 1])| <= |Blob(rules)|
            && Blob(rules)[i..i + |r|] == r && Blob(rules)[i + |r|] == 0
  {
    var next := rules[..k + 1];
    assert next[..k] == rules[..k];
    assert Blob(next) == Blob(rules[..k]) + rules[k] + [0];
    BlobPrefix(rules, k + 1);
    var i := |Blob(rules[..k])|;
    assert Blob(rules)[i..i + |rules[k]|] == Blob(next)[i..i + |rules[k]|];
  }

  /** The memory from the pattern of rule k on. */
  function Behind(rules: seq<Text>, k: nat): Text
    requires k < |rules|
  {
    RuleAt(rules, k);
    Blob(rules)[|Blob(rules[..k])| + 1..]
  }

  /** It starts with the pattern, as a C string. */
  lemma BehindIsStored(rules: seq<Text>, k: nat)
    requires k < |rules| && IsRule(rules[k])
    ensures var p, b := rules[k][1..], Behind(rules, k);
            |p| < |b| && b == Stored(p, b[|p| + 1..])
  {
    RuleAt(rules, k);
    var i, r, b := |Blob(rules[..k])|, rules[k], Behind(rules, k);
    assert b[..|r| - 1] == Blob(rules)[i..i + |r|][1..];
    assert b[|r| - 1] == Blob(rules)[i + |r|];
    assert b == b[..|r| - 1] + [b[|r| - 1]] + b[|r|..];
  }

  /** Rule k speaks about selection (or, for err, about standard error) and matches the line. */
  predicate Speaks(rules: seq<Text>, k: nat, err: bool, line: Text, w: Around)
    requires k < |rules| && IsRule(rules[k])
  {
    (rules[k][0] in (if err then {LOWER_E, UPPER_E} else {PLUS, MINUS})) && Accepts(Behind(rules, k), line, w)
  }

  /** The sign of the last of the first n rules that speaks, else the default. */
  function VerdictUpTo(rules: seq<Text>, n: nat, err: bool, line: Text, w: Around): byte
    requires n <= |rules| && forall r :: r in rules ==> IsRule(r)
  {
    if n == 0 then (if err then UPPER_E else PLUS)
    else if Speaks(rules, n - 1, err, line, w) then rules[n - 1][0]
    else VerdictUpTo(rules, n - 1, err, line, w)
  }

  function Verdict(rules: seq<Text>, err: bool, line: Text, w: Around): byte
    requires forall r :: r in rules ==> IsRule(r)
  {
    VerdictUpTo(rules, |rules|, err, line, w)
  }

  /** svlogd(8), CONFIG: '-' (45) and '+' (43) are about selection, 'e' (101) and 'E' (69) about
      standard error; what follows is matched. */
  ghost predicate Decides(rules: seq<Text>, k: nat, err: bool, line: Text, w: Around)
    requires k < |rules|
  {
    rules[k] != [] && rules[k][0] in (if err then {101, 69} else {45, 43}) && Accepts(Behind(rules, k), line, w)
  }

  lemma SpeaksMeans(rules: seq<Text>, k: nat, err: bool, line: Text, w: Around)
    requires k < |rules| && IsRule(rules[k])
    ensures Speaks(rules, k, err, line, w) <==> Decides(rules, k, err, line, w)
  {
    hide Accepts, Behind;
  }

  /** The last rule that decides has its way; without one, a line is selected, and not for standard error. */
  lemma {:induction false} VerdictIsLastWord(rules: seq<Text>, n: nat, err: bool, line: Text, w: Around)
    requires n <= |rules| && forall r :: r in rules ==> IsRule(r)
    ensures var v := VerdictUpTo(rules, n, err, line, w);
            || ((forall k :: 0 <= k < n ==> !Decides(rules, k, err, line, w)) && v == (if err then 69 else 43))
            || exists k :: 0 <= k < n && Decides(rules, k, err, line, w) && v == rules[k][0] &&
                 forall j :: k < j < n ==> !Decides(rules, j, err, line, w)
    decreases n
  {
    hide Speaks, Decides, IsRule;
    if n > 0 {
      SpeaksMeans(rules, n - 1, err, line, w);
      VerdictIsLastWord(rules, n - 1, err, line, w);
    }
  }

  /** libbyte/byte_chr.c with a limit, from s[i] on. */
  method ByteChr(s: Text, i: nat, c: byte) returns (n: nat)
    requires i <= |s|
    ensures i + n <= |s| && c !in s[i..i + n] && (i + n < |s| ==> s[i + n] == c)
  {
    n := 0;
    while i + n < |s|
      invariant i + n <= |s| && c !in s[i..i + n]
    {
      if s[i + n] == c {
        return;
      }
      assert s[i..i + n + 1] == s[i..i + n] + [s[i + n]];
      n := n + 1;
    }
  }

  lemma FirstNul(t: Text, r: Text, n: nat)
    requires |r| < |t| && t[..|r|] == r && 0 !in r && t[|r|] == 0
    requires n <= |t| && 0 !in t[..n] && (n < |t| ==> t[n] == 0)
    ensures n == |r|
  {
    assert forall i :: 0 <= i < |r| ==> t[i] == t[..|r|][i] != 0;
    assert forall i :: 0 <= i < n ==> t[i] == t[..n][i] != 0;
  }

  lemma RulesLeft(rules: seq<Text>, k: nat)
    requires k <= |rules|
    ensures |Blob(rules[..k])| < |Blob(rules)| <==> k < |rules|
  {
    if k < |rules| {
      RuleAt(rules, k);
    } else {
      assert rules[..k] == rules;
    }
  }

  /** logmatch: walks the blob rule by rule; the last word counts. */
  method LogMatch(inst: Text, ghost rules: seq<Text>, line: Text, w: Around)
    returns (match_: byte, matcherr: byte)
    requires inst == Blob(rules) && forall r :: r in rules ==> IsRule(r)
    ensures match_ == Verdict(rules, false, line, w)
    ensures matcherr == Verdict(rules, true, line, w)
  {
    hide Accepts, Stored;
    match_ := PLUS;
    matcherr := UPPER_E;
    var i := 0;
    ghost var k := 0;
    while i < |inst|
      invariant k <= |rules| && i == |Blob(rules[..k])|
      invariant match_ == VerdictUpTo(rules, k, false, line, w)
      invariant matcherr == VerdictUpTo(rules, k, true, line, w)
      decreases |rules| - k
    {
      RulesLeft(rules, k);
      var n := RuleHere(inst, rules, k, i);
      BehindIsStored(rules, k);
      ghost var p := rules[k][1..];
      ghost var rest := Behind(rules, k)[|p| + 1..];
      var c := inst[i];
      if c == PLUS || c == MINUS {
        var hit := PMatch(inst[i + 1..], line, w, p, rest);
        if hit {
          match_ := c;
        }
      } else if c == LOWER_E || c == UPPER_E {
        var hit := PMatch(inst[i + 1..], line, w, p, rest);
        if hit {
          matcherr := c;
        }
      }
      i := i + n;
      i := i + 1;
      k := k + 1;
    }
    RulesLeft(rules, k);
    assert rules[..k] == rules;
  }

  /** The byte_chr of logmatch finds the end of the rule that starts at i. */
  method RuleHere(inst: Text, ghost rules: seq<Text>, ghost k: nat, i: nat) returns (n: nat)
    requires inst == Blob(rules) && (forall r :: r in rules ==> IsRule(r))
    requires k < |rules| && i == |Blob(rules[..k])|
    ensures 0 < n && i + n < |inst| && i + n + 1 == |Blob(rules[..k + 1])|
    ensures IsRule(rules[k]) && inst[i] == rules[k][0] && inst[i + 1..] == Behind(rules, k)
  {
    ghost var r := rules[k];
    assert r in rules && IsRule(r);
    RuleAt(rules, k);
    n := ByteChr(inst, i, 0);
    FirstNul(inst[i..], r, n);
    assert inst[i] == inst[i..i + |r|][0];
  }
}
