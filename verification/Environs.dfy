/** libunix/pathexec_env.c: changes to the environment are noted as NUL-ended chunks and applied,
    in place, to an array of the inherited strings. */
module Environs {
  import opened Bytes
  import opened Strallocs

  const EQ: byte := 61

  /** A C string. */
  predicate NulFree(s: Text) {
    0 !in s
  }

  // ---- what the strings mean ------------------------------------------------------------

  /** The name is what stands before the first '='. */
  function Split(c: Text): (n: nat)
    ensures n <= |c| && EQ !in c[..n]
    ensures n < |c| ==> c[n] == EQ
  {
    if c == [] || c[0] == EQ then 0
    else
      var n := 1 + Split(c[1..]);
      assert c[..n] == [c[0]] + c[1..][..n - 1];
      n
  }

  lemma {:induction false} SplitIs(c: Text, n: nat)
    requires n <= |c| && EQ !in c[..n] && (n < |c| ==> c[n] == EQ)
    ensures Split(c) == n
    decreases n
  {
    if n > 0 {
      assert c[0] == c[..n][0];
      assert c[1..][..n - 1] == c[..n][1..];
      SplitIs(c[1..], n - 1);
    }
  }

  function Name(c: Text): Text {
    c[..Split(c)]
  }

  /** The string gives its name a value; a chunk that does not is a removal. */
  predicate Sets(c: Text) {
    Split(c) < |c|
  }

  function Assigned(c: Text): Text
    requires Sets(c)
  {
    c[Split(c) + 1..]
  }

  predicate Named(x: Text, name: Text) {
    Sets(x) && Name(x) == name
  }

  // ---- what the array becomes -----------------------------------------------------------

  function FirstNamed(e: seq<Text>, name: Text): (t: nat)
    ensures t <= |e|
    ensures forall u :: 0 <= u < t ==> !Named(e[u], name)
    ensures t < |e| ==> Named(e[t], name)
  {
    if e == [] || Named(e[0], name) then 0
    else
      var t := 1 + FirstNamed(e[1..], name);
      assert forall u :: 1 <= u < t ==> e[u] == e[1..][u - 1];
      t
  }

  /** The last string takes the place of the first one with the name. */
  function Dropped(e: seq<Text>, name: Text): seq<Text> {
    var t := FirstNamed(e, name);
    if t < |e| then e[t := e[|e| - 1]][..|e| - 1] else e
  }

  function Applied(e: seq<Text>, c: Text): seq<Text> {
    Dropped(e, Name(c)) + if Sets(c) then [c] else []
  }

  function Built(e: seq<Text>, cs: seq<Text>): seq<Text> {
    if cs == [] then e else Applied(Built(e, cs[..|cs| - 1]), cs[|cs| - 1])
  }

  ghost function Occurrences(e: seq<Text>, name: Text): nat {
    if e == [] then 0
    else Occurrences(e[..|e| - 1], name) + if Named(e[|e| - 1], name) then 1 else 0
  }

  /** libunix/env.c: the first string with the name decides. */
  function Get(e: seq<Text>, name: Text): Maybe {
    var t := FirstNamed(e, name);
    if t < |e| then Some(Assigned(e[t])) else None
  }

  /** What a name should mean after changes made in call order: the last change to it decides, and
      a name that was never changed keeps its inherited meaning. */
  function Wanted(e: seq<Text>, cs: seq<Text>, name: Text): Maybe {
    if cs == [] then Get(e, name)
    else
      var c := cs[|cs| - 1];
      if Name(c) != name then Wanted(e, cs[..|cs| - 1], name)
      else if Sets(c) then Some(Assigned(c)) else None
  }

  lemma {:induction false} OccurrencesAdd(a: seq<Text>, b: seq<Text>, name: Text)
    ensures Occurrences(a + b, name) == Occurrences(a, name) + Occurrences(b, name)
  {
    if b == [] {
      assert a + b == a;
    } else {
      var m := |b| - 1;
      assert (a + b)[..|a + b| - 1] == a + b[..m];
      OccurrencesAdd(a, b[..m], name);
    }
  }

  lemma {:induction false} OccurrencesOne(x: Text, name: Text)
    ensures Occurrences([x], name) == if Named(x, name) then 1 else 0
  {
    assert [x][..0] == [];
  }

  /** A name occurs exactly when the search finds it. */
  lemma {:induction false} OccursIffFound(e: seq<Text>, name: Text)
    ensures Occurrences(e, name) == 0 <==> FirstNamed(e, name) == |e|
  {
    var t := FirstNamed(e, name);
    if t < |e| {
      OccursOnceMore(e, t, name);
    } else {
      NeverNamed(e, name);
    }
  }

  lemma {:induction false} NeverNamed(e: seq<Text>, name: Text)
    requires forall u :: 0 <= u < |e| ==> !Named(e[u], name)
    ensures Occurrences(e, name) == 0
  {
    if e != [] {
      NeverNamed(e[..|e| - 1], name);
    }
  }

  lemma {:induction false} OccursOnceMore(e: seq<Text>, t: nat, name: Text)
    requires t < |e| && Named(e[t], name)
    ensures Occurrences(e, name) == Occurrences(e[..t], name) + 1 + Occurrences(e[t + 1..], name)
  {
    assert e == e[..t] + [e[t]] + e[t + 1..];
    OccurrencesAdd(e[..t] + [e[t]], e[t + 1..], name);
    OccurrencesAdd(e[..t], [e[t]], name);
    OccurrencesOne(e[t], name);
  }

  /** A name that occurs once means what any string with that name says. */
  lemma {:induction false} OnlyOneDecides(e: seq<Text>, i: nat, name: Text)
    requires i < |e| && Named(e[i], name) && Occurrences(e, name) <= 1
    ensures Get(e, name) == Some(Assigned(e[i]))
  {
    var t := FirstNamed(e, name);
    if t < i {
      OccursOnceMore(e, i, name);
      assert e[..i][t] == e[t];
      OccursOnceMore(e[..i], t, name);
      assert false;
    }
  }

  lemma SeqParts(e: seq<Text>, t: nat)
    requires t < |e| - 1
    ensures var n := |e| - 1; e == e[..t] + [e[t]] + e[t + 1..n] + [e[n]]
  {
  }

  lemma HoleFilled(e: seq<Text>, t: nat)
    requires t < |e| - 1
    ensures var n := |e| - 1; e[t := e[n]][..n] == e[..t] + [e[n]] + e[t + 1..n]
  {
  }

  /** The string at the end moves into the hole; nothing else moves. */
  lemma DroppedShape(e: seq<Text>, name: Text)
    ensures var t, n := FirstNamed(e, name), |e| - 1;
      && (t == |e| ==> Dropped(e, name) == e)
      && (t == n >= 0 ==> Dropped(e, name) == e[..n])
      && (t < n ==> Dropped(e, name) == e[..t] + [e[n]] + e[t + 1..n] && e == e[..t] + [e[t]] + e[t + 1..n] + [e[n]])
  {
    hide FirstNamed;
    var t, n := FirstNamed(e, name), |e| - 1;
    if t < n {
      SeqParts(e, t);
      HoleFilled(e, t);
    } else if t == n {
      assert e[t := e[n]][..n] == e[..n];
    }
  }

  lemma SwapCounts(a: seq<Text>, x: Text, m: seq<Text>, y: Text, name: Text)
    ensures Occurrences(a + [x] + m + [y], name) ==
            Occurrences(a + [y] + m, name) + if Named(x, name) then 1 else 0
  {
    hide Occurrences, Named;
    OccurrencesOne(x, name);
    OccurrencesOne(y, name);
    OccurrencesAdd(a + [x] + m, [y], name);
    OccurrencesAdd(a + [x], m, name);
    OccurrencesAdd(a, [x], name);
    OccurrencesAdd(a + [y], m, name);
    OccurrencesAdd(a, [y], name);
  }

  /** Dropping takes one occurrence of its name away, if there is one, and none of another. */
  lemma DropCounts(e: seq<Text>, drop: Text, name: Text)
    ensures Occurrences(e, name) ==
            Occurrences(Dropped(e, drop), name) + if name == drop && Occurrences(e, name) > 0 then 1 else 0
  {
    var t, n := FirstNamed(e, drop), |e| - 1;
    OccursIffFound(e, drop);
    DroppedShape(e, drop);
    assert t <= n ==> (Named(e[t], name) <==> name == drop);
    hide Occurrences, FirstNamed, Dropped, Named;
    if t < n {
      SwapCounts(e[..t], e[t], e[t + 1..n], e[n], name);
    } else if t == n {
      assert e == e[..n] + [e[n]];
      OccurrencesAdd(e[..n], [e[n]], name);
      OccurrencesOne(e[n], name);
    }
  }

  /** One change: its name loses one occurrence, if it had any, and gains one if it is set. Every
      other name keeps all of its occurrences. */
  lemma {:induction false} ChangeCounts(e: seq<Text>, c: Text, name: Text)
    ensures var before, after := Occurrences(e, name), Occurrences(Applied(e, c), name);
      if name == Name(c) then after == (if before > 0 then before - 1 else 0) + (if Sets(c) then 1 else 0)
      else after == before
  {
    var d := Dropped(e, Name(c));
    OccurrencesAdd(d, if Sets(c) then [c] else [], name);
    OccurrencesOne(c, name);
    DropCounts(e, Name(c), name);
  }

  /** One change does to a name that occurs at most once what it should. */
  lemma {:induction false} ChangeMeans(e: seq<Text>, c: Text, name: Text)
    requires Occurrences(e, name) <= 1
    ensures Occurrences(Applied(e, c), name) <= 1
    ensures Get(Applied(e, c), name) == Wanted(e, [c], name)
  {
    ChangeCounts(e, c, name);
    var f := Applied(e, c);
    assert [c][..0] == [];
    if name == Name(c) {
      if Sets(c) {
        OnlyOneDecides(f, |f| - 1, name);
      } else {
        OccursIffFound(f, name);
      }
    } else {
      OccursIffFound(e, name);
      OccursIffFound(f, name);
      var t := FirstNamed(e, name);
      if t < |e| {
        var i := StillThere(e, c, t);
        OnlyOneDecides(f, i, name);
      }
    }
  }

  lemma {:induction false} StillThere(e: seq<Text>, c: Text, t: nat) returns (i: nat)
    requires t < |e| && !Named(e[t], Name(c))
    ensures i < |Applied(e, c)| && Applied(e, c)[i] == e[t]
  {
    var h := FirstNamed(e, Name(c));
    i := if h < |e| - 1 && t == |e| - 1 then h else t;
  }

  /** The merge: whatever else is in the inherited environment, a name that occurs at most once in
      it means, in the built array, what the last change to it says, or what it inherited. */
  lemma {:induction false} MergeMeans(e: seq<Text>, cs: seq<Text>, name: Text)
    requires Occurrences(e, name) <= 1
    ensures Occurrences(Built(e, cs), name) <= 1
    ensures Get(Built(e, cs), name) == Wanted(e, cs, name)
  {
    if cs != [] {
      var n := |cs| - 1;
      MergeMeans(e, cs[..n], name);
      ChangeMeans(Built(e, cs[..n]), cs[n], name);
    }
  }

  /** A removal works exactly when there is at most one occurrence to remove. */
  lemma {:induction false} RemovalWorksIff(e: seq<Text>, c: Text)
    requires !Sets(c)
    ensures Get(Applied(e, c), Name(c)) == None <==> Occurrences(e, Name(c)) <= 1
  {
    ChangeCounts(e, c, Name(c));
    OccursIffFound(Applied(e, c), Name(c));
  }

  lemma {:induction false} FirstIs(e: seq<Text>, k: nat, name: Text)
    requires k <= |e| && (forall u :: 0 <= u < k ==> !Named(e[u], name)) && (k < |e| ==> Named(e[k], name))
    ensures FirstNamed(e, name) == k
  {
  }

  /** After a first string with the name is dropped, another one comes first: the last string, which
      fills the hole, if it has the name and another place; else the second one. */
  function Survivor(e: seq<Text>, name: Text): Maybe {
    var t, n := FirstNamed(e, name), |e| - 1;
    if t >= n then None
    else if Named(e[n], name) then Some(Assigned(e[n]))
    else Get(e[t + 1..n], name)
  }

  lemma {:induction false} GetAppend(a: seq<Text>, b: seq<Text>, name: Text)
    ensures Get(a + b, name) == if FirstNamed(a, name) < |a| then Get(a, name) else Get(b, name)
  {
    var k, m := FirstNamed(a, name), FirstNamed(b, name);
    assert forall u :: 0 <= u < |b| ==> (a + b)[|a| + u] == b[u];
    assert forall u :: |a| <= u < |a| + m ==> (a + b)[u] == b[u - |a|];
    FirstIs(a + b, if k < |a| then k else |a| + m, name);
  }

  lemma DroppedMeans(e: seq<Text>, name: Text)
    ensures Get(Dropped(e, name), name) == Survivor(e, name)
  {
    var t, n := FirstNamed(e, name), |e| - 1;
    DroppedShape(e, name);
    if t < n {
      var front, hole, rest := e[..t], [e[n]], e[t + 1..n];
      FirstIs(front, t, name);
      FirstIs(hole, if Named(e[n], name) then 0 else 1, name);
      hide FirstNamed, Dropped, Named;
      GetAppend(front + hole, rest, name);
      GetAppend(front, hole, name);
    } else {
      FirstIs(Dropped(e, name), |Dropped(e, name)|, name);
    }
  }

  /** A setting works exactly when there is at most one occurrence to replace, or the string that
      then comes first says the same. */
  lemma SettingWorksIff(e: seq<Text>, c: Text)
    requires Sets(c)
    ensures var name, d := Name(c), Some(Assigned(c));
      && (Survivor(e, name) == None <==> Occurrences(e, name) <= 1)
      && (Get(Applied(e, c), name) == d <==> Occurrences(e, name) <= 1 || Survivor(e, name) == d)
  {
    var name := Name(c);
    var d := Dropped(e, name);
    DroppedMeans(e, name);
    GetAppend(d, [c], name);
    FirstIs([c], 0, name);
    DropCounts(e, name, name);
    OccursIffFound(d, name);
    hide Dropped, Occurrences, FirstNamed, Survivor;
  }

  /** The array after a change, string by string. */
  lemma AppliedAt(e: seq<Text>, c: Text)
    ensures var t, g := FirstNamed(e, Name(c)), Applied(e, c);
      var m := if t < |e| then |e| - 1 else |e|;
      && |g| == m + (if Sets(c) then 1 else 0) && (Sets(c) ==> g[m] == c)
      && forall i :: 0 <= i < m ==> g[i] == if i == t then e[|e| - 1] else e[i]
  {
    hide FirstNamed, Split;
  }

  lemma OtherName(x: Text, drop: Text, name: Text)
    requires name != drop && (Name(x) == drop || Named(x, drop))
    ensures !Named(x, name)
  {
  }

  /** Where the first string with another name is found after a change. */
  lemma FirstAfter(e: seq<Text>, c: Text, name: Text) returns (k: nat)
    requires name != Name(c)
    ensures var t, f, n := FirstNamed(e, Name(c)), FirstNamed(e, name), |e| - 1;
      k == if f == |e| then |Applied(e, c)| else if t < f && Named(e[n], name) then t else f
    ensures FirstNamed(Applied(e, c), name) == k
    ensures FirstNamed(e, name) < |e| ==> k < |Applied(e, c)|
    ensures k < |Applied(e, c)| ==> Applied(e, c)[k] == e[if k < FirstNamed(e, name) then |e| - 1 else k]
  {
    hide *;
    var t, f, n, g := FirstNamed(e, Name(c)), FirstNamed(e, name), |e| - 1, Applied(e, c);
    AppliedAt(e, c);
    k := if f == |e| then |g| else if t < f && Named(e[n], name) then t else f;
    OtherName(c, Name(c), name);
    if t < |e| {
      OtherName(e[t], Name(c), name);
    }
    forall u | 0 <= u < k
      ensures !Named(g[u], name)
    {
      if u < |g| - 1 && u != t && u < f {
        assert g[u] == e[u];
      }
    }
    FirstIs(g, k, name);
  }

  /** A change to one name leaves the meaning of another as it is, unless the swap brings a second
      string for that other name in front of its first one, with another value. That is exactly
      when it fails. */
  lemma OtherNamesKeepMeaningIff(e: seq<Text>, c: Text, name: Text)
    requires name != Name(c)
    ensures var t, f, n := FirstNamed(e, Name(c)), FirstNamed(e, name), |e| - 1;
      Get(Applied(e, c), name) == Get(e, name) <==>
        !(t < f < n && Named(e[n], name) && Assigned(e[n]) != Assigned(e[f]))
  {
    hide FirstNamed, Dropped, Applied, Name, Split, Assigned, Named, Sets;
    var k := FirstAfter(e, c, name);
  }

  /** The example: removing A from A=1 B=1 B=2 makes B mean 2. */
  lemma {:induction false} SwapShowsTheOther()
    ensures var e, c := [Ascii("A=1"), Ascii("B=1"), Ascii("B=2")], Ascii("A");
      Get(e, Ascii("B")) == Some(Ascii("1")) && Get(Applied(e, c), Ascii("B")) == Some(Ascii("2"))
  {
    assert Ascii("A") == [65] && Ascii("B") == [66] && Ascii("1") == [49] && Ascii("2") == [50];
    assert Ascii("A=1") == [65, EQ, 49] && Ascii("B=1") == [66, EQ, 49] && Ascii("B=2") == [66, EQ, 50];
    var a1: Text, b1: Text, b2: Text := [65, EQ, 49], [66, EQ, 49], [66, EQ, 50];
    SplitIs(a1, 1);
    SplitIs(b1, 1);
    SplitIs(b2, 1);
    var e, c: Text := [a1, b1, b2], [65];
    SplitIs(c, 1);
    FirstIs(e, 0, [65]);
    FirstIs(e, 1, [66]);
    assert Applied(e, c) == [b2, b1];
    FirstIs([b2, b1], 0, [66]);
  }

  /** The example for a setting: with A=1 A=2, setting A=3 leaves A meaning 2. */
  lemma {:induction false} SettingShowsTheOther()
    ensures Get(Applied([Ascii("A=1"), Ascii("A=2")], Ascii("A=3")), Ascii("A")) == Some(Ascii("2"))
  {
    assert Ascii("A") == [65] && Ascii("2") == [50];
    assert Ascii("A=1") == [65, EQ, 49] && Ascii("A=2") == [65, EQ, 50] && Ascii("A=3") == [65, EQ, 51];
    var a1: Text, a2: Text, c: Text := [65, EQ, 49], [65, EQ, 50], [65, EQ, 51];
    SplitIs(a1, 1);
    SplitIs(a2, 1);
    SplitIs(c, 1);
    FirstIs([a1, a2], 0, [65]);
    assert Applied([a1, a2], c) == [a2, c];
    FirstIs([a2, c], 0, [65]);
  }

  // ---- the chunks -----------------------------------------------------------------------

  function Chunk(s: Text, t: Maybe): Text {
    if t.Some? then s + [EQ] + t.text else s
  }

  /** A call with a name free of '=' is the change it says it is. */
  lemma {:induction false} ChunkMeans(s: Text, t: Maybe)
    requires EQ !in s
    ensures Name(Chunk(s, t)) == s
    ensures Sets(Chunk(s, t)) <==> t.Some?
    ensures t.Some? ==> Assigned(Chunk(s, t)) == t.text
  {
    var c := Chunk(s, t);
    assert c[..|s|] == s;
    SplitIs(c, |s|);
  }

  /** The calls as kept in memory: each chunk with its NUL. */
  ghost function Joined(cs: seq<Text>): Text {
    if cs == [] then [] else Joined(cs[..|cs| - 1]) + cs[|cs| - 1] + [0]
  }

  lemma {:induction false} JoinedMore(cs: seq<Text>, c: Text)
    ensures Joined(cs + [c]) == Joined(cs) + (c + [0])
  {
    assert (cs + [c])[..|cs|] == cs;
  }

  lemma {:induction false} JoinedPrefix(cs: seq<Text>, k: nat)
    requires k <= |cs|
    ensures Joined(cs[..k]) <= Joined(cs)
  {
    if k == |cs| {
      assert cs[..k] == cs;
    } else {
      var n := |cs| - 1;
      JoinedPrefix(cs[..n], k);
      assert cs[..n][..k] == cs[..k];
    }
  }

  /** A walk that counts NULs knows which chunk it is in: chunk k starts where j says, no NUL was
      seen between j and i. */
  ghost predicate Walking(cs: seq<Text>, k: nat, j: nat, i: nat) {
    && k <= |cs| && j <= i <= |Joined(cs)|
    && Joined(cs[..k]) == Joined(cs)[..j]
    && NulFree(Joined(cs)[j..i])
  }

  /** Chunk k as it lies in memory. */
  lemma {:induction false} ChunkAt(cs: seq<Text>, k: nat, j: nat)
    requires k < |cs| && j <= |Joined(cs)| && Joined(cs[..k]) == Joined(cs)[..j]
    ensures var p, m := Joined(cs), j + |cs[k]|;
      m < |p| && p[j..m] == cs[k] && p[m] == 0 && p[..m + 1] == Joined(cs[..k + 1])
  {
    var p, m := Joined(cs), j + |cs[k]|;
    JoinedPrefix(cs, k + 1);
    assert cs[..k + 1][..k] == cs[..k] && cs[..k + 1][k] == cs[k];
    var front := p[..j] + cs[k] + [0];
    assert front <= p;
    assert front[j..m] == cs[k] && front[m] == 0;
  }

  lemma {:induction false} WalkStarts(cs: seq<Text>)
    ensures Walking(cs, 0, 0, 0)
  {
    assert cs[..0] == [];
  }

  /** A step of the walk. At a NUL the chunk is complete. */
  lemma {:induction false} WalkOn(cs: seq<Text>, k: nat, j: nat, i: nat)
    requires forall c :: c in cs ==> NulFree(c)
    requires Walking(cs, k, j, i) && i < |Joined(cs)|
    ensures k < |cs|
    ensures if Joined(cs)[i] == 0
      then cs[k] == Joined(cs)[j..i] && Walking(cs, k + 1, i + 1, i + 1)
      else Walking(cs, k, j, i + 1)
  {
    var p := Joined(cs);
    assert cs[..|cs|] == cs;
    ChunkAt(cs, k, j);
    var m := j + |cs[k]|;
    assert NulFree(cs[k]);
    NoNulBefore(p, j, i, m);
    if p[i] == 0 {
      NoNulBefore(p, j, m, i);
    }
    assert p[j..i + 1] == p[j..i] + [p[i]];
  }

  lemma NoNulBefore(p: Text, j: nat, i: nat, m: nat)
    requires j <= i <= |p| && j <= m < |p| && NulFree(p[j..i]) && p[m] == 0
    ensures i <= m
  {
    assert forall x :: j <= x < i ==> p[x] == p[j..i][x - j];
  }

  /** At the end of the text every chunk was seen. */
  lemma {:induction false} WalkEnds(cs: seq<Text>, k: nat, j: nat)
    requires forall c :: c in cs ==> NulFree(c)
    requires Walking(cs, k, j, |Joined(cs)|)
    ensures k == |cs|
  {
    var p := Joined(cs);
    assert forall x :: j <= x < |p| ==> p[x] == p[j..|p|][x - j];
    if k < |cs| {
      ChunkAt(cs, k, j);
    }
  }

  // ---- the program ----------------------------------------------------------------------

  /** byte_equal of the first n bytes of c, which holds no NUL there, and the C string x. */
  method ByteEqual(c: Text, n: nat, x: Text) returns (same: bool)
    requires n <= |c| && NulFree(c) && NulFree(x)
    ensures same <==> n <= |x| && c[..n] == x[..n]
  {
    var i := 0;
    while i < n
      invariant i <= n && i <= |x| && c[..i] == x[..i]
    {
      if c[i] != At(x, i) {
        return false;
      }
      i := i + 1;
    }
    return true;
  }

  /** str_chr of '=' */
  method StrChrEq(c: Text) returns (n: nat)
    requires NulFree(c)
    ensures n == Split(c)
  {
    n := 0;
    while At(c, n) != 0 && At(c, n) != EQ
      invariant n <= |c| && Split(c) == n + Split(c[n..])
      decreases |c| - n
    {
      assert c[n..][1..] == c[n + 1..];
      n := n + 1;
    }
  }

  /** The first split bytes and the '=' behind them are what makes a string carry the name. */
  lemma {:induction false} SameName(c: Text, x: Text)
    ensures Named(x, Name(c)) <==>
      Split(c) < |x| && c[..Split(c)] == x[..Split(c)] && x[Split(c)] == EQ
  {
    var n := Split(c);
    if n < |x| && c[..n] == x[..n] && x[n] == EQ {
      SplitIs(x, n);
    }
  }

  class Environ {
    const plus: Stralloc
    const tmp: Stralloc
    ghost var calls: seq<Text>     // the chunks of the calls that returned 1

    ghost predicate Valid()
      reads this, plus, plus.s, tmp, tmp.s
    {
      && plus != tmp && (plus.s == null || plus.s != tmp.s)
      && plus.Valid() && tmp.Valid()
      && plus.Contents() == Joined(calls)
      && (forall c :: c in calls ==> NulFree(c))
    }

    constructor ()
      ensures Valid() && calls == []
    {
      plus := new Stralloc();
      tmp := new Stralloc();
      calls := [];
    }

    /** The part of pathexec_env that writes the chunk and its NUL to tmp. */
    static method Compose(tmp: Stralloc, s: Text, t: Maybe) returns (ok: bool)
      requires tmp.Valid() && Small(|Chunk(s, t)| + 1)
      modifies tmp, tmp.s
      ensures tmp.Valid() && (tmp.s == old(tmp.s) || fresh(tmp.s)) && (ok ==> tmp.s != null)
      ensures ok ==> tmp.Contents() == Chunk(s, t) + [0]
    {
      hide Linear, Joined, NulFree, Small;
      SmallerIsSmall(|s| + 1, |Chunk(s, t)| + 1);
      SmallerIsSmall(|Chunk(s, t)|, |Chunk(s, t)| + 1);
      ok := tmp.CopyB(s);
      if !ok {
        return;
      }
      if t.Some? {
        SmallerIsSmall(|s| + 2, |Chunk(s, t)| + 1);
        ok := tmp.CatB([EQ]);
        if !ok {
          return;
        }
        ok := tmp.CatB(t.text);
        if !ok {
          return;
        }
      }
      ok := tmp.Append(0);
    }

    /** pathexec_env. A call that fails leaves no trace in plus. */
    method Env(s: Maybe, t: Maybe) returns (ok: bool)
      requires Valid()
      requires s.Some? ==> NulFree(s.text)
      requires t.Some? ==> NulFree(t.text)
      requires s.Some? ==> Small(|Joined(calls)| + |Chunk(s.text, t)| + 2)
      modifies this, plus, plus.s, tmp, tmp.s
      ensures Valid()
      ensures calls == old(calls) + if ok && s.Some? then [Chunk(s.text, t)] else []
      ensures s == None ==> ok
    {
      hide Linear, Split, Small, Joined;
      if s == None {
        return true;
      }
      SmallerIsSmall(|Chunk(s.text, t)| + 1, |Joined(calls)| + |Chunk(s.text, t)| + 2);
      ok := Compose(tmp, s.text, t);
      if !ok {
        return;
      }
      ghost var c := Chunk(s.text, t);
      ok := plus.CatB(tmp.s[..tmp.len]);
      if ok {
        JoinedMore(calls, c);
        calls := calls + [c];
      }
    }

    /** pathexec_env_run, the size of the array. */
    method Count(environ: seq<Text>) returns (elen: nat)
      requires Valid() && plus.s != null
      ensures elen == |environ| + |calls|
    {
      hide Linear, Small, Joined, Walking;
      elen := |environ|;
      ghost var p := plus.Contents();
      ghost var k, j := 0, 0;
      WalkStarts(calls);
      var i := 0;
      while i < plus.len
        invariant i <= |p| && Walking(calls, k, j, i) && elen == |environ| + k
      {
        WalkOn(calls, k, j, i);
        if plus.s[i] == 0 {
          elen := elen + 1;
          k, j := k + 1, i + 1;
        }
        i := i + 1;
      }
      WalkEnds(calls, k, j);
    }

    /** The inner loop of pathexec_env_run: forget the first string with the chunk's name. */
    static method Forget(c: Text, split: nat, e: array<Text>, elen: nat) returns (left: nat)
      requires NulFree(c) && split == Split(c) && elen <= e.Length
      requires forall x :: x in e[..elen] ==> NulFree(x)
      modifies e
      ensures left <= elen && e[..left] == Dropped(old(e[..elen]), Name(c))
    {
      left := elen;
      var t := 0;
      ghost var was := e[..elen];
      while t < left
        invariant t <= left == elen && e[..elen] == was
        invariant forall u :: 0 <= u < t ==> !Named(was[u], Name(c))
      {
        SameName(c, was[t]);
        assert e[t] == was[t] && was[t] in e[..elen];
        var same := ByteEqual(c, split, e[t]);
        if same && At(e[t], split) == EQ {
          left := left - 1;
          e[t] := e[left];
          assert FirstNamed(was, Name(c)) == t;
          assert e[..left] == Dropped(was, Name(c));
          return;
        }
        t := t + 1;
      }
    }

    /** One turn of the outer loop of pathexec_env_run. There must be room for one string more. */
    static method Apply(c: Text, e: array<Text>, elen: nat) returns (left: nat)
      requires NulFree(c) && elen < e.Length
      requires forall x :: x in e[..elen] ==> NulFree(x)
      modifies e
      ensures left <= elen + 1 && e[..left] == Applied(old(e[..elen]), c)
      ensures forall x :: x in e[..left] ==> NulFree(x)
    {
      hide FirstNamed;
      var split := StrChrEq(c);
      ghost var was := e[..elen];
      left := Forget(c, split, e, elen);
      ghost var rest := e[..left];
      assert forall x :: x in rest ==> x in was;
      if At(c, split) != 0 {
        e[left] := c;
        left := left + 1;
        assert e[..left] == rest + [c];
      }
    }

    /** pathexec_env_run up to the call of pathexec_run, which gets the strings before the null
        pointer. No index passes the block allocated for elen + 1 pointers. */
    method Run(environ: seq<Text>) returns (vec: Outcome)
      requires Valid() && Small(|Joined(calls)| + 1)
      requires forall x :: x in environ ==> NulFree(x)
      modifies plus, plus.s
      ensures Valid()
      ensures vec.Started? ==> vec.vec == Built(environ, calls)
      ensures vec.Started? ==> forall name: Text :: Occurrences(environ, name) <= 1 ==>
                Occurrences(vec.vec, name) <= 1 && Get(vec.vec, name) == Wanted(environ, calls, name)
    {
      hide Linear, Small, Joined, Walking, Applied, NulFree, Occurrences, Get, Wanted, Built;
      assert Joined(calls) + [] == Joined(calls);
      var ok := plus.CatB([]);
      if !ok {
        return NoMemory;
      }
      var elen := Count(environ);
      ok := *;
      if !ok {
        return NoMemory;
      }
      var e := new Text[elen + 1](_ => []);
      elen := 0;
      while elen < |environ|
        invariant elen <= |environ| && e[..elen] == environ[..elen]
        modifies e
      {
        e[elen] := environ[elen];
        elen := elen + 1;
      }
      elen := Merge(environ, e);
      e[elen] := [];
      assert e[..elen] == Built(environ, calls);
      forall name: Text | Occurrences(environ, name) <= 1
        ensures Occurrences(Built(environ, calls), name) <= 1
        ensures Get(Built(environ, calls), name) == Wanted(environ, calls, name)
      {
        MergeMeans(environ, calls, name);
      }
      return Started(e[..elen]);
    }

    /** The outer loop of pathexec_env_run. */
    method Merge(environ: seq<Text>, e: array<Text>) returns (elen: nat)
      requires Valid() && plus.s != null && plus.s != e as object
      requires e.Length == |environ| + |calls| + 1 && e[..|environ|] == environ
      requires forall x :: x in environ ==> NulFree(x)
      modifies e
      ensures elen < e.Length && e[..elen] == Built(environ, calls)
    {
      hide Linear, Small, Joined, Walking, Applied, NulFree;
      ghost var p := plus.Contents();
      var i, j := 0, 0;
      ghost var k := 0;
      elen := |environ|;
      WalkStarts(calls);
      assert calls[..0] == [];
      while i < plus.len
        invariant j <= i <= |p| && k <= |calls| && Walking(calls, k, j, i) && plus.s[..plus.len] == p
        invariant elen <= |environ| + k
        invariant e[..elen] == Built(environ, calls[..k])
        invariant forall x :: x in e[..elen] ==> NulFree(x)
      {
        WalkOn(calls, k, j, i);
        if plus.s[i] == 0 {
          assert plus.s[j..i] == plus.s[..plus.len][j..i];
          elen := Apply(plus.s[j..i], e, elen);
          assert calls[..k + 1][..k] == calls[..k];
          j, k := i + 1, k + 1;
        }
        i := i + 1;
      }
      WalkEnds(calls, k, j);
      assert calls[..k] == calls;
    }
  }

  datatype Outcome = NoMemory | Started(vec: seq<Text>)
}
