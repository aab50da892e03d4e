/** svlogd's deletion of old log files: which of the rotated files are still there. */
module Retention {
  import opened Bytes
  import opened Tai
  import opened Labels
  import opened LogSpec

  /** The files of a log directory other than `current`, by name. */
  type Files = map<Text, Text>

  const AT: byte := 64
  const LETTER_T: byte := 116

  /** '@', 26 more bytes: the names rmoldest looks at. */
  predicate Stamped(f: Text) {
    |f| == 27 && f[0] == AT
  }

  /** A processor's unfinished output. */
  predicate Leftover(f: Text) {
    Stamped(f) && f[26] == LETTER_T
  }

  predicate IsOldFile(f: Text) {
    Stamped(f) && f[26] != LETTER_T
  }

  /** The label of the rotation time and ".s". */
  ghost function FileName(t: Taia): Text {
    Label(t) + [46, 115]
  }

  ghost function OldFiles(d: Files): set<Text> {
    set f | f in d && IsOldFile(f)
  }

  ghost predicate IsOldest(f: Text, names: set<Text>) {
    f in names && forall g :: g in names ==> g == f || LexLess(f, g)
  }

  lemma {:induction false} SomeOldest(names: set<Text>)
    requires names != {}
    ensures exists f :: IsOldest(f, names)
    decreases names
  {
    var f :| f in names;
    var rest := names - {f};
    if rest == {} {
      assert names == {f};
      assert IsOldest(f, names);
    } else {
      SomeOldest(rest);
      var g :| IsOldest(g, rest);
      LexTrichotomy(f, g);
      if LexLess(f, g) {
        forall h | h in names
          ensures h == f || LexLess(f, h)
        {
          if h != f && h != g {
            LexTransitive(f, g, h);
          }
        }
        assert IsOldest(f, names);
      } else {
        assert IsOldest(g, names);
      }
    }
  }

  lemma OneOldest(f: Text, g: Text, names: set<Text>)
    requires IsOldest(f, names) && IsOldest(g, names)
    ensures f == g
  {
    LexTrichotomy(f, g);
  }

  function WithoutLeftovers(d: Files): Files {
    map f | f in d && !Leftover(f) :: d[f]
  }

  /** The directory after rmoldest: no leftovers, and with more than nmax old files (nmax being
      nonzero) one less, the oldest by name. */
  ghost function Purged(d: Files, nmax: nat): Files {
    var names := OldFiles(d);
    if nmax != 0 && |names| > nmax then
      SomeOldest(names);
      var f :| IsOldest(f, names);
      WithoutLeftovers(d) - {f}
    else
      WithoutLeftovers(d)
  }

  /** What rmoldest deletes: of the names of 27 bytes that start with '@', the unfinished ones, which end in
      't', and the least of the others if there are more than nmax (0 for any number). Nothing else is
      touched. */
  lemma PurgedIff(d: Files, nmax: nat, f: Text)
    ensures var unfinished := |f| == 27 && f[0] == '@' as int && f[26] == 't' as int;
            var oldest := IsOldest(f, OldFiles(d)) && 0 < nmax < |OldFiles(d)|;
            f in Purged(d, nmax) <==> f in d && !unfinished && !oldest
    ensures f in Purged(d, nmax) ==> Purged(d, nmax)[f] == d[f]
    ensures f in OldFiles(d) <==> f in d && |f| == 27 && f[0] == '@' as int && f[26] != 't' as int
  {
    var names := OldFiles(d);
    if 0 < nmax < |names| {
      SomeOldest(names);
      var g :| IsOldest(g, names) && Purged(d, nmax) == WithoutLeftovers(d) - {g};
      if IsOldest(f, names) {
        OneOldest(f, g, names);
      }
    }
  }

  /** The name of a rotated file tells when: "@", the time in hexadecimal, ".s". */
  lemma FileNameTells(t: Taia)
    requires Normal(t)
    ensures var f := FileName(t);
            && |f| == 27 && f[0] == '@' as int && f[25..] == Ascii(".s") && IsHex(f[1..25])
            && FromDigits(16, HexDigits(f[1..17])) == t.sec && FromDigits(16, HexDigits(f[17..25])) == t.nano
  {
    LabelTells(t);
    hide Label, HexDigits, FromDigits, IsHex;
    var f, l := FileName(t), Label(t);
    assert f[1..25] == l[1..] && f[1..17] == l[1..17] && f[17..25] == l[17..];
  }

  lemma PurgedSubset(d: Files, nmax: nat)
    ensures Purged(d, nmax).Keys <= d.Keys
  {
  }

  /** A rotated file under its name. */
  datatype File = File(name: Text, text: Text)

  /** The directory after rotations that made the files fs, in turn, starting from d. */
  ghost function Replay(d: Files, fs: seq<File>, nmax: nat): Files {
    if fs == [] then d
    else
      var last := fs[|fs| - 1];
      Purged(Replay(d, fs[..|fs| - 1], nmax)[last.name := last.text], nmax)
  }

  /** rotate takes a name that no file has. */
  ghost predicate FreshNames(d: Files, fs: seq<File>, nmax: nat) {
    forall k :: 0 <= k < |fs| ==> fs[k].name !in Replay(d, fs[..k], nmax)
  }

  // ----- what is retained -----

  ghost predicate Ascending(fs: seq<File>) {
    forall i, j :: 0 <= i < j < |fs| ==> LexLess(fs[i].name, fs[j].name)
  }

  ghost function Names(fs: seq<File>): set<Text> {
    set k | 0 <= k < |fs| :: fs[k].name
  }

  /** The old files of d are exactly fs, names and contents. */
  ghost predicate Holds(d: Files, fs: seq<File>) {
    && OldFiles(d) == Names(fs)
    && forall k :: 0 <= k < |fs| ==> fs[k].name in d && d[fs[k].name] == fs[k].text
  }

  /** The most recent n, or all when n is 0. */
  function Latest<T>(s: seq<T>, n: nat): seq<T> {
    if n == 0 || |s| <= n then s else s[|s| - n..]
  }

  lemma {:induction false} NamesCount(fs: seq<File>)
    requires Ascending(fs)
    ensures |Names(fs)| == |fs|
  {
    if fs != [] {
      var n := |fs| - 1;
      var pre := fs[..n];
      NamesCount(pre);
      assert fs[n].name !in Names(pre) by {
        forall k | 0 <= k < n
          ensures pre[k].name != fs[n].name
        {
          LexTrichotomy(fs[k].name, fs[n].name);
        }
      }
      assert Names(fs) == Names(pre) + {fs[n].name} by {
        assert forall k :: 0 <= k < n ==> pre[k].name == fs[k].name;
        assert fs[n].name in Names(fs);
      }
    }
  }

  lemma AddNewest(d: Files, fs: seq<File>, f: File)
    requires Holds(d, fs) && Ascending(fs + [f]) && IsOldFile(f.name)
    ensures Holds(d[f.name := f.text], fs + [f])
  {
    var d', all := d[f.name := f.text], fs + [f];
    assert all[|fs|] == f;
    forall k | 0 <= k < |all|
      ensures all[k].name in d' && d'[all[k].name] == all[k].text
    {
      if k < |fs| {
        LexTrichotomy(all[k].name, f.name);
      }
    }
    assert Names(all) == Names(fs) + {f.name} by {
      assert forall k :: 0 <= k < |fs| ==> all[k] == fs[k];
    }
    assert OldFiles(d') == OldFiles(d) + {f.name};
  }

  lemma PurgeFew(d: Files, fs: seq<File>, nmax: nat)
    requires Holds(d, fs) && Ascending(fs) && (nmax == 0 || |fs| <= nmax)
    ensures Holds(Purged(d, nmax), fs)
  {
    NamesCount(fs);
    assert OldFiles(WithoutLeftovers(d)) == OldFiles(d);
    assert forall k :: 0 <= k < |fs| ==> fs[k].name in OldFiles(d);
  }

  lemma PurgeMany(d: Files, fs: seq<File>, nmax: nat)
    requires Holds(d, fs) && Ascending(fs) && 0 < nmax < |fs|
    ensures Holds(Purged(d, nmax), fs[1..])
  {
    NamesCount(fs);
    var names, d' := OldFiles(d), WithoutLeftovers(d);
    assert Holds(d', fs) by {
      assert OldFiles(d') == names;
      assert forall k :: 0 <= k < |fs| ==> fs[k].name in names;
    }
    SomeOldest(names);
    var g :| IsOldest(g, names) && Purged(d, nmax) == d' - {g};
    assert IsOldest(fs[0].name, names) by {
      forall h | h in names
        ensures h == fs[0].name || LexLess(fs[0].name, h)
      {
        var k :| 0 <= k < |fs| && h == fs[k].name;
      }
    }
    OneOldest(g, fs[0].name, names);
    DropFirst(fs, d');
  }

  lemma SplitLast<T>(a: seq<T>, s: seq<T>)
    requires s != []
    ensures a + s == a + s[..|s| - 1] + [s[|s| - 1]]
  {
  }

  lemma LatestAscending(fs: seq<File>, n: nat)
    requires Ascending(fs)
    ensures Ascending(Latest(fs, n))
  {
    var ks := Latest(fs, n);
    forall i, j | 0 <= i < j < |ks|
      ensures LexLess(ks[i].name, ks[j].name)
    {
      assert ks[i] == fs[|fs| - |ks| + i] && ks[j] == fs[|fs| - |ks| + j];
    }
  }

  /** How many old files are kept, when there were so many at first: an excess is never worked off,
      as rmoldest deletes one file for each new one. */
  function Limit(nmax: nat, atfirst: nat): (m: nat)
    ensures m == 0 <==> nmax == 0
  {
    if nmax != 0 && atfirst > nmax then atfirst else nmax
  }

  /** Adding a file with the latest name, then rmoldest. */
  lemma PurgeKeepsLatest(d: Files, fs: seq<File>, f: File, nmax: nat, m: nat)
    requires m == nmax || (0 < nmax < m <= |fs|)
    requires Holds(d, Latest(fs, m)) && Ascending(fs + [f]) && IsOldFile(f.name)
    ensures Holds(Purged(d[f.name := f.text], nmax), Latest(fs + [f], m))
  {
    var all, ks := fs + [f], Latest(fs, m) + [f];
    assert ks == all[|all| - |ks|..];
    assert Ascending(ks) by {
      forall i, j | 0 <= i < j < |ks|
        ensures LexLess(ks[i].name, ks[j].name)
      {
        assert ks[i] == all[|all| - |ks| + i] && ks[j] == all[|all| - |ks| + j];
      }
    }
    AddNewest(d, Latest(fs, m), f);
    if nmax == 0 || |ks| <= nmax {
      assert Latest(all, m) == ks;
      PurgeFew(d[f.name := f.text], ks, nmax);
    } else {
      assert Latest(all, m) == ks[1..];
      PurgeMany(d[f.name := f.text], ks, nmax);
    }
  }

  lemma DropFirst(ks: seq<File>, d: Files)
    requires ks != [] && Ascending(ks) && Holds(d, ks)
    ensures Holds(d - {ks[0].name}, ks[1..])
  {
    var tail, d' := ks[1..], d - {ks[0].name};
    forall k | 0 <= k < |tail|
      ensures tail[k].name in d' && d'[tail[k].name] == tail[k].text
    {
      assert tail[k] == ks[k + 1];
      LexTrichotomy(ks[0].name, ks[k + 1].name);
    }
    assert Names(tail) == Names(ks) - {ks[0].name} by {
      assert forall k :: 0 <= k < |tail| ==> tail[k] == ks[k + 1];
    }
    assert OldFiles(d') == OldFiles(d) - {ks[0].name};
  }

  /** The names never go back, and start no earlier than those of the files already there. */
  ghost predicate NamesForward(init: seq<File>, fs: seq<File>) {
    && (forall k :: 0 <= k < |fs| ==> IsOldFile(fs[k].name))
    && (forall j, k :: 0 <= j < k < |fs| ==> LexLeq(fs[j].name, fs[k].name))
    && (fs != [] ==> forall i :: 0 <= i < |init| ==> LexLeq(init[i].name, fs[0].name))
  }

  lemma NewestIsNew(d: Files, fs: seq<File>, f: File, m: nat)
    requires Holds(d, Latest(fs, m)) && f.name !in d
    ensures fs != [] ==> f.name != fs[|fs| - 1].name
  {
    if fs != [] {
      var kept := Latest(fs, m);
      assert kept[|kept| - 1] == fs[|fs| - 1];
    }
  }

  lemma NewestLast(init: seq<File>, fs: seq<File>)
    requires fs != [] && NamesForward(init, fs)
    requires var all := init + fs[..|fs| - 1];
             Ascending(all) && (all != [] ==> fs[|fs| - 1].name != all[|all| - 1].name)
    ensures Ascending(init + fs)
  {
    var all, f := init + fs[..|fs| - 1], fs[|fs| - 1];
    SplitLast(init, fs);
    var m := |all| - 1;
    if m >= 0 {
      assert LexLess(all[m].name, f.name) by {
        if |fs| == 1 {
          assert all[m] == init[m];
        } else {
          assert all[m] == fs[|fs| - 2];
        }
      }
    }
    forall i | 0 <= i < m
      ensures LexLess(all[i].name, f.name)
    {
      LexTransitive(all[i].name, all[m].name, f.name);
    }
  }

  lemma AllButLast(d: Files, init: seq<File>, fs: seq<File>, nmax: nat)
    requires fs != [] && NamesForward(init, fs) && FreshNames(d, fs, nmax)
    ensures var pre, f := fs[..|fs| - 1], fs[|fs| - 1];
            && NamesForward(init, pre) && FreshNames(d, pre, nmax)
            && f.name !in Replay(d, pre, nmax) && IsOldFile(f.name)
  {
    hide Replay, IsOldFile;
    var pre := fs[..|fs| - 1];
    assert FreshNames(d, pre, nmax) by {
      hide NamesForward;
      forall k | 0 <= k < |pre|
        ensures pre[k].name !in Replay(d, pre[..k], nmax)
      {
        FreshAt(d, fs, nmax, k);
        assert pre[..k] == fs[..k];
      }
    }
    FreshAt(d, fs, nmax, |pre|);
    assert NamesForward(init, pre) by {
      hide FreshNames;
    }
  }

  lemma FreshAt(d: Files, fs: seq<File>, nmax: nat, k: nat)
    requires FreshNames(d, fs, nmax) && k < |fs|
    ensures fs[k].name !in Replay(d, fs[..k], nmax)
  {
  }

  /** Retention: while names never go back, the old files left after any number of rotations are
      exactly the latest ever present, nmax of them, or as many as there were at first if that
      is more. */
  lemma {:induction false} KeepsTheLatest(d: Files, init: seq<File>, fs: seq<File>, nmax: nat)
    requires Holds(d, init) && Ascending(init)
    requires NamesForward(init, fs) && FreshNames(d, fs, nmax)
    ensures Ascending(init + fs)
    ensures Holds(Replay(d, fs, nmax), Latest(init + fs, Limit(nmax, |init|)))
    decreases |fs|
  {
    if fs == [] {
      assert init + fs == init;
    } else {
      var pre, f := fs[..|fs| - 1], fs[|fs| - 1];
      AllButLast(d, init, fs, nmax);
      hide NamesForward, FreshNames, Holds, Purged, Latest, Ascending, IsOldFile;
      KeepsTheLatest(d, init, pre, nmax);
      SplitLast(init, fs);
      NewestIsNew(Replay(d, pre, nmax), init + pre, f, Limit(nmax, |init|));
      NewestLast(init, fs);
      PurgeKeepsLatest(Replay(d, pre, nmax), init + pre, f, nmax, Limit(nmax, |init|));
    }
  }

  // ----- names and the clock -----

  ghost function Named(h: seq<Old>): (r: seq<File>)
    ensures |r| == |h|
    ensures forall k :: 0 <= k < |h| ==> r[k] == File(FileName(h[k].stamp), h[k].text)
  {
    seq(|h|, k requires 0 <= k < |h| => File(FileName(h[k].stamp), h[k].text))
  }

  lemma FileNames(t: Taia, u: Taia)
    requires Normal(t) && Normal(u)
    ensures IsOldFile(FileName(t))
    ensures Moment(t) <= Moment(u) ==> LexLeq(FileName(t), FileName(u))
  {
    LabelOrder(t, u, [46, 115], [46, 115]);
  }

  /** The clock readings of the rotations never go back, and the first is no earlier than the
      names of the files that were there before. */
  ghost predicate ClockForward(init: seq<File>, h: seq<Old>) {
    && (forall k :: 0 <= k < |h| ==> Normal(h[k].stamp))
    && (forall j, k :: 0 <= j < k < |h| ==> !TaiaLess(h[k].stamp, h[j].stamp))
    && (h != [] ==> forall i :: 0 <= i < |init| ==> LexLeq(init[i].name, FileName(h[0].stamp)))
  }

  lemma ClockGivesNames(init: seq<File>, h: seq<Old>)
    requires ClockForward(init, h)
    ensures NamesForward(init, Named(h))
  {
    hide FileName;
    forall j, k | 0 <= j <= k < |h|
      ensures IsOldFile(FileName(h[j].stamp)) && LexLeq(FileName(h[j].stamp), FileName(h[k].stamp))
    {
      FileNames(h[j].stamp, h[k].stamp);
    }
  }

  /** d' is the directory after the rotations h, starting from d: each took a name made from the
      clock that no file had, and was followed by rmoldest. */
  ghost predicate InStep(d: Files, h: seq<Old>, nmax: nat, d': Files)
    decreases |h|
  {
    if h == [] then d' == d
    else
      var last := h[|h| - 1];
      Normal(last.stamp) &&
      exists k ::
        && InStep(d, h[..|h| - 1], nmax, k)
        && FileName(last.stamp) !in k
        && d' == Purged(k[FileName(last.stamp) := last.text], nmax)
  }

  lemma {:induction false} InStepIsReplay(d: Files, h: seq<Old>, nmax: nat, d': Files)
    requires InStep(d, h, nmax, d')
    ensures d' == Replay(d, Named(h), nmax) && FreshNames(d, Named(h), nmax)
    decreases |h|
  {
    hide FileName;
    if h != [] {
      var pre, last := h[..|h| - 1], h[|h| - 1];
      var k :| InStep(d, pre, nmax, k) && FileName(last.stamp) !in k &&
        d' == Purged(k[FileName(last.stamp) := last.text], nmax);
      InStepIsReplay(d, pre, nmax, k);
      NamedLast(h);
      RotationRecorded(d, Named(pre), Named(h), nmax);
    }
  }

  lemma NamedLast(h: seq<Old>)
    requires h != []
    ensures Named(h) != [] && Named(h)[..|h| - 1] == Named(h[..|h| - 1])
    ensures Named(h)[|h| - 1] == File(FileName(h[|h| - 1].stamp), h[|h| - 1].text)
  {
    hide FileName;
  }

  lemma RotationRecorded(d: Files, pre: seq<File>, fs: seq<File>, nmax: nat)
    requires fs != [] && fs[..|fs| - 1] == pre && FreshNames(d, pre, nmax)
    requires fs[|fs| - 1].name !in Replay(d, pre, nmax)
    ensures FreshNames(d, fs, nmax)
  {
    forall k | 0 <= k < |fs|
      ensures fs[k].name !in Replay(d, fs[..k], nmax)
    {
      if k < |pre| {
        assert fs[..k] == pre[..k];
        assert pre[k].name !in Replay(d, pre[..k], nmax);
      }
    }
  }

  /** Retention in terms of the clock: if it never goes back, the old files on disk are exactly the
      most recently rotated ones (with those of the start while there is room). There are at most
      nmax of them if and only if there were at most nmax at first. */
  lemma KeepsTheMostRecent(d: Files, init: seq<File>, h: seq<Old>, nmax: nat, d': Files)
    requires Holds(d, init) && Ascending(init)
    requires ClockForward(init, h) && InStep(d, h, nmax, d')
    ensures Holds(d', Latest(init + Named(h), Limit(nmax, |init|)))
    ensures nmax != 0 ==> (|OldFiles(d')| <= nmax <==> |init| <= nmax)
  {
    hide FileName;
    InStepIsReplay(d, h, nmax, d');
    ClockGivesNames(init, h);
    KeepsTheLatest(d, init, Named(h), nmax);
    LatestAscending(init + Named(h), Limit(nmax, |init|));
    NamesCount(Latest(init + Named(h), Limit(nmax, |init|)));
  }

  // ----- what is on disk -----

  ghost function Texts(fs: seq<File>): Text {
    if fs == [] then [] else Texts(fs[..|fs| - 1]) + fs[|fs| - 1].text
  }

  lemma {:induction false} TextsAdd(a: seq<File>, b: seq<File>)
    ensures Texts(a + b) == Texts(a) + Texts(b)
    decreases |b|
  {
    if b == [] {
      assert a + b == a;
    } else {
      var pre, f := b[..|b| - 1], b[|b| - 1];
      assert (a + b)[..|a + b| - 1] == a + pre;
      TextsAdd(a, pre);
    }
  }

  lemma {:induction false} TextsOfHistory(h: seq<Old>)
    ensures Texts(Named(h)) == Concat(h)
  {
    hide FileName;
    if h != [] {
      NamedLast(h);
      TextsOfHistory(h[..|h| - 1]);
    }
  }

  /** The directory d and `current` are the end of everything: of the texts of the files at first and
      of the stream written since, the oldest part was deleted, and the rest is what the files still
      there hold, in the order of their names, and then `current`. */
  ghost predicate IsTheEnd(init: seq<File>, l: Log, nmax: nat, d: Files) {
    var kept := Latest(init + Named(l.history), Limit(nmax, |init|));
    && Holds(d, kept) && Ascending(kept)
    && exists gone: Text :: Texts(init) + Stream(l) == gone + Texts(kept) + l.current
  }

  /** Whatever files there were at first, if the clock never went back. */
  ghost predicate KeepsTheEnd(d: Files, l: Log, nmax: nat, d': Files) {
    forall init :: Holds(d, init) && Ascending(init) && ClockForward(init, l.history) ==> IsTheEnd(init, l, nmax, d')
  }

  /** Conservation and retention together: if the clock never goes back, what is on disk is the end of
      everything ever there. */
  lemma DiskIsTheEnd(d: Files, init: seq<File>, l: Log, nmax: nat, d': Files)
    requires Holds(d, init) && Ascending(init)
    requires ClockForward(init, l.history) && InStep(d, l.history, nmax, d')
    ensures IsTheEnd(init, l, nmax, d')
  {
    KeepsTheMostRecent(d, init, l.history, nmax, d');
    AllAscending(d, init, l.history, nmax, d');
    LatestAscending(init + Named(l.history), Limit(nmax, |init|));
    hide *;
    var gone := StreamEnds(init, l, Limit(nmax, |init|));
    EndIs(init, l, nmax, d', gone);
  }

  lemma DiskKeepsTheEnd(d: Files, l: Log, nmax: nat, d': Files)
    requires InStep(d, l.history, nmax, d')
    ensures KeepsTheEnd(d, l, nmax, d')
  {
    hide InStep, Holds, Ascending, ClockForward, IsTheEnd;
    forall init | Holds(d, init) && Ascending(init) && ClockForward(init, l.history)
      ensures IsTheEnd(init, l, nmax, d')
    {
      DiskIsTheEnd(d, init, l, nmax, d');
    }
  }

  lemma EndIs(init: seq<File>, l: Log, nmax: nat, d: Files, gone: Text)
    requires var kept := Latest(init + Named(l.history), Limit(nmax, |init|));
             Holds(d, kept) && Ascending(kept) && Texts(init) + Stream(l) == gone + Texts(kept) + l.current
    ensures IsTheEnd(init, l, nmax, d)
  {
    hide Holds, Ascending, Latest, Limit, Texts, Stream, Named;
  }

  lemma StreamEnds(init: seq<File>, l: Log, m: nat) returns (gone: Text)
    ensures Texts(init) + Stream(l) == gone + Texts(Latest(init + Named(l.history), m)) + l.current
  {
    var all := init + Named(l.history);
    TextsAdd(init, Named(l.history));
    TextsOfHistory(l.history);
    hide Named, Texts, Concat;
    var kept := Latest(all, m);
    var k := |all| - |kept|;
    assert all == all[..k] + kept;
    TextsAdd(all[..k], kept);
    gone := Texts(all[..k]);
    assert Texts(init) + (Concat(l.history) + l.current) == Texts(init) + Concat(l.history) + l.current;
  }

  lemma AllAscending(d: Files, init: seq<File>, h: seq<Old>, nmax: nat, d': Files)
    requires Holds(d, init) && Ascending(init) && ClockForward(init, h) && InStep(d, h, nmax, d')
    ensures Ascending(init + Named(h))
  {
    hide FileName;
    InStepIsReplay(d, h, nmax, d');
    ClockGivesNames(init, h);
    KeepsTheLatest(d, init, Named(h), nmax);
  }
}
