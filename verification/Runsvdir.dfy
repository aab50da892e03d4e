/** runsvdir's service table: mark, scan, add, and removal by swapping in the last entry. */
module Runsvdir {
  import opened Bytes

  const MAXSERVICES: nat := 1000

  datatype Key = Key(dev: u64, ino: u64)

  /** An entry of sv[]; pid is 0 when no runsv runs for it. */
  datatype Entry = Entry(key: Key, pid: nat, gone: bool)

  /** What readdir, stat and (if runsv is to be started) fork say about one name: ignored if it
      starts with a dot or is no directory; stat may fail; pid is 0 if fork fails. */
  datatype Name = Ignored | StatFailed | Service(key: Key, pid: nat)

  /** The names in the order of readdir, which may fail in the end. */
  datatype Listing = Listing(names: seq<Name>, failed: bool)

  // ----- one scan as a function -----

  function Marked(t: seq<Entry>): (r: seq<Entry>)
    ensures |r| == |t| && forall i :: 0 <= i < |t| ==> r[i] == t[i].(gone := true)
  {
    seq(|t|, i requires 0 <= i < |t| => t[i].(gone := true))
  }

  /** The first entry for the key, or |t|. */
  function Find(t: seq<Entry>, k: Key): (i: nat)
    ensures i <= |t| && (i < |t| ==> t[i].key == k) && forall j :: 0 <= j < i ==> t[j].key != k
  {
    if t == [] || t[0].key == k then 0 else 1 + Find(t[1..], k)
  }

  function Visited(t: seq<Entry>, n: Name): seq<Entry> {
    if !n.Service? then t
    else
      var i := Find(t, n.key);
      if i < |t| then t[i := t[i].(gone := false, pid := if t[i].pid == 0 then n.pid else t[i].pid)]
      else if |t| >= MAXSERVICES then t
      else t + [Entry(n.key, n.pid, false)]
  }

  function Scanned(t: seq<Entry>, names: seq<Name>): seq<Entry> {
    if names == [] then t else Visited(Scanned(t, names[..|names| - 1]), names[|names| - 1])
  }

  /** What removing the gone entries from i on leaves, and what it removes. */
  datatype Swept = Swept(left: seq<Entry>, removed: seq<Entry>)

  /** Entry i is overwritten by the last one, which goes. */
  function Swapped(t: seq<Entry>, i: nat): (r: seq<Entry>)
    requires i < |t|
    ensures |r| == |t| - 1
  {
    t[i := t[|t| - 1]][..|t| - 1]
  }

  function Sweep(t: seq<Entry>, i: nat): Swept
    decreases |t| - i
  {
    if i >= |t| then Swept(t, [])
    else if !t[i].gone then Sweep(t, i + 1)
    else
      var s := Sweep(Swapped(t, i), i + 1);
      Swept(s.left, [t[i]] + s.removed)
  }

  /** The keys of the services a listing shows. */
  function Shown(names: seq<Name>): set<Key> {
    set n | n in names && n.Service? :: n.key
  }

  function Keys(t: seq<Entry>): set<Key> {
    set e | e in t :: e.key
  }

  ghost predicate Distinct(t: seq<Entry>) {
    forall i, j :: 0 <= i < j < |t| ==> t[i].key != t[j].key
  }

  ghost predicate TableOk(t: seq<Entry>) {
    Distinct(t) && |t| <= MAXSERVICES
  }

  function GoneCount(t: seq<Entry>): (n: nat)
    ensures n <= |t|
  {
    if t == [] then 0 else GoneCount(t[..|t| - 1]) + (if t[|t| - 1].gone then 1 else 0)
  }

  lemma {:induction false} GoneConcat(a: seq<Entry>, b: seq<Entry>)
    ensures GoneCount(a + b) == GoneCount(a) + GoneCount(b)
  {
    if b == [] {
      assert a + b == a;
    } else {
      assert (a + b)[..|a + b| - 1] == a + b[..|b| - 1];
      GoneConcat(a, b[..|b| - 1]);
    }
  }

  // ----- sweeping -----

  lemma {:induction false} SweepFront(t: seq<Entry>, i: nat)
    requires i <= |t|
    ensures i <= |Sweep(t, i).left| && Sweep(t, i).left[..i] == t[..i]
    decreases |t| - i
  {
    if i < |t| {
      if !t[i].gone {
        SweepFront(t, i + 1);
        assert Sweep(t, i).left[..i] == Sweep(t, i).left[..i + 1][..i];
      } else {
        var t' := Swapped(t, i);
        if i < |t'| {
          SweepFront(t', i + 1);
          assert Sweep(t, i).left[..i] == Sweep(t, i).left[..i + 1][..i] == t'[..i + 1][..i];
        }
      }
    }
  }

  lemma SwapSums(a: seq<Entry>, x: Entry, m: seq<Entry>, y: Entry)
    ensures multiset(a + [x] + m + [y]) == multiset(a + [y] + m) + multiset{x}
  {
  }

  lemma SwappedParts(t: seq<Entry>, i: nat)
    requires i < |t| - 1
    ensures var n := |t| - 1;
            t == t[..i] + [t[i]] + t[i + 1..n] + [t[n]] && Swapped(t, i) == t[..i] + [t[n]] + t[i + 1..n]
  {
  }

  lemma SwappedConserves(t: seq<Entry>, i: nat)
    requires i < |t|
    ensures multiset(t) == multiset(Swapped(t, i)) + multiset{t[i]}
  {
    var n := |t| - 1;
    if i < n {
      SwappedParts(t, i);
      hide Swapped;
      SwapSums(t[..i], t[i], t[i + 1..n], t[n]);
    } else {
      assert Swapped(t, i) == t[..n];
      hide Swapped;
      assert t == t[..n] + [t[n]];
    }
  }

  /** Sweeping loses nothing: what it does not leave it removes, and it removes gone entries only. */
  lemma {:induction false} SweepConserves(t: seq<Entry>, i: nat)
    ensures multiset(t) == multiset(Sweep(t, i).left) + multiset(Sweep(t, i).removed)
    ensures forall e :: e in Sweep(t, i).removed ==> e.gone
    decreases |t| - i
  {
    hide Swapped;
    if i < |t| {
      if !t[i].gone {
        SweepConserves(t, i + 1);
      } else {
        SwappedConserves(t, i);
        SweepConserves(Swapped(t, i), i + 1);
      }
    }
  }

  function One(b: bool): nat {
    if b then 1 else 0
  }

  lemma GoneFirst(t: seq<Entry>)
    requires t != []
    ensures GoneCount(t) == One(t[0].gone) + GoneCount(t[1..])
  {
    assert t == [t[0]] + t[1..] && [t[0]][..0] == [];
    GoneConcat([t[0]], t[1..]);
  }

  /** The entry swapped in is not looked at, yet at least half of the gone entries go. */
  lemma {:induction false} SweepHalves(t: seq<Entry>, i: nat)
    requires i <= |t|
    ensures i <= |Sweep(t, i).left|
    ensures GoneCount(Sweep(t, i).left[i..]) <= GoneCount(t[i..]) / 2
    decreases |t| - i
  {
    hide Swapped;
    SweepFront(t, i);
    if i < |t| {
      var r, n := Sweep(t, i).left, |t| - 1;
      GoneFirst(t[i..]);
      if !t[i].gone {
        SweepFront(t, i + 1);
        SweepHalves(t, i + 1);
        assert r[i] == r[..i + 1][i];
        Peel(r, i, t[i]);
      } else {
        var t' := Swapped(t, i);
        if i < n {
          SweepFront(t', i + 1);
          SweepHalves(t', i + 1);
          SwapCounts(t, i);
          assert r[i] == r[..i + 1][i] == t'[..i + 1][i];
          Peel(r, i, t[n]);
        } else {
          assert r[i..] == [];
        }
      }
    }
  }

  /** Of the entries from i on, the swap leaves all but entry i, the last one unseen. */
  lemma SwapCounts(t: seq<Entry>, i: nat)
    requires i < |t| - 1 && t[i].gone
    ensures var n := |t| - 1;
            && Swapped(t, i)[i] == t[n]
            && GoneCount(t[i..]) == 1 + GoneCount(Swapped(t, i)[i + 1..]) + One(t[n].gone)
  {
    var n := |t| - 1;
    assert Swapped(t, i)[i + 1..] == t[i + 1..n];
    assert t[i..] == [t[i]] + (t[i + 1..n] + [t[n]]);
    hide Swapped;
    GoneConcat([t[i]], t[i + 1..n] + [t[n]]);
    GoneConcat(t[i + 1..n], [t[n]]);
    GoneFirst([t[i]]);
    GoneFirst([t[n]]);
  }

  lemma Peel(r: seq<Entry>, i: nat, e: Entry)
    requires i < |r| && r[i] == e
    ensures GoneCount(r[i..]) == One(e.gone) + GoneCount(r[i + 1..])
  {
    GoneFirst(r[i..]);
    assert r[i..][1..] == r[i + 1..];
  }

  lemma SweepSome(t: seq<Entry>)
    ensures GoneCount(t) > 0 <==> Sweep(t, 0).removed != []
  {
    SweepConserves(t, 0);
    SweepHalves(t, 0);
    var s := Sweep(t, 0);
    assert t[0..] == t && s.left[0..] == s.left;
    if s.removed == [] {
      SweepNothing(t, 0);
    } else {
      var e := s.removed[0];
      assert e in multiset(t);
      assert e in t && e.gone;
      GoneIn(t, e);
    }
  }

  lemma {:induction false} SweepNothing(t: seq<Entry>, i: nat)
    requires i <= |t| && Sweep(t, i).removed == []
    ensures Sweep(t, i).left == t
    decreases |t| - i
  {
    if i < |t| {
      SweepNothing(t, i + 1);
    }
  }

  lemma {:induction false} GoneIn(t: seq<Entry>, e: Entry)
    requires e in t && e.gone
    ensures GoneCount(t) > 0
  {
    var n := |t| - 1;
    if t[n] != e {
      assert e in t[..n];
      GoneIn(t[..n], e);
    }
  }

  lemma {:induction false} SweepDistinct(t: seq<Entry>, i: nat)
    requires i <= |t| && Distinct(t)
    ensures Distinct(Sweep(t, i).left) && |Sweep(t, i).left| <= |t|
    decreases |t| - i
  {
    if i < |t| {
      if !t[i].gone {
        SweepDistinct(t, i + 1);
      } else {
        var t' := Swapped(t, i);
        if i < |t'| {
          SweepDistinct(t', i + 1);
        }
      }
    }
  }

  // ----- scanning -----

  lemma VisitedKeepsKeys(t: seq<Entry>, n: Name)
    requires TableOk(t)
    ensures var r := Visited(t, n);
            && TableOk(r) && |t| <= |r| && (forall i :: 0 <= i < |t| ==> r[i].key == t[i].key)
            && (n.Service? ==> n.key in Keys(r) || |r| == MAXSERVICES)
            && (|t| < |r| ==> n.Service? && r == t + [Entry(n.key, n.pid, false)])
            && (forall i :: 0 <= i < |t| ==> r[i].gone == (t[i].gone && !(n.Service? && n.key == t[i].key)))
  {
    if n.Service? {
      var r, i := Visited(t, n), Find(t, n.key);
      if i < |t| {
        assert r[i].key == n.key && r[i] in r;
      } else if |t| < MAXSERVICES {
        assert r[|t|].key == n.key && r[|t|] in r;
      }
    }
  }

  /** After marking and scanning exactly the entries not shown are gone; a service shown is
      missing only from a full table. */
  lemma {:induction false} ScannedFacts(t: seq<Entry>, names: seq<Name>)
    requires TableOk(t) && forall i :: 0 <= i < |t| ==> t[i].gone
    ensures var r := Scanned(t, names);
            && TableOk(r) && |t| <= |r| && (forall i :: 0 <= i < |t| ==> r[i].key == t[i].key)
            && (forall i :: 0 <= i < |r| ==> (r[i].gone <==> r[i].key !in Shown(names)))
            && (forall i :: |t| <= i < |r| ==> r[i].key in Shown(names))
            && (forall k :: k in Shown(names) ==> k in Keys(r) || |r| == 1000)
  {
    if names != [] {
      var pre, n := names[..|names| - 1], names[|names| - 1];
      var q, r := Scanned(t, pre), Scanned(t, names);
      ScannedFacts(t, pre);
      VisitedKeepsKeys(q, n);
      assert Shown(names) == Shown(pre) + (if n.Service? then {n.key} else {}) by {
        assert names == pre + [n];
      }
      forall k | k in Shown(names)
        ensures k in Keys(r) || |r| == 1000
      {
        if k in Keys(q) {
          var i :| 0 <= i < |q| && q[i].key == k;
          assert r[i].key == k && r[i] in r;
        }
      }
    }
  }

  /** How many entries are for services not in P. */
  function Extra(t: seq<Entry>, P: set<Key>): nat {
    if t == [] then 0 else Extra(t[..|t| - 1], P) + One(t[|t| - 1].key !in P)
  }

  lemma {:induction false} ExtraIsGone(t: seq<Entry>, P: set<Key>)
    requires forall i :: 0 <= i < |t| ==> (t[i].gone <==> t[i].key !in P)
    ensures Extra(t, P) == GoneCount(t)
  {
    if t != [] {
      ExtraIsGone(t[..|t| - 1], P);
    }
  }

  lemma {:induction false} ExtraUpTo(t: seq<Entry>, r: seq<Entry>, P: set<Key>)
    requires |t| <= |r| && (forall i :: 0 <= i < |t| ==> r[i].key == t[i].key)
    requires forall i :: |t| <= i < |r| ==> r[i].key in P
    ensures Extra(r, P) == Extra(t, P)
    decreases |r|
  {
    if r != [] {
      if |t| == |r| {
        ExtraUpTo(t[..|t| - 1], r[..|r| - 1], P);
      } else {
        ExtraUpTo(t, r[..|r| - 1], P);
      }
    }
  }

  lemma {:induction false} NoExtra(t: seq<Entry>, P: set<Key>)
    ensures Extra(t, P) == 0 <==> Keys(t) <= P
    ensures Extra(t, P) <= |t|
  {
    if t != [] {
      var pre, e := t[..|t| - 1], t[|t| - 1];
      NoExtra(pre, P);
      assert Keys(t) == Keys(pre) + {e.key} by {
        assert t == pre + [e];
      }
    }
  }

  lemma {:induction false} KeysCount(t: seq<Entry>)
    requires Distinct(t)
    ensures |Keys(t)| == |t|
  {
    if t != [] {
      var pre, e := t[..|t| - 1], t[|t| - 1];
      KeysCount(pre);
      assert Keys(t) == Keys(pre) + {e.key} by {
        assert t == pre + [e];
      }
      assert e.key !in Keys(pre) by {
        assert forall i :: 0 <= i < |pre| ==> pre[i] == t[i] && t[i].key != e.key;
      }
    }
  }

  // ----- errno -----

  /** runsv is to be started for the name, and fork fails. */
  predicate ForkFails(t: seq<Entry>, n: Name) {
    n.Service? && n.pid == 0 &&
    (if Find(t, n.key) < |t| then t[Find(t, n.key)].pid == 0 else |t| < MAXSERVICES)
  }

  /** errno after the names: a failed fork sets it, only a failed stat clears it. */
  predicate Errno(t: seq<Entry>, names: seq<Name>) {
    if names == [] then false
    else
      var pre, n := names[..|names| - 1], names[|names| - 1];
      !n.StatFailed? && (ForkFails(Scanned(t, pre), n) || Errno(t, pre))
  }

  /** Name i makes a fork fail, and no stat fails after it. */
  predicate Uncleared(t: seq<Entry>, names: seq<Name>, i: nat) {
    && i < |names| && ForkFails(Scanned(t, names[..i]), names[i])
    && forall j :: i < j < |names| ==> !names[j].StatFailed?
  }

  /** errno is set exactly when some fork failed and no stat failed after it. */
  lemma ErrnoIff(t: seq<Entry>, names: seq<Name>)
    ensures Errno(t, names) <==> exists i :: Uncleared(t, names, i)
  {
    hide Errno, Uncleared;
    if Errno(t, names) {
      var i := ErrnoCause(t, names);
    }
    forall i | Uncleared(t, names, i)
      ensures Errno(t, names)
    {
      ErrnoStays(t, names, i);
    }
  }

  lemma {:induction false} ErrnoCause(t: seq<Entry>, names: seq<Name>) returns (i: nat)
    requires Errno(t, names)
    ensures Uncleared(t, names, i)
    decreases |names|
  {
    hide ForkFails, Scanned;
    var m := |names| - 1;
    var pre := names[..m];
    i := m;
    if !ForkFails(Scanned(t, pre), names[m]) {
      i := ErrnoCause(t, pre);
      assert pre[..i] == names[..i];
      assert forall j :: i < j < m ==> names[j] == pre[j];
    }
  }

  lemma {:induction false} ErrnoStays(t: seq<Entry>, names: seq<Name>, i: nat)
    requires Uncleared(t, names, i)
    ensures Errno(t, names)
    decreases |names|
  {
    hide Scanned;
    var m := |names| - 1;
    var pre := names[..m];
    if i < m {
      assert pre[..i] == names[..i];
      ErrnoStays(t, pre, i);
    }
  }

  // ----- rounds -----

  function RoundScan(t: seq<Entry>, names: seq<Name>): seq<Entry> {
    Scanned(Marked(t), names)
  }

  /** The scan ends at the look at errno: readdir failed, or a fork did. */
  predicate Broken(t: seq<Entry>, l: Listing) {
    l.failed || Errno(Marked(t), l.names)
  }

  /** The table after one scan. */
  function Round(t: seq<Entry>, l: Listing): seq<Entry> {
    if Broken(t, l) then RoundScan(t, l.names) else Sweep(RoundScan(t, l.names), 0).left
  }

  /** The scan asks for another one: it broke off, or something was added or removed. */
  predicate Changes(t: seq<Entry>, l: Listing) {
    Broken(t, l) || |RoundScan(t, l.names)| > |t| || Sweep(RoundScan(t, l.names), 0).removed != []
  }

  lemma RoundScanFacts(t: seq<Entry>, names: seq<Name>)
    requires TableOk(t)
    ensures var r, P := RoundScan(t, names), Shown(names);
            && TableOk(r) && |t| <= |r| && (forall i :: 0 <= i < |t| ==> r[i].key == t[i].key)
            && (forall i :: 0 <= i < |r| ==> (r[i].gone <==> r[i].key !in P))
            && (forall k :: k in P ==> k in Keys(r) || |r| == MAXSERVICES)
            && Extra(r, P) == Extra(t, P) == GoneCount(r)
  {
    hide Scanned, Shown, Extra;
    ScannedFacts(Marked(t), names);
    ExtraIsGone(RoundScan(t, names), Shown(names));
    ExtraUpTo(t, RoundScan(t, names), Shown(names));
  }

  lemma SweptIn(t: seq<Entry>, e: Entry)
    ensures e in Sweep(t, 0).left ==> e in t
    ensures e in t && !e.gone ==> e in Sweep(t, 0).left
  {
    SweepConserves(t, 0);
    var s := Sweep(t, 0);
    assert e in t <==> e in multiset(t);
    assert e in s.left <==> e in multiset(s.left);
    assert e in s.removed <==> e in multiset(s.removed);
  }

  /** A complete scan never drops a service that is shown, adds nothing that is not, and leaves at
      most half of the entries that have vanished. */
  lemma RoundHalves(t: seq<Entry>, l: Listing)
    requires TableOk(t) && !Broken(t, l)
    ensures var r, P := Round(t, l), Shown(l.names);
            && TableOk(r)
            && Keys(t) * P <= Keys(r) <= Keys(t) + P
            && Extra(r, P) <= Extra(t, P) / 2
            && (Extra(t, P) > 0 ==> Changes(t, l))
  {
    hide Sweep, Extra, GoneCount, Scanned, Shown, RoundScan, Broken;
    var q, P := RoundScan(t, l.names), Shown(l.names);
    var r := Round(t, l);
    RoundScanFacts(t, l.names);
    SweepDistinct(q, 0);
    SweepHalves(q, 0);
    SweepSome(q);
    assert r[0..] == r && q[0..] == q;
    forall i | 0 <= i < |r|
      ensures (r[i].gone <==> r[i].key !in P) && r[i] in q
    {
      SweptIn(q, r[i]);
    }
    ExtraIsGone(r, P);
    ScanKeys(t, l.names);
    forall k | k in Keys(t) * P
      ensures k in Keys(r)
    {
      var i :| 0 <= i < |t| && t[i].key == k;
      assert q[i].key == k && q[i] in q;
      SweptIn(q, q[i]);
    }
    forall k | k in Keys(r)
      ensures k in Keys(t) + P
    {
      var i :| 0 <= i < |r| && r[i].key == k;
      assert k in Keys(q);
    }
  }

  /** The names add shown services to the table and take nothing away. */
  lemma ScanKeys(t: seq<Entry>, names: seq<Name>)
    requires TableOk(t)
    ensures Keys(t) <= Keys(RoundScan(t, names)) <= Keys(t) + Shown(names)
  {
    hide Scanned, Shown;
    var q := RoundScan(t, names);
    ScannedFacts(Marked(t), names);
    forall k | k in Keys(t)
      ensures k in Keys(q)
    {
      var i :| 0 <= i < |t| && t[i].key == k;
      assert q[i].key == Marked(t)[i].key == k && q[i] in q;
    }
    forall k | k in Keys(q)
      ensures k in Keys(t) + Shown(names)
    {
      var j :| 0 <= j < |q| && q[j].key == k;
      if j < |t| {
        assert q[j].key == Marked(t)[j].key == t[j].key && t[j] in t;
      }
    }
  }

  /** A scan that breaks off drops nothing at all, adds only what is shown, and is repeated. */
  lemma BrokenDropsNothing(t: seq<Entry>, l: Listing, P: set<Key>)
    requires TableOk(t) && Broken(t, l) && Shown(l.names) <= P
    ensures var r := Round(t, l);
            && TableOk(r) && |t| <= |r|
            && Keys(t) <= Keys(r) <= Keys(t) + P
            && Extra(r, P) == Extra(t, P)
            && Changes(t, l)
  {
    hide Scanned, Shown, Broken, Keys, Extra;
    ScanKeys(t, l.names);
    ScannedFacts(Marked(t), l.names);
    ExtraUpTo(t, RoundScan(t, l.names), P);
  }

  /** A table without vanished services takes all that are shown, if they fit. */
  lemma RoundFills(t: seq<Entry>, l: Listing)
    requires TableOk(t) && !Broken(t, l)
    requires Keys(t) <= Shown(l.names) && |Shown(l.names)| <= MAXSERVICES
    ensures Keys(Round(t, l)) == Shown(l.names)
    ensures Keys(t) == Shown(l.names) ==> !Changes(t, l)
  {
    hide Sweep, Extra, GoneCount, Scanned, Shown, RoundScan, Broken;
    var q, P := RoundScan(t, l.names), Shown(l.names);
    RoundHalves(t, l);
    RoundScanFacts(t, l.names);
    NoExtra(t, P);
    NoExtra(q, P);
    KeysCount(q);
    KeysCount(t);
    SweepSome(q);
    SweepNothing(q, 0);
    if Keys(q) != P {
      SmallerSet(Keys(q), P);
      assert false;
    }
  }

  lemma SmallerSet<T>(a: set<T>, b: set<T>)
    requires a < b
    ensures |a| < |b|
  {
    assert b == a + (b - a);
  }

  /** check is left 0 exactly by a complete scan of a directory that shows what the table already has. */
  lemma QuietIff(t: seq<Entry>, l: Listing)
    requires TableOk(t) && |Shown(l.names)| <= MAXSERVICES
    ensures !Changes(t, l) <==> !Broken(t, l) && Keys(t) == Shown(l.names)
    ensures !Changes(t, l) ==> Keys(Round(t, l)) == Shown(l.names)
  {
    var P, q := Shown(l.names), RoundScan(t, l.names);
    if !Broken(t, l) {
      hide Sweep, Scanned, Shown, RoundScan, Broken, Keys;
      RoundHalves(t, l);
      NoExtra(t, P);
      if Keys(t) <= P {
        RoundFills(t, l);
      }
      if !Changes(t, l) {
        RoundScanFacts(t, l.names);
        SameKeys(t, q);
        SweepNothing(q, 0);
        assert Keys(q) == Keys(t);
      }
    }
  }

  lemma SameKeys(t: seq<Entry>, r: seq<Entry>)
    requires |t| == |r| && forall i :: 0 <= i < |t| ==> r[i].key == t[i].key
    ensures Keys(t) == Keys(r)
  {
    forall k
      ensures k in Keys(t) <==> k in Keys(r)
    {
      if k in Keys(t) {
        var i :| 0 <= i < |t| && t[i].key == k;
        assert r[i] in r;
      }
      if k in Keys(r) {
        var i :| 0 <= i < |r| && r[i].key == k;
        assert t[i] in t;
      }
    }
  }

  function Power2(k: nat): nat {
    if k == 0 then 1 else 2 * Power2(k - 1)
  }

  /** What the end of child pid does to the table: the first entry with it has none now. */
  function Collected(t: seq<Entry>, pid: nat): seq<Entry> {
    if t == [] then t
    else if t[0].pid == pid then [t[0].(pid := 0)] + t[1..]
    else [t[0]] + Collected(t[1..], pid)
  }

  lemma {:induction false} CollectedKeys(t: seq<Entry>, pid: nat)
    ensures |Collected(t, pid)| == |t| && forall i :: 0 <= i < |t| ==> Collected(t, pid)[i].key == t[i].key
  {
    if t != [] && t[0].pid != pid {
      CollectedKeys(t[1..], pid);
    }
  }

  /** It keeps the keys, and with them the vanished entries. */
  lemma CollectedOk(t: seq<Entry>, pid: nat, P: set<Key>)
    requires TableOk(t)
    ensures var r := Collected(t, pid); TableOk(r) && Keys(r) == Keys(t) && Extra(r, P) == Extra(t, P)
  {
    CollectedKeys(t, pid);
    SameKeys(t, Collected(t, pid));
    ExtraUpTo(t, Collected(t, pid), P);
  }

  /** What happens to the table: a child ends, whether or not it is a runner, or the directory is
      scanned. */
  datatype Event = ChildEnd(pid: nat) | Scan(l: Listing)

  /** The table after a run of events, in any order. */
  function Rounds(t: seq<Entry>, ee: seq<Event>): seq<Entry> {
    if ee == [] then t
    else
      var q := Rounds(t, ee[..|ee| - 1]);
      match ee[|ee| - 1]
      case ChildEnd(pid) => Collected(q, pid)
      case Scan(l) => Round(q, l)
  }

  /** How many scans were complete. */
  function Complete(t: seq<Entry>, ee: seq<Event>): nat {
    if ee == [] then 0
    else
      var pre, e := ee[..|ee| - 1], ee[|ee| - 1];
      Complete(t, pre) + One(e.Scan? && !Broken(Rounds(t, pre), e.l))
  }

  /** A directory that does not change shows P, or a part of it when the scan breaks off. */
  ghost predicate Shows(t: seq<Entry>, ee: seq<Event>, P: set<Key>) {
    ee == [] ||
    var pre, e := ee[..|ee| - 1], ee[|ee| - 1];
    && Shows(t, pre, P)
    && (e.Scan? ==> if Broken(Rounds(t, pre), e.l) then Shown(e.l.names) <= P else Shown(e.l.names) == P)
  }

  lemma {:induction false} PowerGrows(k: nat, n: nat)
    requires k <= n
    ensures Power2(k) <= Power2(n)
    decreases n
  {
    if k < n {
      PowerGrows(k, n - 1);
    }
  }

  lemma MulAtLeast(p: nat, e: nat)
    requires e > 0
    ensures p * e >= p
  {
  }

  /** Each complete scan halves the vanished entries; nothing else adds any. */
  lemma {:induction false} RoundsBound(t: seq<Entry>, ee: seq<Event>, P: set<Key>)
    requires TableOk(t) && Shows(t, ee, P)
    ensures TableOk(Rounds(t, ee))
    ensures Power2(Complete(t, ee)) * Extra(Rounds(t, ee), P) <= Extra(t, P)
  {
    hide TableOk, Extra, Round, Broken, Shown, Collected;
    if ee != [] {
      var pre, e := ee[..|ee| - 1], ee[|ee| - 1];
      RoundsBound(t, pre, P);
      var q := Rounds(t, pre);
      match e {
        case ChildEnd(pid) =>
          CollectedOk(q, pid, P);
        case Scan(l) =>
          if Broken(q, l) {
            BrokenDropsNothing(q, l, P);
          } else {
            RoundHalves(q, l);
            Halve(Power2(Complete(t, pre)), Extra(Rounds(t, ee), P), Extra(q, P));
          }
      }
    }
  }

  lemma Halve(p: nat, a: nat, b: nat)
    requires a <= b / 2
    ensures 2 * p * a <= p * b
  {
    assert 2 * a <= b;
    assert p * (2 * a) <= p * b;
  }

  /** Rescanning a directory that does not change: once the number of complete scans exceeds the
      binary logarithm of the number of vanished entries, the table is exactly what the directory
      shows, however many scans broke off and whichever children ended in between. */
  lemma {:induction false} SettlesInLogarithmicTime(t: seq<Entry>, ee: seq<Event>, P: set<Key>, k: nat)
    requires TableOk(t) && |P| <= MAXSERVICES && Shows(t, ee, P)
    requires Extra(t, P) < Power2(k) && Complete(t, ee) > k
    ensures Keys(Rounds(t, ee)) == P
    decreases |ee|
  {
    hide TableOk, Extra, Round, Broken, Shown, Keys, Collected;
    var pre, e := ee[..|ee| - 1], ee[|ee| - 1];
    var q := Rounds(t, pre);
    RoundsBound(t, pre, P);
    if e.Scan? && !Broken(q, e.l) {
      PowerGrows(k, Complete(t, pre));
      if Extra(q, P) > 0 {
        MulAtLeast(Power2(Complete(t, pre)), Extra(q, P));
      }
      NoExtra(q, P);
      RoundFills(q, e.l);
    } else {
      SettlesInLogarithmicTime(t, pre, P, k);
      if e.Scan? {
        BrokenDropsNothing(q, e.l, P);
      } else {
        CollectedOk(q, e.pid, P);
      }
    }
  }

  /** Eleven complete scans are always enough. */
  lemma ElevenScans(t: seq<Entry>, ee: seq<Event>, P: set<Key>)
    requires TableOk(t) && |P| <= 1000 && Shows(t, ee, P) && Complete(t, ee) >= 11
    ensures Keys(Rounds(t, ee)) == P
  {
    assert Power2(5) == 32;
    assert Power2(10) == 1024;
    NoExtra(t, P);
    SettlesInLogarithmicTime(t, ee, P, 10);
  }

  // ----- runners -----

  /** The names leave entry i without a runner exactly if it had none and every fork for it failed. */
  lemma {:induction false} ScannedRunner(t: seq<Entry>, names: seq<Name>, i: nat)
    requires TableOk(t) && (forall j :: 0 <= j < |t| ==> t[j].gone) && i < |Scanned(t, names)|
    ensures var k := Scanned(t, names)[i].key;
            Scanned(t, names)[i].pid == 0 <==>
              (i < |t| ==> t[i].pid == 0) && forall n :: n in names && n.Service? && n.key == k ==> n.pid == 0
  {
    if names != [] {
      var pre, n := names[..|names| - 1], names[|names| - 1];
      var q, r := Scanned(t, pre), Scanned(t, names);
      assert names == pre + [n];
      ScannedFacts(t, pre);
      ScannedFacts(t, names);
      VisitedKeepsKeys(q, n);
      hide Scanned, TableOk;
      if i < |q| {
        ScannedRunner(t, pre, i);
      } else {
        assert n.key !in Shown(pre);
      }
    }
  }

  /** After a scan a service shown has no runner exactly if it had none and every fork for it failed. */
  lemma RoundRunners(t: seq<Entry>, l: Listing, e: Entry)
    requires TableOk(t) && e in Round(t, l)
    ensures e.pid == 0 <==>
            (forall d :: d in t && d.key == e.key ==> d.pid == 0) &&
            (forall n :: n in l.names && n.Service? && n.key == e.key ==> n.pid == 0)
  {
    var q := RoundScan(t, l.names);
    SweptIn(q, e);
    var i :| 0 <= i < |q| && q[i] == e;
    ScannedRunner(Marked(t), l.names, i);
    ScannedFacts(Marked(t), l.names);
    if i < |t| {
      assert t[i].key == e.key && t[i].pid == Marked(t)[i].pid;
      assert t[i] in t && forall d :: d in t && d.key == e.key ==> d == t[i];
    } else {
      assert q[..|t|] == q[..|t|];
      forall d | d in t
        ensures d.key != e.key
      {
        var j :| 0 <= j < |t| && t[j] == d;
        assert q[j].key == Marked(t)[j].key == d.key;
      }
    }
  }

  /** A service in the table without a runner, every fork for which fails: it is left alone, with
      no further scan asked for, exactly if the listing is complete and shows just the table, and
      each failed fork is followed by a failed stat, which hides it. */
  lemma FailedForkForgottenIff(t: seq<Entry>, l: Listing, k: Key)
    requires TableOk(t) && |Shown(l.names)| <= MAXSERVICES
    requires k in Keys(t) && k in Shown(l.names)
    requires forall e :: e in t && e.key == k ==> e.pid == 0
    requires forall n :: n in l.names && n.Service? && n.key == k ==> n.pid == 0
    ensures k in Keys(Round(t, l)) && forall e :: e in Round(t, l) && e.key == k ==> e.pid == 0
    ensures !Changes(t, l) <==>
            && !l.failed && Keys(t) == Shown(l.names)
            && forall i: nat :: !Uncleared(Marked(t), l.names, i)
  {
    hide Uncleared, ForkFails, Scanned, Sweep, TableOk, Keys, Shown, Changes;
    forall e | e in Round(t, l) && e.key == k
      ensures e.pid == 0
    {
      RoundRunners(t, l, e);
    }
    if Broken(t, l) {
      BrokenDropsNothing(t, l, Shown(l.names));
    } else {
      RoundHalves(t, l);
    }
    QuietIff(t, l);
    ErrnoIff(Marked(t), l.names);
  }

  // ----- the process -----

  /** The processes that get SIGTERM. */
  function Runners(removed: seq<Entry>): seq<nat> {
    if removed == [] then []
    else (if removed[0].pid != 0 then [removed[0].pid] else []) + Runners(removed[1..])
  }

  class Watcher {
    const sv: array<Entry>
    var svnum: nat
    var check: bool
    var errno: bool            // errno is not 0
    var killed: seq<nat>

    ghost predicate Valid()
      reads this, sv
    {
      sv.Length == MAXSERVICES && svnum <= MAXSERVICES && TableOk(sv[..svnum])
    }

    ghost function Table(): seq<Entry>
      reads this, sv
      requires svnum <= sv.Length
    {
      sv[..svnum]
    }

    constructor ()
      ensures Valid() && Table() == [] && check && killed == [] && fresh(sv)
    {
      sv := new Entry[MAXSERVICES](_ => Entry(Key(0, 0), 0, false));
      svnum, check, errno, killed := 0, true, false, [];
    }

    /** The marking loop of runsvdir. */
    method Mark()
      requires Valid()
      modifies sv
      ensures Valid() && Table() == Marked(old(Table()))
    {
      var i := 0;
      while i < svnum
        invariant 0 <= i <= svnum
        invariant forall j :: 0 <= j < i ==> sv[j] == old(sv[j]).(gone := true)
        invariant forall j :: i <= j < sv.Length ==> sv[j] == old(sv[j])
      {
        sv[i] := sv[i].(gone := true);
        i := i + 1;
      }
      assert sv[..svnum] == Marked(old(sv[..svnum]));
    }

    /** runsv(): pid is 0 if fork fails. */
    method RunSv(no: nat, pid: nat)
      requires no < sv.Length && sv[no].pid == 0
      modifies this`errno, sv
      ensures sv[..] == old(sv[..])[no := old(sv[no]).(pid := pid)]
      ensures errno == (old(errno) || pid == 0)
    {
      if pid == 0 {
        errno := true;
        return;
      }
      sv[no] := sv[no].(pid := pid);
    }

    /** The search for an entry with the key. */
    method Search(key: Key) returns (i: nat)
      requires Valid()
      ensures i == Find(Table(), key)
    {
      i := 0;
      while i < svnum
        invariant 0 <= i <= svnum
        invariant i + Find(sv[i..svnum], key) == Find(Table(), key)
      {
        assert sv[i..svnum][1..] == sv[i + 1..svnum];
        if sv[i].key == key {
          return;
        }
        i := i + 1;
      }
    }

    /** What runsvdir does for one name. */
    method Visit(n: Name)
      requires Valid()
      modifies this`svnum, this`check, this`errno, sv
      ensures Valid() && Table() == Visited(old(Table()), n)
      ensures check == (old(check) || svnum > old(svnum))
      ensures errno == (!n.StatFailed? && (old(errno) || ForkFails(old(Table()), n)))
    {
      hide TableOk, Keys;
      ghost var t := Table();
      VisitedKeepsKeys(t, n);
      if n.Ignored? {
        return;
      }
      if n.StatFailed? {
        errno := false;
        return;
      }
      VisitedWhere(t, n);
      hide Visited, ForkFails, Find;
      var i := Search(n.key);
      if i < svnum {
        sv[i] := sv[i].(gone := false);
        if sv[i].pid == 0 {
          RunSv(i, n.pid);
        }
        assert Table() == t[i := sv[i]];
        return;
      }
      if svnum >= MAXSERVICES {
        return;
      }
      sv[i] := Entry(n.key, 0, false);
      svnum := svnum + 1;
      RunSv(i, n.pid);
      check := true;
      assert Table() == t + [sv[i]];
    }

    /** The removing loop of runsvdir. */
    method Remove()
      requires Valid()
      modifies this`svnum, this`check, this`killed, sv
      ensures Valid() && Table() == Sweep(old(Table()), 0).left
      ensures check == (old(check) || Sweep(old(Table()), 0).removed != [])
      ensures killed == old(killed) + Runners(Sweep(old(Table()), 0).removed)
    {
      hide Sweep, Swapped, TableOk, Runners;
      ghost var t := Table();
      ghost var s := Sweep(t, 0);
      SweepOk(t);
      ghost var gone: seq<Entry> := [];
      var i := 0;
      RunnersConcat([], s.removed);
      while i < svnum
        invariant svnum <= MAXSERVICES && sv[..svnum] == t
        invariant Sweep(t, i).left == s.left && gone + Sweep(t, i).removed == s.removed
        invariant check == (old(check) || gone != [])
        invariant killed == old(killed) + Runners(gone)
        decreases svnum - i
      {
        SweepStep(t, i);
        if sv[i].gone {
          RunnersConcat(gone, [t[i]]);
          RunnersOne(t[i]);
          if sv[i].pid != 0 {
            killed := killed + [sv[i].pid];
          }
          gone := gone + [t[i]];
          svnum := svnum - 1;
          sv[i] := sv[svnum];
          check := true;
          TableSwapped(t, i, sv[..svnum]);
          t := Swapped(t, i);
        }
        i := i + 1;
      }
      SweepEnd(t, i);
      assert gone + [] == gone;
    }

    /** runsvdir(): one scan. readable is the fate of opendir. */
    method Scan(l: Listing, readable: bool)
      requires Valid()
      modifies this, sv
      ensures Valid()
      ensures !readable ==> Table() == old(Table()) && check == old(check) && killed == old(killed)
      ensures readable ==> Table() == Round(old(Table()), l)
      ensures readable ==> check == (old(check) || Changes(old(Table()), l))
      ensures readable && Broken(old(Table()), l) ==> killed == old(killed)
      ensures readable && !Broken(old(Table()), l) ==>
                killed == old(killed) + Runners(Sweep(RoundScan(old(Table()), l.names), 0).removed)
    {
      hide Sweep, Marked, Visited, TableOk, ForkFails;
      if !readable {
        return;
      }
      ghost var t := Table();
      Mark();
      ghost var m, n := Table(), svnum;
      errno := false;
      var i := 0;
      assert l.names[..0] == [];
      while i < |l.names|
        invariant 0 <= i <= |l.names| && Valid()
        invariant Table() == Scanned(m, l.names[..i]) && svnum >= n
        invariant errno == Errno(m, l.names[..i])
        invariant check == (old(check) || svnum > n) && killed == old(killed)
      {
        assert l.names[..i + 1][..i] == l.names[..i];
        VisitGrows(Table(), l.names[i]);
        Visit(l.names[i]);
        i := i + 1;
      }
      assert l.names[..i] == l.names;
      if l.failed {
        errno := true;
      }
      if errno {
        check := true;
        return;
      }
      Remove();
    }

    /** The part of main's loop that collects a child. */
    method Collect(pid: nat)
      requires Valid() && pid > 0
      modifies this`check, sv
      ensures Valid() && Table() == Collected(old(Table()), pid)
      ensures check == (old(check) || exists e :: e in old(Table()) && e.pid == pid)
    {
      hide TableOk, Collected, Keys, Extra;
      ghost var t := Table();
      CollectedOk(t, pid, {});
      var i := 0;
      while i < svnum
        invariant 0 <= i <= svnum && Table() == t
        invariant forall j :: 0 <= j < i ==> t[j].pid != pid
      {
        if sv[i].pid == pid {
          assert t[i] in t;
          CollectedAt(t, i, pid);
          sv[i] := sv[i].(pid := 0);
          check := true;
          return;
        }
        i := i + 1;
      }
      CollectedAt(t, i, pid);
    }

    /** The part of main's loop that decides whether to scan. */
    method Turn(modified: bool, l: Listing, readable: bool)
      requires Valid()
      modifies this, sv
      ensures Valid()
      ensures !old(check) && !modified ==> Table() == old(Table()) && !check
      ensures (old(check) || modified) && readable ==>
                Table() == Round(old(Table()), l) && check == Changes(old(Table()), l)
      ensures (old(check) || modified) && !readable ==> Table() == old(Table()) && !check
      // a scan leaves check 0 exactly if it was complete and the table was as the directory is
      ensures (old(check) || modified) && readable && |Shown(l.names)| <= MAXSERVICES ==>
                (!check <==> !Broken(old(Table()), l) && Keys(old(Table())) == Shown(l.names)) &&
                (!check ==> Keys(Table()) == Shown(l.names))
    {
      if check || modified {
        check := false;
        ghost var t := Table();
        Scan(l, readable);
        if |Shown(l.names)| <= MAXSERVICES {
          QuietIff(t, l);
        }
      }
    }

    /** main's loop over wait_nohang. */
    method CollectAll(ended: seq<nat>)
      requires Valid() && 0 !in ended
      modifies this`check, sv
      ensures Valid() && Table() == Rounds(old(Table()), Ends(ended))
      ensures check == (old(check) || HitsRunner(old(Table()), ended))
    {
      hide TableOk, Collected, Rounds, HitsRunner, Ends;
      ghost var t := Table();
      var i := 0;
      EndsNone(t);
      assert ended[..0] == [];
      while i < |ended|
        invariant 0 <= i <= |ended| && Valid() && Table() == Rounds(t, Ends(ended[..i]))
        invariant check == (old(check) || HitsRunner(t, ended[..i]))
      {
        assert ended[i] in ended;
        EndsMore(t, ended[..i], ended[i]);
        assert ended[..i + 1] == ended[..i] + [ended[i]];
        Collect(ended[i]);
        i := i + 1;
      }
      assert ended[..i] == ended;
    }

    /** One pass of main's loop, the waiting left out: the children that ended are collected, and the
        directory is scanned if one of them was a runner, a scan asked for another one, or the
        directory was modified. */
    method Pass(ended: seq<nat>, modified: bool, l: Listing, readable: bool) returns (ghost ee: seq<Event>)
      requires Valid() && 0 !in ended
      modifies this, sv
      ensures Valid() && Table() == Rounds(old(Table()), ee)
      ensures var due := old(check) || HitsRunner(old(Table()), ended) || modified;
              ee == Ends(ended) + if due && readable then [Event.Scan(l)] else []
      ensures ee != Ends(ended) ==> check == Changes(Rounds(old(Table()), Ends(ended)), l)
      ensures ee == Ends(ended) ==> !check
    {
      hide TableOk, Round, Changes, HitsRunner;
      ghost var t := Table();
      CollectAll(ended);
      ee := Ends(ended);
      assert ee + [] == ee;
      ghost var due := check || modified;
      Turn(modified, l, readable);
      if due && readable {
        ee := ee + [Event.Scan(l)];
        assert ee[..|ee| - 1] == Ends(ended);
      }
    }
  }

  function Ends(ended: seq<nat>): (ee: seq<Event>)
    ensures |ee| == |ended| && forall i :: 0 <= i < |ee| ==> ee[i] == ChildEnd(ended[i])
  {
    seq(|ended|, i requires 0 <= i < |ended| => ChildEnd(ended[i]))
  }

  /** One of the children was a runner of the table. */
  ghost predicate HitsRunner(t: seq<Entry>, ended: seq<nat>) {
    exists k :: 0 <= k < |ended| && exists e :: e in Rounds(t, Ends(ended[..k])) && e.pid == ended[k]
  }

  lemma EndsNone(t: seq<Entry>)
    ensures Rounds(t, Ends([])) == t && !HitsRunner(t, [])
  {
  }

  lemma EndsMore(t: seq<Entry>, ended: seq<nat>, pid: nat)
    ensures Rounds(t, Ends(ended + [pid])) == Collected(Rounds(t, Ends(ended)), pid)
    ensures HitsRunner(t, ended + [pid]) <==>
              HitsRunner(t, ended) || exists e :: e in Rounds(t, Ends(ended)) && e.pid == pid
  {
    var all, ee := ended + [pid], Ends(ended + [pid]);
    assert ee[..|ee| - 1] == Ends(ended);
    assert all[..|ended|] == ended;
    assert forall k :: 0 <= k < |ended| ==> all[..k] == ended[..k];
    hide Rounds, Collected;
  }

  lemma {:induction false} CollectedAt(t: seq<Entry>, i: nat, pid: nat)
    requires i <= |t| && forall j :: 0 <= j < i ==> t[j].pid != pid
    requires i < |t| ==> t[i].pid == pid
    ensures Collected(t, pid) == if i < |t| then t[i := t[i].(pid := 0)] else t
  {
    if i > 0 {
      CollectedAt(t[1..], i - 1, pid);
      assert t == [t[0]] + t[1..];
    }
  }

  lemma VisitedWhere(t: seq<Entry>, n: Name)
    requires n.Service?
    ensures var i := Find(t, n.key);
            && (i < |t| ==>
                 Visited(t, n) == t[i := t[i].(gone := false, pid := if t[i].pid == 0 then n.pid else t[i].pid)])
            && (i == |t| >= MAXSERVICES ==> Visited(t, n) == t)
            && (i == |t| < MAXSERVICES ==> Visited(t, n) == t + [Entry(n.key, n.pid, false)])
            && (ForkFails(t, n) <==> n.pid == 0 && if i < |t| then t[i].pid == 0 else |t| < MAXSERVICES)
  {
  }

  lemma VisitGrows(t: seq<Entry>, n: Name)
    ensures |Visited(t, n)| >= |t|
  {
  }

  lemma {:induction false} RunnersConcat(a: seq<Entry>, b: seq<Entry>)
    ensures Runners(a + b) == Runners(a) + Runners(b) && Runners([]) == []
  {
    if a == [] {
      assert a + b == b;
    } else {
      assert (a + b)[1..] == a[1..] + b;
      RunnersConcat(a[1..], b);
    }
  }

  lemma RunnersOne(e: Entry)
    ensures Runners([e]) == if e.pid != 0 then [e.pid] else []
  {
    assert [e][1..] == [];
  }

  lemma SweepStep(t: seq<Entry>, i: nat)
    requires i < |t|
    ensures !t[i].gone ==> Sweep(t, i) == Sweep(t, i + 1)
    ensures t[i].gone ==>
              var s := Sweep(Swapped(t, i), i + 1);
              Sweep(t, i) == Swept(s.left, [t[i]] + s.removed)
  {
  }

  lemma SweepEnd(t: seq<Entry>, i: nat)
    requires i >= |t|
    ensures Sweep(t, i) == Swept(t, [])
  {
  }

  lemma SweepOk(t: seq<Entry>)
    requires TableOk(t)
    ensures TableOk(Sweep(t, 0).left)
  {
    SweepDistinct(t, 0);
  }

  lemma TableSwapped(t: seq<Entry>, i: nat, u: seq<Entry>)
    requires i < |t| && |u| == |t| - 1
    requires forall j :: 0 <= j < |u| ==> u[j] == if j == i then t[|t| - 1] else t[j]
    ensures u == Swapped(t, i)
  {
  }
}
