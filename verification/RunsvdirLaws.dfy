/** Which runsv processes runsvdir starts and signals: one for each service shown, started again when it
    ends, told to stop when its directory is gone, and no other one touched. */
module RunsvdirLaws {
  import opened Runsvdir

  /** The pid of the first fork for the service that succeeds, or 0. */
  function FirstRunner(names: seq<Name>, k: Key): nat {
    if names == [] then 0
    else
      var n, p := names[|names| - 1], FirstRunner(names[..|names| - 1], k);
      if p != 0 then p else if n.Service? && n.key == k then n.pid else 0
  }

  lemma {:induction false} FirstRunnerIs(names: seq<Name>, k: Key)
    ensures var p := FirstRunner(names, k);
            if p == 0 then forall n :: n in names && n.Service? && n.key == k ==> n.pid == 0
            else exists i :: 0 <= i < |names| && names[i] == Service(k, p) &&
                   forall j :: 0 <= j < i && names[j].Service? && names[j].key == k ==> names[j].pid == 0
  {
    if names != [] {
      var m := |names| - 1;
      var pre := names[..m];
      assert names == pre + [names[m]];
      FirstRunnerIs(pre, k);
      assert forall j :: 0 <= j < m ==> names[j] == pre[j] && pre[j] in pre;
    }
  }

  /** A runner that runs is kept; an entry without one gets that of the first fork that succeeds. */
  lemma {:induction false} ScannedRunnerIs(t: seq<Entry>, names: seq<Name>, i: nat)
    requires TableOk(t) && (forall j :: 0 <= j < |t| ==> t[j].gone) && i < |Scanned(t, names)|
    ensures var e := Scanned(t, names)[i];
            e.pid == if i < |t| && t[i].pid != 0 then t[i].pid else FirstRunner(names, e.key)
  {
    if names != [] {
      var pre, n := names[..|names| - 1], names[|names| - 1];
      var q, r := Scanned(t, pre), Scanned(t, names);
      ScannedFacts(t, pre);
      VisitedKeepsKeys(q, n);
      if i < |q| {
        ScannedRunnerIs(t, pre, i);
        if n.Service? {
          VisitedWhere(q, n);
        }
      } else {
        FirstRunnerIs(pre, n.key);
        assert n.key !in Shown(pre) by {
          assert n.key in Shown(pre) ==> n.key in Keys(q) || |q| == MAXSERVICES;
          NotFound(q, n);
        }
      }
      hide Scanned, TableOk, Visited, Find;
    }
  }

  lemma NotFound(t: seq<Entry>, n: Name)
    requires |Visited(t, n)| > |t|
    ensures n.Service? && n.key !in Keys(t) && |t| < MAXSERVICES
  {
  }

  /** After a scan: a runner that ran still runs the same service, and no second one beside it. */
  lemma RoundRunnerIs(t: seq<Entry>, l: Listing, e: Entry)
    requires TableOk(t) && e in Round(t, l)
    ensures forall d :: d in t && d.key == e.key && d.pid != 0 ==> e.pid == d.pid
    ensures (forall d :: d in t && d.key == e.key ==> d.pid == 0) ==> e.pid == FirstRunner(l.names, e.key)
  {
    var q := RoundScan(t, l.names);
    SweptIn(q, e);
    var i :| 0 <= i < |q| && q[i] == e;
    ScannedRunnerIs(Marked(t), l.names, i);
    SameEntry(t, l.names, i);
    hide Scanned, Sweep, RoundScan;
  }

  /** Entry i of a scanned table is the one of the table before with its key, if i is in that. */
  lemma SameEntry(t: seq<Entry>, names: seq<Name>, i: nat)
    requires TableOk(t) && i < |RoundScan(t, names)|
    ensures var k := RoundScan(t, names)[i].key;
            if i < |t| then t[i].key == k && t[i] in t && (forall d :: d in t && d.key == k ==> d == t[i])
            else forall d :: d in t ==> d.key != k
  {
    RoundScanFacts(t, names);
    hide Scanned, RoundScan;
    var q := RoundScan(t, names);
    if i >= |t| {
      forall d | d in t
        ensures d.key != q[i].key
      {
        var j :| 0 <= j < |t| && t[j] == d;
        assert q[j].key == d.key;
      }
    }
  }

  lemma {:induction false} OnlyOnce(t: seq<Entry>, e: Entry)
    requires Distinct(t)
    ensures multiset(t)[e] <= 1
  {
    if t != [] {
      var m := |t| - 1;
      var pre := t[..m];
      assert t == pre + [t[m]];
      OnlyOnce(pre, e);
      assert forall j :: 0 <= j < m ==> pre[j] == t[j] && t[j].key != t[m].key;
      assert e == t[m] ==> e !in pre;
    }
  }

  lemma {:induction false} RunnersIff(es: seq<Entry>, p: nat)
    ensures p in Runners(es) <==> p != 0 && exists e :: e in es && e.pid == p
  {
    if es != [] {
      RunnersIff(es[1..], p);
      assert es == [es[0]] + es[1..];
    }
  }

  /** What the sweep removes is what it does not leave, by key. */
  lemma RemovedIff(t: seq<Entry>, e: Entry)
    requires Distinct(t) && e in t
    ensures e in Sweep(t, 0).removed <==> e.key !in Keys(Sweep(t, 0).left)
  {
    SweepConserves(t, 0);
    var s := Sweep(t, 0);
    hide Sweep;
    OnlyOnce(t, e);
    assert e in multiset(t);
    assert e in s.removed <==> e in multiset(s.removed);
    assert e in s.left <==> e in multiset(s.left);
    if e.key in Keys(s.left) {
      var f :| f in s.left && f.key == e.key;
      assert f in multiset(s.left);
      assert f in multiset(t);
      assert f in t;
      var i :| 0 <= i < |t| && t[i] == f;
      var j :| 0 <= j < |t| && t[j] == e;
      assert i == j;
    }
  }

  /** SIGTERM goes to the runners of the services that leave the table, and to no other process. */
  lemma SignalledIff(t: seq<Entry>, l: Listing, p: nat)
    requires TableOk(t) && !Broken(t, l)
    ensures p in Runners(Sweep(RoundScan(t, l.names), 0).removed) <==>
              p != 0 && exists d :: d in t && d.pid == p && d.key !in Keys(Round(t, l))
  {
    var q := RoundScan(t, l.names);
    var removed := Sweep(q, 0).removed;
    RunnersIff(removed, p);
    RoundScanFacts(t, l.names);
    if p in Runners(removed) {
      var e :| e in removed && e.pid == p;
      var i := RemovedWas(t, l.names, e);
    }
    if d :| d in t && d.pid == p && p != 0 && d.key !in Keys(Round(t, l)) {
      var i :| 0 <= i < |t| && t[i] == d;
      RunnerOf(t, l.names, i);
      assert q[i] in q;
      RemovedIff(q, q[i]);
      assert q[i] in removed && q[i].pid == p;
    }
  }

  lemma RunnerOf(t: seq<Entry>, names: seq<Name>, i: nat)
    requires TableOk(t) && i < |t|
    ensures i < |RoundScan(t, names)| && (t[i].pid != 0 ==> RoundScan(t, names)[i].pid == t[i].pid)
    ensures RoundScan(t, names)[i].key == t[i].key
    ensures t[i].pid == 0 && t[i].key !in Shown(names) ==> RoundScan(t, names)[i].pid == 0
  {
    RoundScanFacts(t, names);
    ScannedRunnerIs(Marked(t), names, i);
    FirstRunnerIs(names, t[i].key);
    hide Scanned, TableOk;
  }

  lemma RemovedWas(t: seq<Entry>, names: seq<Name>, e: Entry) returns (i: nat)
    requires TableOk(t) && e in Sweep(RoundScan(t, names), 0).removed
    ensures i < |t| && t[i] in t && t[i].key == e.key && t[i].pid == e.pid
    ensures e.key !in Keys(Sweep(RoundScan(t, names), 0).left)
  {
    var q := RoundScan(t, names);
    SweepConserves(q, 0);
    RoundScanFacts(t, names);
    ScannedFacts(Marked(t), names);
    assert e in multiset(Sweep(q, 0).removed);
    assert e in multiset(q);
    assert e in q && e.gone;
    RemovedIff(q, e);
    i :| 0 <= i < |q| && q[i] == e;
    hide Sweep, Scanned;
    assert i < |t|;
    RunnerOf(t, names, i);
  }

  /** When a runner has ended, the next complete scan that shows its service starts a new one; the other
      services keep theirs. */
  lemma EndedIsRestarted(t: seq<Entry>, d: Entry, l: Listing, f: Entry)
    requires TableOk(t) && d in t && d.pid != 0 && (forall o :: o in t && o.pid == d.pid ==> o == d)
    requires f in Round(Collected(t, d.pid), l)
    ensures f.key == d.key ==> f.pid == FirstRunner(l.names, d.key)
    ensures forall o :: o in t && o != d && o.key == f.key && o.pid != 0 ==> f.pid == o.pid
    ensures !Broken(Collected(t, d.pid), l) && d.key in Shown(l.names) ==> d.key in Keys(Round(Collected(t, d.pid), l))
  {
    var c := Collected(t, d.pid);
    CollectedExactly(t, d);
    CollectedOk(t, d.pid, {});
    hide Collected, Round, Broken, Shown, TableOk;
    RoundRunnerIs(c, l, f);
    if !Broken(c, l) {
      RoundHalves(c, l);
    }
  }

  /** The entry of the child that ended has none now, the others are as they were. */
  lemma CollectedExactly(t: seq<Entry>, d: Entry)
    requires TableOk(t) && d in t && d.pid != 0 && (forall o :: o in t && o.pid == d.pid ==> o == d)
    ensures var c := Collected(t, d.pid);
            && (forall o :: o in c && o.key == d.key ==> o.pid == 0) && d.key in Keys(c)
            && (forall o :: o in t && o != d ==> o in c)
  {
    var c := Collected(t, d.pid);
    var i :| 0 <= i < |t| && t[i] == d;
    assert forall j :: 0 <= j < i ==> t[j] in t && t[j].key != d.key;
    CollectedAt(t, i, d.pid);
    assert c == t[i := d.(pid := 0)];
    hide Collected;
    assert c[i] in c;
    forall o | o in c && o.key == d.key
      ensures o.pid == 0
    {
      var j :| 0 <= j < |c| && c[j] == o;
      assert t[j].key == o.key;
    }
    forall o | o in t && o != d
      ensures o in c
    {
      var j :| 0 <= j < |t| && t[j] == o;
      assert c[j] in c;
    }
  }

  /** A fork fails for a name exactly if there is one to be made, for a service in the table without a runner
      or a new one that still fits, and it fails. */
  lemma ForkFailsIff(t: seq<Entry>, n: Name)
    requires TableOk(t)
    ensures ForkFails(t, n) <==>
              && n.Service? && n.pid == 0
              && ((exists e :: e in t && e.key == n.key && e.pid == 0) || (n.key !in Keys(t) && |t| < 1000))
  {
    if n.Service? {
      var i := Find(t, n.key);
      if i < |t| {
        assert t[i] in t;
        forall e | e in t && e.key == n.key
          ensures e == t[i]
        {
          var j :| 0 <= j < |t| && t[j] == e;
          assert i == j;
        }
      }
    }
  }

  /** The bound of a half is exact: of a table of gone entries, a half is left, rounded down. */
  lemma {:induction false} SweepLeavesHalf(t: seq<Entry>, i: nat)
    requires i <= |t| && forall j :: i <= j < |t| ==> t[j].gone
    ensures |Sweep(t, i).left| - i == (|t| - i) / 2
    decreases |t| - i
  {
    if i < |t| {
      var u := Swapped(t, i);
      if i < |u| {
        SweepLeavesHalf(u, i + 1);
      }
    }
  }
}
