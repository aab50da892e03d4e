/** pid1/runit.c: process 1 takes the system through its stages. */
module Pid1 {

  // ---- wait statuses -----------------------------------------------------------------------

  type Status = x: int | 0 <= x < 0x1_0000

  predicate Crashed(w: Status) {
    w % 128 != 0
  }

  function ExitCode(w: Status): nat {
    w / 256
  }

  /** What the kernel reports for a process that ended: an exit code, or a signal and whether there
      was a core dump. */
  predicate Real(w: Status) {
    Crashed(w) ==> ExitCode(w) == 0
  }

  // ---- the stages --------------------------------------------------------------------------

  const FIRST: nat := 0       // /etc/runit/1
  const RUNNING: nat := 2     // /etc/runit/3
  const LAST: nat := 3        // /etc/runit/4

  /** How a stage is left: its program ended, or it was shut down. */
  datatype End = Exited(w: Status) | Shut

  /** Both tests stand inside the test for an exit code other than 0. */
  predicate Skips(w: Status) {
    ExitCode(w) != 0 && (Crashed(w) || ExitCode(w) == 100)
  }

  predicate Repeats(w: Status) {
    ExitCode(w) != 0 && (Crashed(w) || ExitCode(w) == 111)
  }

  /** The stage after one that ended. */
  function After(stage: nat, e: End): nat {
    if e.Exited? && stage == FIRST && Skips(e.w) then RUNNING
    else if e.Exited? && stage == RUNNING && Repeats(e.w) then RUNNING
    else stage + 1
  }

  /** The stages entered so far and how they ended; the last one may still be running. */
  datatype History = History(entered: seq<nat>, ends: seq<End>)

  ghost predicate Lawful(h: History) {
    && |h.entered| > 0 && |h.entered| - 1 <= |h.ends| <= |h.entered|
    && h.entered[0] == FIRST
    && (forall i :: 0 <= i < |h.entered| - 1 ==> h.entered[i + 1] == After(h.entered[i], h.ends[i]))
    && (forall i :: 0 <= i < |h.entered| ==> h.entered[i] <= LAST)
    && (forall i :: 0 <= i < |h.ends| && h.ends[i] == Shut ==> h.entered[i] == RUNNING)
  }

  /** The first stage, the second unless it is skipped, the third at least once, the fourth. */
  ghost function Course(skip: bool, n: nat): seq<nat> {
    [0] + (if skip then [] else [1]) + seq(n + 1, _ => 2) + [3]
  }

  /** The stages entered are a first part of a course, and all of it with the last stage. */
  ghost predicate OnCourse(entered: seq<nat>)
    requires entered != []
  {
    && (exists skip, n :: entered <= Course(skip, n))
    && (entered[|entered| - 1] == LAST ==> exists skip, n :: entered == Course(skip, n))
  }

  /** Every history runs along a course. */
  lemma {:induction false} StagesInOrder(h: History)
    requires Lawful(h)
    ensures OnCourse(h.entered)
  {
    var m := |h.entered|;
    var skip := m > 1 && h.entered[1] == 2;
    var lead := if skip then 1 else 2;
    StageAt(h, skip, m - 1);
    var last := h.entered[m - 1];
    var n := if last == LAST then m - lead - 2 else m;
    var c := Course(skip, n);
    forall i | 0 <= i < m
      ensures i < |c| && h.entered[i] == c[i]
    {
      StageAt(h, skip, i);
      if i + 1 < m {
        StageAt(h, skip, i + 1);
      }
    }
    assert h.entered == c[..m];
    assert last == LAST ==> m == |c|;
  }

  /** Behind the lead there is only the third stage, until the last. */
  lemma {:induction false} StageAt(h: History, skip: bool, i: nat)
    requires Lawful(h) && i < |h.entered|
    requires skip == (|h.entered| > 1 && h.entered[1] == 2)
    ensures var lead := if skip then 1 else 2;
      if i < lead then h.entered[i] == i
      else h.entered[i] == 2 || (h.entered[i] == 3 && i > lead && i == |h.entered| - 1)
    decreases i
  {
    if i > 0 {
      StageAt(h, skip, i - 1);
      assert h.entered[i - 1 + 1] == After(h.entered[i - 1], h.ends[i - 1]);
    }
    assert i + 1 < |h.entered| ==> h.entered[i + 1] == After(h.entered[i], h.ends[i]);
  }

  /** What a status of the kernel's does. The manual promises that a crash of the first stage skips
      the second and that a crash of the third restarts it; of the two, only the exit codes do. */
  lemma {:induction false} OnlyExitCodesCount(w: Status)
    requires Real(w)
    ensures Skips(w) <==> w == 100 * 256 || w == 100 * 256 + 128
    ensures Repeats(w) <==> w == 111 * 256 || w == 111 * 256 + 128
    ensures Crashed(w) ==> After(FIRST, Exited(w)) == 1 && After(RUNNING, Exited(w)) == LAST
  {
  }

  // ---- what process 1 is told --------------------------------------------------------------

  /** An answer of wait_nohang. Other children that ended are collected on the way. */
  datatype Answer = Failed | NoChild | StageEnded(w: Status) | RunnerEnded(w: Status) | OtherEnded

  /** What process 1 finds when it wakes up: signals that came, a child that ended, which files may
      be executed, and what wait_nohang says during a shutdown. */
  datatype Wake = Wake(conts: nat, ints: nat, child: Answer, ctrlaltdel: bool, stopit: bool, reaped: seq<Answer>)

  const SIGTERM: nat := 15
  const SIGKILL: nat := 9

  /** A signal sent: to a process, or (negative) to its group. */
  datatype Kill = Kill(target: int, sig: nat)

  /** wait_nohang reports the third stage's end before it has said n times that there is nothing to
      report. */
  predicate Heeds(reaped: seq<Answer>, n: nat) {
    if n == 0 || reaped == [] then false
    else match reaped[0]
      case StageEnded(_) => true
      case NoChild => Heeds(reaped[1..], n - 1)
      case _ => Heeds(reaped[1..], n)
  }

  ghost function Nothings(reaped: seq<Answer>): nat {
    if reaped == [] then 0 else Nothings(reaped[..|reaped| - 1]) + if reaped[|reaped| - 1] == NoChild then 1 else 0
  }

  lemma {:induction false} NothingsFirst(reaped: seq<Answer>)
    requires reaped != []
    ensures Nothings(reaped) == Nothings(reaped[1..]) + if reaped[0] == NoChild then 1 else 0
  {
    var m := |reaped| - 1;
    if m > 0 {
      NothingsFirst(reaped[..m]);
      assert reaped[..m][1..] == reaped[1..][..m - 1];
    } else {
      assert reaped[1..] == [] && reaped[..0] == [];
    }
  }

  /** The end is reported, with fewer than n answers before it that there is nothing to report. */
  ghost predicate ReportedIn(reaped: seq<Answer>, n: nat) {
    exists i :: 0 <= i < |reaped| && reaped[i].StageEnded? && Nothings(reaped[..i]) < n
  }

  lemma {:induction false} HeedsIff(reaped: seq<Answer>, n: nat)
    ensures Heeds(reaped, n) <==> ReportedIn(reaped, n)
  {
    if n > 0 && reaped != [] {
      var rest := reaped[1..];
      HeedsIff(rest, n - 1);
      HeedsIff(rest, n);
      assert reaped[..0] == [];
      forall i | 0 < i <= |rest|
        ensures reaped[i] == rest[i - 1]
        ensures Nothings(reaped[..i]) == Nothings(rest[..i - 1]) + if reaped[0] == NoChild then 1 else 0
      {
        NothingsFirst(reaped[..i]);
        assert reaped[..i][1..] == rest[..i - 1];
      }
      assert forall i :: 0 <= i < |rest| ==> rest[i] == reaped[i + 1];
    }
  }

  /** The signals of a shutdown. */
  function Stopping(reaped: seq<Answer>, pid: int): seq<Kill> {
    [Kill(pid, SIGTERM)] + if Heeds(reaped, 5) then [] else [Kill(pid, SIGKILL)]
  }

  /** SIGTERM, 15, and then SIGKILL, 9, exactly if the end is not reported in five looks that find nothing. */
  lemma StoppingSends(reaped: seq<Answer>, pid: int)
    ensures Stopping(reaped, pid) == [Kill(pid, 15)] + if ReportedIn(reaped, 5) then [] else [Kill(pid, 9)]
  {
    HeedsIff(reaped, 5);
  }

  /** The signals a turn sends to a stage it finds over. */
  function Sent(e: Wake, stage: nat, pid: int): seq<Kill> {
    if e.child.StageEnded? then
      if stage == RUNNING && Repeats(e.child.w) then [Kill(-pid, SIGKILL)] else []
    else Stopping(e.reaped, pid)
  }

  /** A signal is acted upon when no child has ended, and in the third stage only. One that came
      earlier may still be pending then. */
  predicate ShutsDown(e: Wake, stage: nat, conts: nat, ints: nat) {
    && e.child == NoChild && stage == RUNNING && e.stopit
    && (conts + e.conts > 0 || (e.ctrlaltdel && ints + e.ints > 0))
  }

  // ---- the run as a function of the events -------------------------------------------------

  /** The stages so far, and the signals counted but not yet acted upon or forgotten. */
  datatype Machine = Machine(h: History, conts: nat, ints: nat)

  const START: Machine := Machine(History([FIRST], []), 0, 0)

  predicate Finished(m: Machine) {
    |m.h.entered| <= |m.h.ends|
  }

  function Stage(m: Machine): nat
    requires m.h.entered != []
  {
    m.h.entered[|m.h.entered| - 1]
  }

  /** A wake-up ends the stage, or leaves it, and counts, keeps or forgets signals. */
  function Turned(m: Machine, e: Wake): Machine
    requires m.h.entered != []
  {
    var conts, ints := m.conts + e.conts, m.ints + e.ints;
    if e.child.StageEnded? then Machine(m.h.(ends := m.h.ends + [Exited(e.child.w)]), conts, ints)
    else if ShutsDown(e, Stage(m), m.conts, m.ints) then
      Machine(m.h.(ends := m.h.ends + [Shut]), 0, if e.ctrlaltdel then 0 else ints)
    else if e.child == NoChild then Machine(m.h, 0, 0)
    else Machine(m.h, conts, ints)
  }

  /** A wake-up shuts the third stage down exactly if no child has ended, /etc/runit/stopit may be executed,
      and a CONT has come, or, if /etc/runit/ctrlaltdel may be executed, an INT. If no child has ended and the
      stage goes on, the signals are forgotten. */
  lemma ShutDownIff(m: Machine, e: Wake)
    requires m.h.entered != []
    ensures Turned(m, e).h.ends == m.h.ends + [Shut] <==>
              && e.child == NoChild && Stage(m) == 2 && e.stopit
              && (m.conts + e.conts > 0 || (e.ctrlaltdel && m.ints + e.ints > 0))
    ensures e.child == NoChild && Turned(m, e).h.ends == m.h.ends ==> Turned(m, e).conts == Turned(m, e).ints == 0
    ensures !e.child.StageEnded? && e.child != NoChild ==>
              Turned(m, e) == Machine(m.h, m.conts + e.conts, m.ints + e.ints)
    ensures e.child.StageEnded? ==> Turned(m, e).h.ends == m.h.ends + [Exited(e.child.w)]
  {
    assert e.child.StageEnded? ==> Turned(m, e).h.ends[|m.h.ends|] == Exited(e.child.w);
  }

  /** A third stage that is to be restarted is killed as a group, with signal 9; no other end of a program
      makes process 1 send anything. */
  lemma EndedSends(e: Wake, stage: nat, pid: int)
    requires e.child.StageEnded? && Real(e.child.w)
    ensures Sent(e, stage, pid) ==
            if stage == 2 && e.child.w / 256 == 111 then [Kill(-pid, 9)] else []
  {
  }

  /** The next stage is entered, unless that was the last one. */
  function Entered(m: Machine): Machine
    requires m.h.entered != []
  {
    if Finished(m) && m.h.ends != [] && After(Stage(m), m.h.ends[|m.h.ends| - 1]) <= LAST
    then m.(h := m.h.(entered := m.h.entered + [After(Stage(m), m.h.ends[|m.h.ends| - 1])]))
    else m
  }

  /** What process 1 has come to after the events. */
  function RunOf(events: seq<Wake>): (m: Machine)
    ensures m.h.entered != []
  {
    if events == [] then START
    else
      var m := RunOf(events[..|events| - 1]);
      if Finished(m) then m else Entered(Turned(m, events[|events| - 1]))
  }

  lemma {:induction false} FinishedStays(events: seq<Wake>, i: nat)
    requires i <= |events| && Finished(RunOf(events[..i]))
    ensures RunOf(events) == RunOf(events[..i])
    decreases |events|
  {
    if i < |events| {
      var pre := events[..|events| - 1];
      assert pre[..i] == events[..i];
      FinishedStays(pre, i);
    } else {
      assert events[..i] == events;
    }
  }

  /** The event that ended a stage: it reported the end of the stage's program with that status, or
      it shut the third stage down on signals that had come. */
  predicate Ends(m: Machine, e: Wake, end: End)
    requires m.h.entered != []
  {
    match end
    case Exited(w) => e.child == StageEnded(w)
    case Shut => ShutsDown(e, Stage(m), m.conts, m.ints)
  }

  lemma RunOn(events: seq<Wake>, i: nat)
    requires i < |events|
    ensures var m := RunOf(events[..i]);
            RunOf(events[..i + 1]) == if Finished(m) then m else Entered(Turned(m, events[i]))
  {
    assert events[..i + 1][..i] == events[..i];
  }

  /** Every end of a stage has its event among the first n, in order. */
  lemma {:induction false} EndsHaveEvents(events: seq<Wake>, n: nat) returns (js: seq<nat>)
    requires n <= |events|
    ensures |js| == |RunOf(events[..n]).h.ends|
    ensures forall k :: 0 <= k < |js| ==> js[k] < n && (k > 0 ==> js[k - 1] < js[k])
    ensures forall k :: 0 <= k < |js| ==>
              Ends(RunOf(events[..js[k]]), events[js[k]], RunOf(events[..n]).h.ends[k])
    decreases n
  {
    js := [];
    if n > 0 {
      hide ShutsDown, RunOf, Turned, Entered, Ends;
      var m, e := RunOf(events[..n - 1]), events[n - 1];
      js := EndsHaveEvents(events, n - 1);
      RunOn(events, n - 1);
      EndsGrow(m, e);
      if !Finished(m) && |Turned(m, e).h.ends| > |m.h.ends| {
        js := js + [n - 1];
      }
    } else {
      assert events[..0] == [];
    }
  }

  lemma EndsGrow(m: Machine, e: Wake)
    requires m.h.entered != []
    ensures Entered(Turned(m, e)).h.ends == Turned(m, e).h.ends
    ensures var before, now := m.h.ends, Turned(m, e).h.ends;
            before <= now && |now| <= |before| + 1 && (|now| > |before| ==> Ends(m, e, now[|before|]))
  {
  }

  lemma RunStep(events: seq<Wake>)
    requires events != []
    ensures var m := RunOf(events[..|events| - 1]);
            RunOf(events) == if Finished(m) then m else Entered(Turned(m, events[|events| - 1]))
  {
  }

  /** Without a signal no stage is shut down. */
  lemma {:induction false} NoSignalNoShutdown(events: seq<Wake>)
    requires forall e :: e in events ==> e.conts == 0 && e.ints == 0
    ensures var m := RunOf(events); m.conts == 0 && m.ints == 0 && Shut !in m.h.ends
  {
    if events != [] {
      var pre, e := events[..|events| - 1], events[|events| - 1];
      assert e in events && forall x :: x in pre ==> x in events;
      NoSignalNoShutdown(pre);
    }
  }

  class Init {
    var curstage: nat
    var pid: int
    var earlysvcpid: int
    var sigc: nat
    var sigi: nat
    var sent: seq<Kill>
    ghost var h: History
    var runners: set<int>      // the kernel's: early service runners not yet waited for

    /** There is never more than one early service runner, and it is the one that is known. */
    ghost predicate Valid()
      reads this
    {
      && Lawful(h)
      && (curstage == FIRST ==> earlysvcpid == 0)
      && runners <= {earlysvcpid} - {0}
      && earlysvcpid >= 0
    }

    /** The stage is running. In the two middle stages so is the early service runner. */
    ghost predicate Running()
      reads this
    {
      && Valid()
      && |h.ends| == |h.entered| - 1 && curstage == h.entered[|h.ends|]
      && pid > 0 && pid != earlysvcpid
      && (curstage in {1, 2} ==> earlysvcpid > 0 && runners == {earlysvcpid})
    }

    ghost function View(): Machine
      reads this
    {
      Machine(h, sigc, sigi)
    }

    /** The stage is over. */
    ghost predicate Over()
      reads this
    {
      && Valid()
      && |h.ends| == |h.entered|
      && curstage + 1 == After(h.entered[|h.ends| - 1], h.ends[|h.ends| - 1])
    }

    constructor ()
      ensures h == History([], []) && runners == {} && curstage == 0 && earlysvcpid == 0 && sigc == 0 && sigi == 0
    {
      curstage, pid, earlysvcpid, sigc, sigi, sent := 0, 0, 0, 0, 0, [];
      h, runners := History([], []), {};
    }

    /** A fork that succeeds; the pid is not that of a child there is. */
    method Fork(other: int) returns (child: int)
      ensures child > 0 && child != other
    {
      child := *;
      if child <= 0 || child == other {
        child := if other == 1 then 2 else 1;
      }
    }

    /** startearlysvcrunner: only when there is none. */
    method StartEarlySvcRunner()
      requires runners == {} && pid > 0
      modifies this`earlysvcpid, this`runners
      ensures earlysvcpid > 0 && earlysvcpid != pid && runners == {earlysvcpid}
    {
      earlysvcpid := Fork(pid);
      runners := {earlysvcpid};
    }

    /** The head of the stage loop's body. */
    method Enter()
      requires curstage <= LAST
      requires if h == History([], []) then curstage == 0 && earlysvcpid == 0 && runners == {}
        else Valid() && |h.ends| == |h.entered| && curstage == After(h.entered[|h.ends| - 1], h.ends[|h.ends| - 1])
      requires curstage in {1, 2} && earlysvcpid > 0 ==> runners == {earlysvcpid}
      modifies this
      ensures Running() && curstage == old(curstage)
      ensures h == History(old(h.entered) + [curstage], old(h.ends)) && sigc == old(sigc) && sigi == old(sigi)
    {
      pid := Fork(earlysvcpid);
      h := h.(entered := h.entered + [curstage]);
      if curstage > 0 && curstage != 3 && earlysvcpid == 0 {
        StartEarlySvcRunner();
      }
    }

    /** The pid of a child that is neither the stage's process nor the runner. */
    method Other() returns (child: int)
      ensures child > 0 && child != pid && child != earlysvcpid
    {
      child := *;
      if child <= 0 || child == pid || child == earlysvcpid {
        var most := if pid < earlysvcpid then earlysvcpid else pid;
        child := if most < 0 then 1 else most + 1;
      }
    }

    /** wait_nohang: the process that ended, 0 for none, -1 for an error. */
    method WaitNoHang(a: Answer) returns (child: int, w: Status)
      requires pid > 0 && earlysvcpid >= 0 && pid != earlysvcpid && runners <= {earlysvcpid} - {0}
      modifies this`runners
      ensures match a
        case Failed => child == -1
        case NoChild => child == 0
        case StageEnded(v) => child == pid && w == v
        case RunnerEnded(v) =>
          if earlysvcpid in old(runners) then child == earlysvcpid && w == v else child > 0 && child != pid
        case OtherEnded => child > 0 && child != pid && child != earlysvcpid
      ensures runners == old(runners) - {child}
    {
      w := 0;
      match a {
        case Failed =>
          child := -1;
        case NoChild =>
          child := 0;
        case StageEnded(v) =>
          child, w := pid, v;
        case RunnerEnded(v) =>
          // a runner that is gone already is some other child
          if earlysvcpid in runners {
            child, w := earlysvcpid, v;
          } else {
            child := Other();
          }
        case OtherEnded =>
          child := Other();
      }
      runners := runners - {child};
    }

    /** The shutdown of the third stage: TERM, five seconds, and KILL if it has not ended by then. */
    method Stop(reaped: seq<Answer>)
      requires pid > 0 && earlysvcpid >= 0 && pid != earlysvcpid && runners <= {earlysvcpid} - {0}
      modifies this`pid, this`runners, this`sigc, this`sent
      ensures runners <= old(runners) && sigc == 0
      ensures sent == old(sent) + Stopping(reaped, old(pid))
      ensures pid == if Heeds(reaped, 5) then 0 else old(pid)
    {
      ghost var heeds := Heeds(reaped, 5);
      sent := sent + [Kill(pid, SIGTERM)];
      var i, k := 0, 0;
      while i < 5
        invariant 0 <= i <= 5 && pid == old(pid) && runners <= old(runners) && k <= |reaped|
        invariant heeds == Heeds(reaped[k..], 5 - i)
        invariant sent == old(sent) + [Kill(pid, SIGTERM)]
        decreases |reaped| - k, 5 - i
      {
        var answer := NoChild;
        ghost var left := reaped[k..];
        if k < |reaped| {
          answer := reaped[k];
          k := k + 1;
          assert left[1..] == reaped[k..];
        }
        var child, w := WaitNoHang(answer);
        if child == pid {
          pid := 0;
          break;
        }
        if child != 0 {
          continue;      // after an error, too
        }
        i := i + 1;
      }
      if pid != 0 {
        sent := sent + [Kill(pid, SIGKILL)];
      }
      sigc := 0;
    }

    /** The program of the stage ended. */
    method Ended(w: Status)
      requires Running()
      modifies this`curstage, this`h, this`sent
      ensures sent == old(sent) + if old(curstage) == RUNNING && Repeats(w) then [Kill(-pid, SIGKILL)] else []
      ensures Over() && h == History(old(h.entered), old(h.ends) + [Exited(w)])
      ensures curstage + 1 in {1, 2} && earlysvcpid > 0 ==> runners == {earlysvcpid}
    {
      h := h.(ends := h.ends + [Exited(w)]);
      if ExitCode(w) != 0 {
        if curstage == 0 {
          if Crashed(w) || ExitCode(w) == 100 {
            curstage := curstage + 1;
            return;
          }
        }
        if curstage == 2 {
          if Crashed(w) || ExitCode(w) == 111 {
            sent := sent + [Kill(-pid, SIGKILL)];
            curstage := curstage - 1;
            return;
          }
        }
      }
    }

    /** The third stage is shut down. */
    method ShutDown(reaped: seq<Answer>)
      requires Running() && curstage == RUNNING
      modifies this
      ensures sent == old(sent) + Stopping(reaped, old(pid)) && sigc == 0 && sigi == old(sigi)
      ensures Over() && curstage == RUNNING && h == History(old(h.entered), old(h.ends) + [Shut])
    {
      Stop(reaped);
      h := h.(ends := h.ends + [Shut]);
    }

    /** The end of a turn that found no child ended. */
    method Signals(e: Wake) returns (over: bool)
      requires Running()
      modifies this
      ensures over <==> old(curstage) == RUNNING && e.stopit && (old(sigc) > 0 || (e.ctrlaltdel && old(sigi) > 0))
      ensures if over then Over() && curstage == RUNNING && h == History(old(h.entered), old(h.ends) + [Shut])
        else Running() && h == old(h) && sigc == 0 && sigi == 0
      ensures sigc == 0 && sigi == if over && !e.ctrlaltdel then old(sigi) else 0
      ensures sent == old(sent) + if over then Stopping(e.reaped, old(pid)) else []
    {
      hide Lawful, After, Heeds;
      over := false;
      if sigc == 0 && sigi == 0 {
        return;
      }
      if curstage != 2 {
        sigc, sigi := 0, 0;
        return;
      }
      if sigi > 0 && e.ctrlaltdel {
        sigi := 0;
        sigc := sigc + 1;
      }
      if sigc > 0 && e.stopit {
        ShutDown(e.reaped);
        return true;
      }
      sigc, sigi := 0, 0;
    }

    /** One turn of the inner loop. The result says whether the stage is over. */
    method Turn(e: Wake) returns (over: bool)
      requires Running()
      modifies this
      ensures if over then Over() else Running()
      ensures View() == Turned(old(View()), e)
      ensures over && curstage + 1 in {1, 2} && earlysvcpid > 0 ==> runners == {earlysvcpid}
      ensures over <==> e.child.StageEnded? || ShutsDown(e, old(curstage), old(sigc), old(sigi))
      ensures sent == old(sent) + if over then Sent(e, old(curstage), old(pid)) else []
    {
      assert curstage <= LAST;
      hide Lawful, After, Heeds, Skips, Repeats;
      sigc, sigi := sigc + e.conts, sigi + e.ints;
      var child, w := WaitNoHang(e.child);
      over := false;
      if child == pid {
        Ended(w);
        return true;
      }
      if child == earlysvcpid && curstage > 0 && curstage != 3 {
        earlysvcpid := 0;
        StartEarlySvcRunner();
        return;
      }
      if child != 0 {
        return;
      }
      over := Signals(e);
    }

    /** main's stage loop, for as long as the events last. */
    method Run(events: seq<Wake>) returns (finished: bool)
      requires h == History([], []) && curstage == 0 && earlysvcpid == 0 && runners == {} && sigc == 0 && sigi == 0
      modifies this
      ensures Valid() && View() == RunOf(events)
      ensures finished <==> |h.ends| == |h.entered| && h.entered[|h.entered| - 1] == LAST
      ensures OnCourse(h.entered)
    {
      finished := false;
      Enter();
      var i := 0;
      assert events[..0] == [];
      assert View() == START && RunOf([]) == START;
      hide RunOf, Turned, Entered, Lawful, OnCourse;
      while i < |events|
        invariant Running() && i <= |events| && View() == RunOf(events[..i])
      {
        RunOn(events, i);
        finished := Step(events[i]);
        i := i + 1;
        if finished {
          break;
        }
      }
      if finished {
        FinishedStays(events, i);
      } else {
        assert events[..i] == events;
      }
      StagesInOrder(h);
    }

    /** One wake-up, and the next stage if the stage is over. */
    method Step(e: Wake) returns (finished: bool)
      requires Running()
      modifies this
      ensures View() == Entered(Turned(old(View()), e))
      ensures if finished
        then Valid() && curstage == 4 && |h.ends| == |h.entered| && h.entered[|h.entered| - 1] == LAST
        else Running()
    {
      hide Turned, ShutsDown;
      finished := false;
      var over := Turn(e);
      if over {
        curstage := curstage + 1;
        if curstage == 4 {
          return true;
        }
        Enter();
      }
    }
  }
}
