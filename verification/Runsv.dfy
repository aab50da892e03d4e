/** runsv: its two service records and its main loop, proved to be the state machine of RunsvSpec.
    Calls into the system become arguments: the answers of RunsvSpec.Answers and Exit. */
module Runsv {
  import opened Bytes
  import opened Tai
  import opened Status
  import opened RunsvSpec
  import opened RunsvLaws

  /** struct svdir */
  class SvDir {
    var pid: Pid
    var firstrun: bool
    var oneshot: bool
    var state: State
    var term: bool            // the two bits of ctrl
    var pause: bool
    var want: Want
    var islog: bool
    var start: Taia
    var wstat: int
    var file: Text            // supervise/status
    ghost var children: set<Pid>
    ghost var signals: seq<Signal>
    ghost var overrun: bool

    function Record(): Service
      reads this
    {
      Service(pid, firstrun, oneshot, state, term, pause, want, islog, start, wstat)
    }

    ghost function View(): Unit
      reads this
    {
      Unit(Record(), file, children, signals, overrun)
    }

    /** The settings of main before its loop: noauto and oneshot files are looked up once. */
    constructor (islog: bool, noauto: bool, oneshot: bool, now: Taia)
      ensures View() == Shown(Unit(
                Service(0, !islog, oneshot, Down, false, false, if noauto then WantDown else WantUp, islog, now, 0),
                [], {}, [], false))
      ensures Sound(View()) && (!oneshot ==> Orderly(View()))
    {
      pid, firstrun, this.oneshot, state := 0, !islog, oneshot, Down;
      term, pause, want := false, false, if noauto then WantDown else WantUp;
      this.islog, start, wstat, file := islog, now, 0, [];
      children, signals, overrun := {}, [], false;
      new;
      UpdateStatus();
    }

    /** update_status; writing and renaming the file succeed. */
    method UpdateStatus()
      modifies this`file
      ensures View() == Shown(old(View()))
    {
      file := StatusBytes(Record());
    }

    /** kill(2) on the child or on its group. */
    method Kill(sig: Sig, group: bool)
      modifies this`signals
      ensures View() == Sent(old(View()), sig, group)
    {
      var killpid: int := pid;
      if group {
        killpid := -killpid;
      }
      signals := signals + [Signal(killpid, sig, pid != 0 && pid in children)];
    }

    method StopService(a: Answers)
      modifies this
      ensures View() == Stopped(old(View()), a)
    {
      hide Encode;
      if pid != 0 && !a.scripted {
        Kill(TERM, a.group);
        term := true;
        UpdateStatus();
      }
      if want == WantDown {
        Kill(CONT, a.group);
        return;
      }
      if want == WantExit {
        Kill(CONT, a.group);
      }
    }

    method StopOneshotService(a: Answers)
      modifies this
      ensures View() == OneshotStopped(old(View()), a)
    {
      hide Encode;
      if pid != 0 {
        Kill(TERM, a.group);
        term := true;
      }
      state := Down;
      UpdateStatus();
    }

    method StartService(a: Answers)
      modifies this
      ensures View() == Started(old(View()), a)
    {
      hide Encode, Stopped;
      if pid != 0 {
        StopService(a);         // should never happen
        overrun := true;
      }
      Launch(a);
    }

    /** startservice from fork on. */
    method Launch(a: Answers)
      modifies this
      ensures View() == Launched(old(View()), a)
    {
      hide Encode;
      if state != Finish {
        start := a.now;
        state := Run;
      }
      pid := a.pid;
      children := children + {a.pid};
      term, pause := false, false;
      UpdateStatus();
    }

    /** What most commands begin with. */
    method Wish(w: Want)
      modifies this`want, this`file
      ensures View() == Shown(old(View()).(s := old(View()).s.(want := w)))
    {
      hide Encode;
      want := w;
      UpdateStatus();
    }

    /** The plain signal letters of ctrl. */
    method Signal1(c: byte, sig: Sig, a: Answers)
      requires SignalOf(c) == [sig]
      modifies this`signals
      ensures View() == Signalled(old(View()), c, a)
    {
      if state == Run && !a.scripted {
        Kill(sig, a.group);
      }
    }

    method Wind(a: Answers)
      modifies this
      ensures View() == Wound(old(View()), a)
    {
      hide Encode, Stopped, OneshotStopped;
      if state == Run && !oneshot {
        StopService(a);
      } else if (state == Run && oneshot) || state == Done {
        StopOneshotService(a);
      }
    }

    method Ctrl(c: byte, a: Answers)
      modifies this
      ensures View() == Commanded(old(View()), c, a)
      ensures want == Wished(old(View()), c)
      ensures Tidy(old(View())) ==>
                signals == old(signals) + Addressed(old(View()), a, Told(old(View()), c, a)) &&
                (Starts(old(View()), c) ==> pid == a.pid && state == Run)
    {
      LetterTold(View(), c, a);
      hide Tidy, Wished, Told, Addressed, Starts;
      if c == CMD_D || c == CMD_U || c == CMD_X || c == CMD_O {
        WishLetter(c, a);
      } else if c == CMD_T {
        hide Encode, Stopped;
        if state == Run {
          StopService(a);
        }
      } else if c == CMD_K || c == CMD_P || c == CMD_C {
        StateLetter(c, a);
      } else {
        hide Encode, Signalled;
        PlainSignal(c, a);
      }
    }

    /** The letters of ctrl that say what is wanted. */
    method WishLetter(c: byte, a: Answers)
      requires c in {CMD_D, CMD_U, CMD_X, CMD_O}
      modifies this
      ensures View() == Commanded(old(View()), c, a)
    {
      hide Encode, Stopped, Started, Wound, Signalled;
      if c == CMD_D {
        Wish(WantDown);
        Wind(a);
      } else if c == CMD_U {
        Wish(WantUp);
        if state == Down {
          firstrun := true;
          StartService(a);
        } else if state == Done {
          StartService(a);
        }
      } else if c == CMD_X {
        if islog {
          return;
        }
        Wish(WantExit);
        Wind(a);
      } else {
        Wish(WantDown);
        if state == Down {
          StartService(a);
        }
      }
    }

    /** The letters of ctrl that signal and also change the record. */
    method StateLetter(c: byte, a: Answers)
      requires c in {CMD_K, CMD_P, CMD_C}
      modifies this
      ensures View() == Commanded(old(View()), c, a)
    {
      hide Encode, Signalled;
      if c == CMD_K {
        Signal1(c, KILL, a);
        state := Down;
      } else if c == CMD_P {
        Signal1(c, STOP, a);
        pause := true;
        UpdateStatus();
      } else {
        Signal1(c, CONT, a);
        if pause {
          pause := false;
        }
        UpdateStatus();
      }
    }

    /** The letters of ctrl that only send a signal. */
    method PlainSignal(c: byte, a: Answers)
      requires c != CMD_K && c != CMD_P && c != CMD_C
      modifies this`signals
      ensures View() == Signalled(old(View()), c, a)
    {
      hide Encode, Signalled;
      if c == 97 {
        Signal1(c, ALRM, a);
      } else if c == 104 {
        Signal1(c, HUP, a);
      } else if c == 105 {
        Signal1(c, INT, a);
      } else if c == 113 {
        Signal1(c, QUIT, a);
      } else if c == 49 {
        Signal1(c, USR1, a);
      } else if c == 50 {
        Signal1(c, USR2, a);
      } else {
        OtherLetter(View(), c, a);
      }
    }

    /** The reaper's branch for svd[0], up to its `continue` statements. */
    method Reap(e: Exit)
      requires e.child == pid != 0
      modifies this
      ensures View() == Reaped(old(View()), e)
    {
      hide Encode, Buried;
      Burial(e);
      if state != Finish {
        if e.finish {
          state := Finish;
          UpdateStatus();
          return;
        }
      }
      if state != Done {
        if e.oneshot {
          state := Done;
          want := WantDone;
          UpdateStatus();
          return;
        } else {
          state := Down;
        }
      }
      start := e.now;
      UpdateStatus();
    }

    /** The first part of the reaper's branch: the child is gone, ./finish may veto. */
    method Burial(e: Exit)
      modifies this
      ensures View() == Buried(old(View()), e)
    {
      hide Encode;
      children := children - {e.child};
      pid := 0;
      firstrun := false;
      wstat := e.wstat;
      term := false;
      if ExitCode(e.wstat) == 111 && state == Finish {
        want := WantDown;
        UpdateStatus();
      }
    }

    /** The reaper's branch for svd[1]. */
    method ReapLog(e: Exit)
      requires e.child == pid != 0
      modifies this
      ensures View() == LogReaped(old(View()), e)
    {
      hide Encode;
      children := children - {e.child};
      pid := 0;
      state := Down;
      term := false;
      start := e.now;
      UpdateStatus();
    }
  }

  class Supervisor {
    const main: SvDir
    const log: SvDir
    const haslog: bool
    var gone: bool

    ghost predicate Valid()
      reads this, main, log
    {
      main != log && SoundSup(View())
    }

    ghost function View(): Sup
      reads this, main, log
    {
      Sup(main.View(), log.View(), haslog, gone)
    }

    constructor (main: SvDir, log: SvDir, haslog: bool)
      requires main != log && Sound(main.View()) && Sound(log.View()) && main.View().children !! log.View().children
      ensures Valid() && !gone && (Orderly(main.View()) && Orderly(log.View()) ==> OrderlySup(View()))
      ensures this.main == main && this.log == log && this.haslog == haslog
    {
      this.main, this.log, this.haslog, gone := main, log, haslog, false;
    }

    /** One turn of the loop over wait_nohang. A forgotten child is waited for, no more. */
    method ReapChild(e: Exit)
      requires Valid() && (e.child in main.children || (haslog && e.child in log.children))
      modifies main, log
      ensures Valid() && View() == ReapedOne(old(View()), e)
    {
      hide Encode;
      if e.child in main.children {
        ReapedSound(main.View(), e);
      } else {
        LogReapedSound(log.View(), e);
      }
      if e.child == main.pid {
        main.Reap(e);
      } else if haslog && e.child == log.pid {
        log.ReapLog(e);
      } else if e.child in main.children {
        main.children := main.children - {e.child};
      } else {
        log.children := log.children - {e.child};
      }
    }

    method ReapChildren(exits: seq<Exit>)
      requires Valid() && ExitsPossible(View(), exits)
      modifies main, log
      ensures Valid() && View() == ReapedAll(old(View()), exits)
    {
      hide Encode, Reaped, LogReaped, Sound, Orderly, ReapedOne;
      ghost var v := View();
      var k := 0;
      assert exits[..0] == [];
      while k < |exits|
        invariant 0 <= k <= |exits| && Valid() && View() == ReapedAll(v, exits[..k])
      {
        assert exits[..k + 1][..k] == exits[..k];
        PossibleUpTo(v, exits, k + 1);
        ReapChild(exits[k]);
        k := k + 1;
      }
      assert exits[..k] == exits;
    }

    /** The top of the loop. */
    method KeepUp(i: Pass)
      requires main != log
      modifies main, log
      ensures View() == Kept(old(View()), i)
      // what is wanted up, and ./finish, has a child now
      ensures i.startlog.pid != 0 && i.startmain.pid != 0 ==>
                (main.want == WantUp || old(main.state) == Finish ==> main.pid != 0) &&
                (haslog && log.want == WantUp ==> log.pid != 0)
    {
      if i.startlog.pid != 0 && i.startmain.pid != 0 {
        KeptStarts(View(), i);
      }
      hide Encode, Started;
      if haslog {
        if log.pid == 0 && log.want == WantUp {
          log.StartService(i.startlog);
        }
      }
      if main.pid == 0 {
        if main.want == WantUp || main.state == Finish {
          main.StartService(i.startmain);
        }
      }
    }

    /** The end of the loop. */
    method Leave()
      requires main != log
      modifies this, log
      ensures View() == Left(old(View()))
    {
      hide Encode;
      if main.want == WantExit && (main.state == Down || main.state == Done) {
        if log.pid == 0 {
          gone := true;
          return;
        }
        if log.want != WantExit {
          log.Wish(WantExit);
        }
      }
    }

    /** A letter from a control pipe, if there is one. */
    method CtrlMain(c: Command)
      requires main != log
      modifies main
      ensures View() == MainCommanded(old(View()), c)
    {
      hide Encode, Commanded;
      if c.Letter? {
        main.Ctrl(c.c, c.a);
      }
    }

    method CtrlLog(c: Command)
      requires main != log
      modifies log
      ensures View() == LogCommanded(old(View()), c)
    {
      hide Encode, Commanded;
      if haslog {
        if c.Letter? {
          log.Ctrl(c.c, c.a);
        }
      }
    }

    /** One pass of the main loop, the waiting left out. */
    method LoopPass(i: Pass)
      requires Valid() && Possible(View(), i)
      modifies this, main, log
      ensures Valid() && View() == Passed(old(View()), i)
      ensures OrderlySup(old(View())) && Plain(i) ==> OrderlySup(View())
      ensures TidySup(old(View())) && NoOneshot(i) && Gentle(old(View()), i) ==> TidySup(View())
      ensures old(main.want) == WantUp && LeavesUp(i) && i.exits == [] ==> main.want == WantUp
      ensures old(main.want) != WantExit && Untold(i) ==> main.want != WantExit && !gone
      ensures AtRest(old(main.View())) && LeavesDown(i) ==> AtRest(main.View())
    {
      ghost var v := View();
      PassedSound(v, i);
      if TidySup(v) && NoOneshot(i) {
        PassTidyIff(v, i);
      }
      KeptSound(v, i);
      PassTold(v, i);
      hide LeavesUp, Untold, AtRest, LeavesDown, Passed;
      hide SoundSup, OrderlySup, Kept, ReapedAll, MainCommanded, LogCommanded, Left, ExitsPossible, FreshFor;
      hide Fresh, LogKept, Plain, TidySup, NoOneshot, Gentle;
      KeepUp(i);
      ReapChildren(i.exits);
      CtrlMain(i.cmd);
      CtrlLog(i.logcmd);
      CtrlMain(i.term);
      Leave();
    }
  }
}
