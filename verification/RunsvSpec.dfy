/** runsv as a state machine: what each command, each child exit and each pass of the main loop
    does to a service, and what holds over all runs. Runsv.dfy has the code. */
module RunsvSpec {
  import opened Bytes
  import opened Tai
  import opened Status

  datatype Sig = TERM | KILL | CONT | STOP | ALRM | HUP | INT | QUIT | USR1 | USR2

  /** A signal sent: to a process, or (negative) to its group; live says whether that process was
      an unreaped child of the service. */
  datatype Signal = Signal(target: int, sig: Sig, live: bool)

  /** A service, its supervise/status file, its unreaped children, the signals sent to it, and
      whether a child was started while another was still there. */
  datatype Unit = Unit(s: Service, file: Text, children: set<Pid>, signals: seq<Signal>, overrun: bool)

  /** The outside world's answers to one command or start: did a control script take the command
      over (custom), is the service without ./no-setsid, the pid fork gave, the time. */
  datatype Answers = Answers(scripted: bool, group: bool, pid: Pid, now: Taia)

  /** update_status */
  ghost function Shown(u: Unit): Unit {
    u.(file := Encode(u.s))
  }

  ghost function Sent(u: Unit, sig: Sig, group: bool): Unit {
    var pid: int := u.s.pid;
    u.(signals := u.signals + [Signal(if group then -pid else pid, sig, u.s.pid != 0 && u.s.pid in u.children)])
  }

  /** stopservice */
  ghost function Stopped(u: Unit, a: Answers): Unit {
    var v := if u.s.pid != 0 && !a.scripted
             then Shown(Sent(u, TERM, a.group).(s := u.s.(term := true)))
             else u;
    if u.s.want == WantDown || u.s.want == WantExit then Sent(v, CONT, a.group) else v
  }

  /** stoponeshotservice */
  ghost function OneshotStopped(u: Unit, a: Answers): Unit {
    var v := if u.s.pid != 0 then Sent(u, TERM, a.group).(s := u.s.(term := true)) else u;
    Shown(v.(s := v.s.(state := Down)))
  }

  /** startservice from fork on. */
  ghost function Launched(u: Unit, a: Answers): Unit {
    var t := if u.s.state == Finish then u.s else u.s.(start := a.now, state := Run);
    Shown(u.(s := t.(pid := a.pid, term := false, pause := false), children := u.children + {a.pid}))
  }

  /** startservice. With a child still there it is stopped and then forgotten. */
  ghost function Started(u: Unit, a: Answers): Unit {
    Launched(if u.s.pid != 0 then Stopped(u, a).(overrun := true) else u, a)
  }

  const CMD_D: byte := 100
  const CMD_U: byte := 117
  const CMD_X: byte := 120
  const CMD_T: byte := 116
  const CMD_K: byte := 107
  const CMD_P: byte := 112
  const CMD_C: byte := 99
  const CMD_O: byte := 111

  /** The signal that a plain command letter stands for. */
  function SignalOf(c: byte): (r: seq<Sig>)
    ensures |r| <= 1
  {
    if c == 97 then [ALRM] else if c == 104 then [HUP] else if c == 105 then [INT]
    else if c == 113 then [QUIT] else if c == 49 then [USR1] else if c == 50 then [USR2]
    else if c == CMD_K then [KILL] else if c == CMD_P then [STOP] else if c == CMD_C then [CONT] else []
  }

  ghost function Signalled(u: Unit, c: byte, a: Answers): Unit {
    if u.s.state == Run && !a.scripted && SignalOf(c) != [] then Sent(u, SignalOf(c)[0], a.group) else u
  }

  lemma OtherLetter(u: Unit, c: byte, a: Answers)
    requires SignalOf(c) == []
    ensures Signalled(u, c, a) == u
  {
  }

  /** The end of 'd' and 'x'. */
  ghost function Wound(u: Unit, a: Answers): Unit {
    if u.s.state == Run && !u.s.oneshot then Stopped(u, a)
    else if (u.s.state == Run && u.s.oneshot) || u.s.state == Done then OneshotStopped(u, a)
    else u
  }

  /** ctrl */
  ghost function Commanded(u: Unit, c: byte, a: Answers): Unit {
    if c == CMD_D then Wound(Shown(u.(s := u.s.(want := WantDown))), a)
    else if c == CMD_U then
      var v := Shown(u.(s := u.s.(want := WantUp)));
      if v.s.state == Down then Started(v.(s := v.s.(firstrun := true)), a)
      else if v.s.state == Done then Started(v, a)
      else v
    else if c == CMD_X then
      if u.s.islog then u else Wound(Shown(u.(s := u.s.(want := WantExit))), a)
    else if c == CMD_T then
      if u.s.state == Run then Stopped(u, a) else u
    else if c == CMD_K then
      var v := Signalled(u, c, a);
      v.(s := v.s.(state := Down))
    else if c == CMD_P then
      var v := Signalled(u, c, a);
      Shown(v.(s := v.s.(pause := true)))
    else if c == CMD_C then
      var v := Signalled(u, c, a);
      Shown(v.(s := v.s.(pause := false)))
    else if c == CMD_O then
      var v := Shown(u.(s := u.s.(want := WantDown)));
      if v.s.state == Down then Started(v, a) else v
    else Signalled(u, c, a)
  }

  /** An exit that wait_nohang reports, and what the reaper finds in the service directory. */
  datatype Exit = Exit(child: Pid, wstat: nat, finish: bool, oneshot: bool, now: Taia)

  function ExitCode(wstat: nat): nat {
    wstat / 256
  }

  /** The first part of the reaper: the child is gone, and ./finish may veto a restart. */
  ghost function Buried(u: Unit, e: Exit): Unit {
    var v := u.(children := u.children - {e.child},
                s := u.s.(pid := 0, firstrun := false, wstat := e.wstat, term := false));
    if ExitCode(e.wstat) == 111 && u.s.state == Finish then Shown(v.(s := v.s.(want := WantDown))) else v
  }

  /** The reaper, for a child of the main service. */
  ghost function Reaped(u: Unit, e: Exit): Unit {
    if e.child != u.s.pid then u.(children := u.children - {e.child})
    else
      var v := Buried(u, e);
      if v.s.state != Finish && e.finish then Shown(v.(s := v.s.(state := Finish)))
      else if v.s.state != Done && e.oneshot then Shown(v.(s := v.s.(state := Done, want := WantDone)))
      else Shown(v.(s := v.s.(state := if v.s.state == Done then Done else Down, start := e.now)))
  }

  /** The reaper, for the log service. */
  ghost function LogReaped(u: Unit, e: Exit): Unit {
    var v := u.(children := u.children - {e.child});
    if e.child != u.s.pid then v
    else Shown(v.(s := u.s.(pid := 0, state := Down, term := false, start := e.now)))
  }

  // ----- the process -----

  datatype Sup = Sup(main: Unit, log: Unit, haslog: bool, gone: bool)

  datatype Command = Silence | Letter(c: byte, a: Answers)

  /** What happens from outside during one pass of the main loop. */
  datatype Pass = Pass(
    startlog: Answers, startmain: Answers, exits: seq<Exit>, cmd: Command, logcmd: Command, term: Command)

  /** The top of the loop: what is to be up is started. */
  ghost function Kept(p: Sup, i: Pass): Sup {
    var q := if p.haslog && p.log.s.pid == 0 && p.log.s.want == WantUp
             then p.(log := Started(p.log, i.startlog)) else p;
    if q.main.s.pid == 0 && (q.main.s.want == WantUp || q.main.s.state == Finish)
    then q.(main := Started(q.main, i.startmain)) else q
  }

  ghost function ReapedOne(p: Sup, e: Exit): Sup {
    if e.child in p.main.children then p.(main := Reaped(p.main, e))
    else if p.haslog then p.(log := LogReaped(p.log, e))
    else p
  }

  ghost function ReapedAll(p: Sup, ee: seq<Exit>): Sup
    decreases |ee|
  {
    if ee == [] then p else ReapedOne(ReapedAll(p, ee[..|ee| - 1]), ee[|ee| - 1])
  }

  ghost function MainCommanded(p: Sup, c: Command): Sup {
    if c.Silence? then p else p.(main := Commanded(p.main, c.c, c.a))
  }

  ghost function LogCommanded(p: Sup, c: Command): Sup {
    if c.Silence? || !p.haslog then p else p.(log := Commanded(p.log, c.c, c.a))
  }

  /** The end of the loop: leave, or let the log service end. */
  ghost function Left(p: Sup): Sup {
    if p.main.s.want == WantExit && (p.main.s.state == Down || p.main.s.state == Done) then
      if p.log.s.pid == 0 then p.(gone := true)
      else if p.log.s.want != WantExit then p.(log := Shown(p.log.(s := p.log.s.(want := WantExit))))
      else p
    else p
  }

  ghost function AfterExits(p: Sup, i: Pass): Sup {
    ReapedAll(Kept(p, i), i.exits)
  }

  ghost function Passed(p: Sup, i: Pass): Sup {
    Left(MainCommanded(LogCommanded(MainCommanded(AfterExits(p, i), i.cmd), i.logcmd), i.term))
  }

  ghost function PassedAll(p: Sup, ii: seq<Pass>): Sup
    decreases |ii|
  {
    if ii == [] then p else Passed(PassedAll(p, ii[..|ii| - 1]), ii[|ii| - 1])
  }

  // ----- what holds in every run -----

  /** The invariant of all runs: the state tells of a child, every signal went to one. */
  ghost predicate Sound(u: Unit) {
    && (u.s.state == Run ==> u.s.pid != 0)
    && (u.s.state == Done ==> u.s.pid == 0)
    && (u.s.pid != 0 ==> u.s.pid in u.children) && 0 !in u.children
    && (forall k :: 0 <= k < |u.signals| ==> u.signals[k].live && u.signals[k].target != 0)
  }

  /** One child at most, never started twice, and down means no child. */
  ghost predicate Tidy(u: Unit) {
    && Sound(u)
    && (u.s.state == Down ==> u.s.pid == 0)
    && u.s.state != Done && !u.s.oneshot
    && u.children == (if u.s.pid != 0 then {u.s.pid} else {})
    && !u.overrun
  }

  /** The invariant of runs without 'k' and without oneshot services: tidy, and the status file
      shows the state. */
  ghost predicate Orderly(u: Unit) {
    Tidy(u) && u.file == Encode(u.s)
  }

  /** fork gives a pid that no unreaped child has. */
  ghost predicate Forks(u: Unit, a: Answers) {
    a.pid != 0 && a.pid !in u.children
  }

  lemma StoppedSound(u: Unit, a: Answers)
    requires Sound(u) && u.s.pid != 0
    ensures Sound(Stopped(u, a)) && (Tidy(u) ==> Tidy(Stopped(u, a)))
    ensures Orderly(u) ==> Orderly(Stopped(u, a))
    ensures Stopped(u, a).children == u.children
    ensures Stopped(u, a).s == u.s.(term := u.s.term || !a.scripted)
  {
    hide Encode;
  }

  lemma StartedSound(u: Unit, a: Answers)
    requires Sound(u) && Forks(u, a) && u.s.state != Run
    ensures Sound(Started(u, a)) && Started(u, a).children == u.children + {a.pid}
    ensures Started(u, a).overrun <==> u.overrun || u.s.pid != 0
    ensures Tidy(u) && u.s.pid == 0 ==> Orderly(Started(u, a)) && Tidy(Started(u, a))
  {
    hide Encode;
    if u.s.pid != 0 {
      StoppedSound(u, a);
    }
  }

  lemma WoundSound(u: Unit, a: Answers)
    requires Sound(u)
    ensures Sound(Wound(u, a)) && (Orderly(u) ==> Orderly(Wound(u, a))) && (Tidy(u) ==> Tidy(Wound(u, a)))
    ensures Wound(u, a).children == u.children
  {
    hide Encode, Stopped;
    if u.s.pid != 0 {
      StoppedSound(u, a);
    }
  }

  lemma SignalledSound(u: Unit, c: byte, a: Answers)
    requires Sound(u)
    ensures Sound(Signalled(u, c, a)) && (Orderly(u) ==> Orderly(Signalled(u, c, a)))
    ensures Tidy(u) ==> Tidy(Signalled(u, c, a))
    ensures Signalled(u, c, a).s == u.s && Signalled(u, c, a).children == u.children
    ensures Signalled(u, c, a).file == u.file
  {
    hide Encode;
  }

  /** Setting want, and the pause bit, is harmless; so is showing it. */
  lemma WishSound(u: Unit, w: Want)
    requires Sound(u)
    ensures var v := Shown(u.(s := u.s.(want := w)));
            Sound(v) && (Orderly(u) ==> Orderly(v)) && (Tidy(u) ==> Tidy(v.(s := v.s.(firstrun := true)))) &&
            Sound(v.(s := v.s.(firstrun := true)))
  {
    hide Encode;
  }

  lemma PauseSound(u: Unit, c: byte, a: Answers, on: bool)
    requires Sound(u)
    ensures var v := Signalled(u, c, a);
            var w := Shown(v.(s := v.s.(pause := on)));
            Sound(w) && (Orderly(u) ==> Orderly(w)) && (Tidy(u) ==> Tidy(w)) && w.children == u.children
  {
    hide Encode, Signalled;
    SignalledSound(u, c, a);
  }

  /** What every command keeps, and what it may add. */
  ghost predicate Keeps(u: Unit, c: byte, a: Answers) {
    && Sound(Commanded(u, c, a))
    && (Orderly(u) && c != CMD_K ==> Orderly(Commanded(u, c, a)))
    && (Tidy(u) ==> (Tidy(Commanded(u, c, a)) <==> (c == CMD_K ==> u.s.pid == 0)))
    && u.children <= Commanded(u, c, a).children <= u.children + {a.pid}
  }

  /** Every command keeps the invariants, but for 'k': it leaves the status file as it was, and
      unties state and child exactly if there is a child. */
  lemma CommandedSound(u: Unit, c: byte, a: Answers)
    requires Sound(u) && Forks(u, a)
    ensures Sound(Commanded(u, c, a))
    ensures Orderly(u) && c != CMD_K ==> Orderly(Commanded(u, c, a))
    ensures Tidy(u) ==> (Tidy(Commanded(u, c, a)) <==> (c == CMD_K ==> u.s.pid == 0))
    ensures u.children <= Commanded(u, c, a).children <= u.children + {a.pid}
  {
    assert Keeps(u, c, a) by {
      hide Keeps, Commanded, Sound, Orderly, Tidy;
      if c == CMD_D || c == CMD_X {
        WindLetterKeeps(u, c, a);
      } else if c == CMD_U || c == CMD_O {
        StartLetterKeeps(u, c, a);
      } else if c == CMD_T {
        TermKeeps(u, a);
      } else {
        SignalLetterKeeps(u, c, a);
      }
    }
    hide Commanded, Sound, Orderly, Tidy;
  }

  lemma WindLetterKeeps(u: Unit, c: byte, a: Answers)
    requires Sound(u) && (c == CMD_D || c == CMD_X)
    ensures Keeps(u, c, a)
  {
    hide Encode, Wound, Sound, Orderly, Tidy;
    var w := if c == CMD_D then WantDown else WantExit;
    WishSound(u, w);
    WishTidy(u, w);
    WoundSound(Shown(u.(s := u.s.(want := w))), a);
  }

  lemma StartLetterKeeps(u: Unit, c: byte, a: Answers)
    requires Sound(u) && Forks(u, a) && (c == CMD_U || c == CMD_O)
    ensures Keeps(u, c, a)
  {
    StartOnWish(u, c, a);
    hide Commanded, Sound, Orderly, Tidy;
  }

  lemma TermKeeps(u: Unit, a: Answers)
    requires Sound(u)
    ensures Keeps(u, CMD_T, a)
  {
    if u.s.state == Run {
      RunningHasChild(u);
      StoppedSound(u, a);
    }
    hide Encode, Stopped, Sound, Orderly, Tidy;
  }

  lemma SignalLetterKeeps(u: Unit, c: byte, a: Answers)
    requires Sound(u) && c !in {CMD_D, CMD_X, CMD_U, CMD_O, CMD_T}
    ensures Keeps(u, c, a)
  {
    hide Encode, Signalled, Orderly;
    SignalledSound(u, c, a);
    if c != CMD_K {
      PauseSound(u, c, a, c == CMD_P);
    }
  }

  lemma OrderlyIsTidy(u: Unit)
    requires Orderly(u)
    ensures Tidy(u) && u.s.state != Done && (u.s.state == Down ==> u.s.pid == 0)
  {
  }

  lemma RunningHasChild(u: Unit)
    requires Sound(u) && u.s.state == Run
    ensures u.s.pid != 0
  {
  }

  lemma StartOnWish(u: Unit, c: byte, a: Answers)
    requires Sound(u) && Forks(u, a) && (c == CMD_U || c == CMD_O)
    ensures Sound(Commanded(u, c, a)) && (Orderly(u) ==> Orderly(Commanded(u, c, a)))
    ensures Tidy(u) ==> Tidy(Commanded(u, c, a))
    ensures u.children <= Commanded(u, c, a).children <= u.children + {a.pid}
  {
    if Orderly(u) { OrderlyIsTidy(u); }
    assert Tidy(u) && (u.s.state == Down || u.s.state == Done) ==> u.s.pid == 0;
    hide Encode, Started, Sound, Orderly, Tidy, Wound;
    var w := if c == CMD_U then WantUp else WantDown;
    WishSound(u, w);
    WishTidy(u, w);
    var v := Shown(u.(s := u.s.(want := w)));
    if u.s.state == Down || u.s.state == Done {
      StartedSound(v, a);
      StartedSound(v.(s := v.s.(firstrun := true)), a);
    }
  }

  lemma WishTidy(u: Unit, w: Want)
    requires Sound(u)
    ensures Tidy(u) ==> Tidy(Shown(u.(s := u.s.(want := w))))
  {
    hide Encode;
  }

  /** An exit keeps the invariants; the order is kept while ./oneshot does not appear. */
  lemma ReapedSound(u: Unit, e: Exit)
    requires Sound(u) && e.child in u.children
    ensures Sound(Reaped(u, e)) && Reaped(u, e).children == u.children - {e.child}
    ensures Orderly(u) && !e.oneshot ==> Orderly(Reaped(u, e))
    ensures Tidy(u) && !e.oneshot ==> Tidy(Reaped(u, e))
  {
    hide Encode;
  }

  lemma LogReapedSound(u: Unit, e: Exit)
    requires Sound(u) && e.child in u.children
    ensures Sound(LogReaped(u, e)) && LogReaped(u, e).children == u.children - {e.child}
    ensures (Orderly(u) ==> Orderly(LogReaped(u, e))) && (Tidy(u) ==> Tidy(LogReaped(u, e)))
  {
    hide Encode;
  }

  // ----- passes and runs -----

  ghost predicate SoundSup(p: Sup) {
    Sound(p.main) && Sound(p.log) && p.main.children !! p.log.children
  }

  ghost predicate OrderlySup(p: Sup) {
    SoundSup(p) && Orderly(p.main) && Orderly(p.log)
  }

  ghost predicate TidySup(p: Sup) {
    SoundSup(p) && Tidy(p.main) && Tidy(p.log)
  }

  ghost predicate Fresh(p: Sup, a: Answers) {
    Forks(p.main, a) && Forks(p.log, a)
  }

  ghost predicate FreshFor(p: Sup, c: Command) {
    c.Letter? ==> Fresh(p, c.a)
  }

  ghost function LogKept(p: Sup, i: Pass): Sup {
    if p.haslog && p.log.s.pid == 0 && p.log.s.want == WantUp then p.(log := Started(p.log, i.startlog)) else p
  }

  /** Every reported exit is that of a child. */
  ghost predicate ExitsPossible(p: Sup, ee: seq<Exit>)
    decreases |ee|
  {
    ee == [] ||
    (ExitsPossible(p, ee[..|ee| - 1]) &&
     var q := ReapedAll(p, ee[..|ee| - 1]);
     ee[|ee| - 1].child in q.main.children || (p.haslog && ee[|ee| - 1].child in q.log.children))
  }

  lemma {:induction false} PossibleUpTo(p: Sup, ee: seq<Exit>, k: nat)
    requires ExitsPossible(p, ee) && k <= |ee|
    ensures ExitsPossible(p, ee[..k])
    decreases |ee|
  {
    if k < |ee| {
      PossibleUpTo(p, ee[..|ee| - 1], k);
      assert ee[..|ee| - 1][..k] == ee[..k];
    } else {
      assert ee[..k] == ee;
    }
  }

  /** What the kernel guarantees about the answers of one pass. */
  ghost predicate Possible(p: Sup, i: Pass) {
    && !p.gone && (i.term.Letter? ==> i.term.c == CMD_X)
    && Fresh(p, i.startlog) && Fresh(LogKept(p, i), i.startmain)
    && ExitsPossible(Kept(p, i), i.exits)
    && var q := AfterExits(p, i);
    && FreshFor(q, i.cmd) && FreshFor(MainCommanded(q, i.cmd), i.logcmd)
    && FreshFor(LogCommanded(MainCommanded(q, i.cmd), i.logcmd), i.term)
  }

  ghost predicate RunPossible(p: Sup, ii: seq<Pass>)
    decreases |ii|
  {
    ii == [] || (RunPossible(p, ii[..|ii| - 1]) && Possible(PassedAll(p, ii[..|ii| - 1]), ii[|ii| - 1]))
  }

  predicate Kills(c: Command) {
    c.Letter? && c.c == CMD_K
  }

  predicate NoOneshot(i: Pass) {
    forall e :: e in i.exits ==> !e.oneshot
  }

  /** Without 'k' and without ./oneshot. */
  predicate Plain(i: Pass) {
    !Kills(i.cmd) && !Kills(i.logcmd) && !Kills(i.term) && NoOneshot(i)
  }

  ghost function AfterCmd(p: Sup, i: Pass): Sup {
    MainCommanded(AfterExits(p, i), i.cmd)
  }

  ghost function AfterLogCmd(p: Sup, i: Pass): Sup {
    LogCommanded(AfterCmd(p, i), i.logcmd)
  }

  /** Each 'k' of the pass finds no child to kill. */
  ghost predicate Gentle(p: Sup, i: Pass) {
    && (Kills(i.cmd) ==> AfterExits(p, i).main.s.pid == 0)
    && (Kills(i.logcmd) && p.haslog ==> AfterCmd(p, i).log.s.pid == 0)
  }

  /** State and child agree after every command of the pass. */
  ghost predicate TidyThroughout(p: Sup, i: Pass) {
    TidySup(AfterExits(p, i)) && TidySup(AfterCmd(p, i)) && TidySup(AfterLogCmd(p, i)) && TidySup(Passed(p, i))
  }

  ghost predicate GentleRun(p: Sup, ii: seq<Pass>)
    decreases |ii|
  {
    ii == [] || (GentleRun(p, ii[..|ii| - 1]) && Gentle(PassedAll(p, ii[..|ii| - 1]), ii[|ii| - 1]))
  }

  ghost predicate TidyRun(p: Sup, ii: seq<Pass>)
    decreases |ii|
  {
    if ii == [] then TidySup(p)
    else TidyRun(p, ii[..|ii| - 1]) && TidyThroughout(PassedAll(p, ii[..|ii| - 1]), ii[|ii| - 1])
  }

  lemma KeptSound(p: Sup, i: Pass)
    requires SoundSup(p) && Fresh(p, i.startlog) && Fresh(LogKept(p, i), i.startmain)
    ensures SoundSup(Kept(p, i)) && (OrderlySup(p) ==> OrderlySup(Kept(p, i)))
    ensures TidySup(p) ==> TidySup(Kept(p, i))
  {
    hide Started, Encode;
    if p.log.s.pid == 0 {
      StartedSound(p.log, i.startlog);
    }
    if p.main.s.pid == 0 {
      StartedSound(p.main, i.startmain);
    }
  }

  lemma {:induction false} ReapedAllSound(p: Sup, ee: seq<Exit>)
    requires SoundSup(p) && ExitsPossible(p, ee)
    ensures SoundSup(ReapedAll(p, ee))
    ensures OrderlySup(p) && (forall e :: e in ee ==> !e.oneshot) ==> OrderlySup(ReapedAll(p, ee))
    ensures TidySup(p) && (forall e :: e in ee ==> !e.oneshot) ==> TidySup(ReapedAll(p, ee))
    ensures ReapedAll(p, ee).haslog == p.haslog && ReapedAll(p, ee).gone == p.gone
    decreases |ee|
  {
    hide Reaped, LogReaped, Sound, Orderly, Tidy, Encode;
    if ee != [] {
      var pre, e := ee[..|ee| - 1], ee[|ee| - 1];
      ReapedAllSound(p, pre);
      var q := ReapedAll(p, pre);
      if e.child in q.main.children {
        ReapedSound(q.main, e);
      } else {
        LogReapedSound(q.log, e);
      }
      assert e in ee && forall x :: x in pre ==> x in ee;
    }
  }

  lemma MainCommandedSound(p: Sup, c: Command)
    requires SoundSup(p) && FreshFor(p, c)
    ensures SoundSup(MainCommanded(p, c))
    ensures OrderlySup(p) && !Kills(c) ==> OrderlySup(MainCommanded(p, c))
    ensures TidySup(p) ==> (TidySup(MainCommanded(p, c)) <==> (Kills(c) ==> p.main.s.pid == 0))
    ensures MainCommanded(p, c).haslog == p.haslog
  {
    hide Commanded, Sound, Orderly, Tidy;
    if c.Letter? {
      CommandedSound(p.main, c.c, c.a);
    }
  }

  lemma LogCommandedSound(p: Sup, c: Command)
    requires SoundSup(p) && FreshFor(p, c)
    ensures SoundSup(LogCommanded(p, c))
    ensures OrderlySup(p) && !Kills(c) ==> OrderlySup(LogCommanded(p, c))
    ensures TidySup(p) ==> (TidySup(LogCommanded(p, c)) <==> (Kills(c) && p.haslog ==> p.log.s.pid == 0))
    ensures LogCommanded(p, c).haslog == p.haslog
  {
    hide Commanded, Sound, Orderly, Tidy;
    if c.Letter? {
      CommandedSound(p.log, c.c, c.a);
    }
  }

  lemma LeftSound(p: Sup)
    requires SoundSup(p)
    ensures SoundSup(Left(p)) && (OrderlySup(p) ==> OrderlySup(Left(p))) && (TidySup(p) ==> TidySup(Left(p)))
  {
    hide Encode;
  }

  lemma PassedSound(p: Sup, i: Pass)
    requires SoundSup(p) && Possible(p, i)
    ensures SoundSup(Passed(p, i))
    ensures OrderlySup(p) && Plain(i) ==> OrderlySup(Passed(p, i))
  {
    hide SoundSup, OrderlySup, Kept, ReapedAll, MainCommanded, LogCommanded, Left, FreshFor, Fresh, LogKept;
    KeptSound(p, i);
    ReapedAllSound(Kept(p, i), i.exits);
    var q := AfterExits(p, i);
    MainCommandedSound(q, i.cmd);
    LogCommandedSound(MainCommanded(q, i.cmd), i.logcmd);
    MainCommandedSound(LogCommanded(MainCommanded(q, i.cmd), i.logcmd), i.term);
    LeftSound(MainCommanded(LogCommanded(MainCommanded(q, i.cmd), i.logcmd), i.term));
  }

  /** A pass leaves state and child in agreement throughout exactly if it is gentle. */
  lemma PassTidyIff(p: Sup, i: Pass)
    requires TidySup(p) && Possible(p, i) && NoOneshot(i)
    ensures TidyThroughout(p, i) <==> Gentle(p, i)
  {
    hide SoundSup, TidySup, Kept, ReapedAll, MainCommanded, LogCommanded, Left, FreshFor, Fresh, LogKept, ExitsPossible;
    TidyIsSound(p);
    KeptSound(p, i);
    TidyIsSound(Kept(p, i));
    ReapedAllSound(Kept(p, i), i.exits);
    var q, r, s := AfterExits(p, i), AfterCmd(p, i), AfterLogCmd(p, i);
    KeptHasLog(p, i);
    MainCommandedSound(q, i.cmd);
    LogCommandedSound(r, i.logcmd);
    MainCommandedSound(s, i.term);
    LeftSound(MainCommanded(s, i.term));
  }

  lemma TidyIsSound(p: Sup)
    requires TidySup(p)
    ensures SoundSup(p)
  {
  }

  lemma KeptHasLog(p: Sup, i: Pass)
    ensures Kept(p, i).haslog == p.haslog && Kept(p, i).gone == p.gone
  {
  }

  /** Over every run without ./oneshot: state and child agree all along exactly if every 'k' finds
      no child. */
  lemma {:induction false} RunTidyIff(p: Sup, ii: seq<Pass>)
    requires TidySup(p) && RunPossible(p, ii) && forall i :: i in ii ==> NoOneshot(i)
    ensures TidyRun(p, ii) <==> GentleRun(p, ii)
    ensures GentleRun(p, ii) ==> TidySup(PassedAll(p, ii))
    decreases |ii|
  {
    hide TidySup, Passed, Possible, NoOneshot, Gentle;
    if ii != [] {
      var pre, i := ii[..|ii| - 1], ii[|ii| - 1];
      assert i in ii && forall x :: x in pre ==> x in ii;
      RunTidyIff(p, pre);
      if GentleRun(p, pre) {
        PassTidyIff(PassedAll(p, pre), i);
      }
    }
  }

  /** In every run whatsoever a running service has a child, a done one has none, and signals go
      to unreaped children only. In every run without 'k' and ./oneshot there is at most one
      child, none is ever started beside another, and the status file shows the state. */
  lemma {:induction false} EveryRun(p: Sup, ii: seq<Pass>)
    requires SoundSup(p) && RunPossible(p, ii)
    ensures SoundSup(PassedAll(p, ii))
    ensures OrderlySup(p) && (forall i :: i in ii ==> Plain(i)) ==> OrderlySup(PassedAll(p, ii))
    decreases |ii|
  {
    hide SoundSup, OrderlySup, Passed, Possible, Plain;
    if ii != [] {
      var pre := ii[..|ii| - 1];
      EveryRun(p, pre);
      assert forall i :: i in pre ==> i in ii;
      PassedSound(PassedAll(p, pre), ii[|ii| - 1]);
    }
  }

  /** What 'k' then 'u' do, if no exit is reported in between: 'u' starts a child beside the one that
      was recorded, be it ./run or ./finish, and forgets that, exactly if one was recorded. */
  lemma KillThenUp(u: Unit, a: Answers, b: Answers)
    requires Tidy(u) && Forks(u, a) && Forks(u, b)
    ensures var v := Commanded(Commanded(u, CMD_K, a), CMD_U, b);
            (v.overrun <==> u.s.pid != 0) && v.children == u.children + {b.pid} && v.s.pid == b.pid
  {
    hide Encode;
  }

  /** And until something else happens the status file shows the state before 'k': it is right
      exactly if the service was down already. */
  lemma KillLeavesStatus(u: Unit, a: Answers)
    requires Orderly(u)
    ensures var v := Commanded(u, CMD_K, a);
            v.s.state == Down && v.file == Encode(u.s) && (v.file == Encode(v.s) <==> u.s.state == Down)
  {
    var v := Commanded(u, CMD_K, a);
    Decodes(u.s);
    Decodes(v.s);
    hide Encode;
    assert u.s.state == Down ==> v.s == u.s;
  }

  /** Killed and told to exit, the supervisor leaves, and leaves its child behind if it had one. */
  lemma KillThenExit(p: Sup, a: Answers, b: Answers)
    requires TidySup(p) && !p.main.s.islog && p.log.s.pid == 0
    ensures var q := Left(MainCommanded(MainCommanded(p, Letter(CMD_K, a)), Letter(CMD_X, b)));
            q.gone && q.main.children == p.main.children && (q.main.children != {} <==> p.main.s.pid != 0)
  {
    hide Encode;
  }

  // ----- leaving -----

  /** How many exits of the main child are left to come. */
  function Rank(u: Unit): nat {
    match u.s.state
    case Run => 2
    case Finish => 1
    case Down => 0
    case Done => 0
  }

  /** The veto of ./finish: exiting 111 it turns any wish, WantExit too, into WantDown. */
  ghost predicate Vetoes(u: Unit, e: Exit) {
    e.child == u.s.pid && u.s.state == Finish && ExitCode(e.wstat) == 111
  }

  /** 'x' is forgotten at an exit if and only if ./finish vetoes it. */
  lemma ExitForgotten(u: Unit, e: Exit)
    requires Tidy(u) && u.s.want == WantExit && !e.oneshot
    ensures Reaped(u, e).s.want == WantExit <==> !Vetoes(u, e)
  {
    hide Encode;
  }

  /** A pass in which nobody sends commands. */
  predicate Quiet(i: Pass) {
    i.cmd.Silence? && i.logcmd.Silence? && i.term.Silence? && forall e :: e in i.exits ==> !e.oneshot
  }

  ghost predicate NoVeto(p: Sup, ee: seq<Exit>)
    decreases |ee|
  {
    ee == [] || (NoVeto(p, ee[..|ee| - 1]) && !Vetoes(ReapedAll(p, ee[..|ee| - 1]).main, ee[|ee| - 1]))
  }

  /** Exits of the child the supervisor watches. */
  ghost function MainExits(p: Sup, ee: seq<Exit>): nat
    decreases |ee|
  {
    if ee == [] then 0
    else
      MainExits(p, ee[..|ee| - 1]) +
      (if ee[|ee| - 1].child == ReapedAll(p, ee[..|ee| - 1]).main.s.pid then 1 else 0)
  }

  lemma ReapedRank(u: Unit, e: Exit)
    requires Tidy(u) && u.s.want == WantExit && !e.oneshot && e.child in u.children && !Vetoes(u, e)
    ensures Reaped(u, e).s.want == WantExit && Rank(Reaped(u, e)) < Rank(u)
  {
    hide Encode;
  }

  lemma {:induction false} ReapedAllRank(p: Sup, ee: seq<Exit>)
    requires TidySup(p) && ExitsPossible(p, ee) && NoVeto(p, ee) && p.main.s.want == WantExit
    requires forall e :: e in ee ==> !e.oneshot
    ensures ReapedAll(p, ee).main.s.want == WantExit
    ensures Rank(ReapedAll(p, ee).main) + MainExits(p, ee) <= Rank(p.main)
    decreases |ee|
  {
    hide Reaped, LogReaped, Encode, Rank, Vetoes;
    if ee != [] {
      var pre, e := ee[..|ee| - 1], ee[|ee| - 1];
      assert e in ee && forall x :: x in pre ==> x in ee;
      ReapedAllSound(p, pre);
      ReapedAllRank(p, pre);
      var q := ReapedAll(p, pre);
      if e.child in q.main.children {
        ReapedRank(q.main, e);
      }
    }
  }

  /** A quiet pass of a process that is to exit: each exit of its child brings it one step on,
      nothing sets it back; while it is not down, there is a child to wait for. */
  lemma QuietPass(p: Sup, i: Pass)
    requires TidySup(p) && Possible(p, i) && Quiet(i) && NoVeto(Kept(p, i), i.exits)
    requires p.main.s.want == WantExit
    ensures Passed(p, i).main.s.want == WantExit
    ensures Rank(Passed(p, i).main) + MainExits(Kept(p, i), i.exits) <= Rank(p.main)
    ensures Kept(p, i).main.s.state != Down ==> Kept(p, i).main.s.pid != 0
  {
    hide Encode, ReapedAll, ExitsPossible, Reaped, LogReaped;
    KeptSound(p, i);
    ReapedAllRank(Kept(p, i), i.exits);
  }

  ghost function AllExits(p: Sup, ii: seq<Pass>): nat
    decreases |ii|
  {
    if ii == [] then 0
    else
      var i := ii[|ii| - 1];
      AllExits(p, ii[..|ii| - 1]) + MainExits(Kept(PassedAll(p, ii[..|ii| - 1]), i), i.exits)
  }

  ghost predicate AllNoVeto(p: Sup, ii: seq<Pass>)
    decreases |ii|
  {
    if ii == [] then true
    else
      var i := ii[|ii| - 1];
      AllNoVeto(p, ii[..|ii| - 1]) && NoVeto(Kept(PassedAll(p, ii[..|ii| - 1]), i), i.exits)
  }

  lemma {:induction false} QuietIsGentle(p: Sup, ii: seq<Pass>)
    requires forall i :: i in ii ==> Quiet(i)
    ensures GentleRun(p, ii) && forall i :: i in ii ==> NoOneshot(i)
    decreases |ii|
  {
    if ii != [] {
      var pre, i := ii[..|ii| - 1], ii[|ii| - 1];
      assert i in ii && forall x :: x in pre ==> x in ii;
      QuietIsGentle(p, pre);
    }
  }

  /** Once 'x' is accepted, no commands come and ./finish does not veto, the main child exits at
      most twice, and after as many exits as its rank the service is down. */
  lemma {:induction false} ExitTakesTwo(p: Sup, ii: seq<Pass>)
    requires TidySup(p) && RunPossible(p, ii) && AllNoVeto(p, ii) && (forall i :: i in ii ==> Quiet(i))
    requires p.main.s.want == WantExit
    ensures var q := PassedAll(p, ii);
            q.main.s.want == WantExit && Rank(q.main) + AllExits(p, ii) <= Rank(p.main) <= 2 &&
            (AllExits(p, ii) == Rank(p.main) ==> q.main.s.state == Down && q.main.s.pid == 0)
    decreases |ii|
  {
    hide Encode, Passed, Possible, NoVeto, MainExits;
    QuietIsGentle(p, ii);
    RunTidyIff(p, ii);
    if ii != [] {
      var pre, i := ii[..|ii| - 1], ii[|ii| - 1];
      assert i in ii && forall x :: x in pre ==> x in ii;
      QuietIsGentle(p, pre);
      RunTidyIff(p, pre);
      ExitTakesTwo(p, pre);
      QuietPass(PassedAll(p, pre), i);
    }
  }

  lemma LeftEmpty(q: Sup)
    requires !q.gone && TidySup(Left(q))
    ensures Left(q).gone ==> Left(q).main.s.pid == 0 && Left(q).log.s.pid == 0
  {
    hide Encode;
  }

  /** The process leaves only when both services have no child, if no 'k' finds one. */
  lemma LeavesEmpty(p: Sup, i: Pass)
    requires TidySup(p) && Possible(p, i) && NoOneshot(i) && Gentle(p, i)
    ensures Passed(p, i).gone ==> Passed(p, i).main.s.pid == 0 && Passed(p, i).log.s.pid == 0
  {
    PassTidyIff(p, i);
    TidyIsSound(p);
    KeptSound(p, i);
    ReapedAllSound(Kept(p, i), i.exits);
    var r := AfterCmd(p, i);
    var q := MainCommanded(AfterLogCmd(p, i), i.term);
    hide Kept, ReapedAll, Commanded, Encode, Gentle, NoOneshot, TidySup, SoundSup, Left;
    assert q.gone == AfterLogCmd(p, i).gone == r.gone == AfterExits(p, i).gone == Kept(p, i).gone;
    KeptHasLog(p, i);
    LeftEmpty(q);
  }

  /** Down and told to exit, one pass is enough if the log service has no child left; else the
      log service is told to end, and is not started again. */
  lemma DownLeaves(p: Sup, i: Pass)
    requires TidySup(p) && Possible(p, i) && Quiet(i) && p.main.s.want == WantExit && p.main.s.state == Down
    ensures var q := Passed(p, i);
            && q.main.s.state == Down && q.main.s.want == WantExit
            && (AfterExits(p, i).log.s.pid == 0 ==> q.gone)
            && (!q.gone ==> q.log.s.want == WantExit && q.log.s.pid != 0)
  {
    hide Encode, ReapedAll, ExitsPossible, Started, Reaped, LogReaped;
    KeptSound(p, i);
    DownStays(Kept(p, i), i.exits);
  }

  lemma {:induction false} DownStays(p: Sup, ee: seq<Exit>)
    requires TidySup(p) && ExitsPossible(p, ee) && p.main.s.state == Down && (forall e :: e in ee ==> !e.oneshot)
    ensures ReapedAll(p, ee).main == p.main && ReapedAll(p, ee).log.s.want == p.log.s.want
    ensures p.log.s.pid == 0 ==> ReapedAll(p, ee).log.s.pid == 0
    decreases |ee|
  {
    hide Encode, Tidy, Sound;
    if ee != [] {
      var pre, e := ee[..|ee| - 1], ee[|ee| - 1];
      assert forall x :: x in pre ==> x in ee;
      DownStays(p, pre);
      assert p.main.children == {} by {
        TidyDown(p.main);
      }
    }
  }

  lemma TidyDown(u: Unit)
    requires Tidy(u) && u.s.state == Down
    ensures u.s.pid == 0 && u.children == {}
  {
  }
}

