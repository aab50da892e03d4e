/** What runsv(8) promises of the commands, of starting and restarting, and of leaving, in the manual's
    own letters: the state machine of RunsvSpec keeps these promises, or exactly so much of them. */
module RunsvLaws {
  import opened Bytes
  import opened Tai
  import opened Status
  import opened RunsvSpec

  // ----- the commands -----

  /** What the letter makes of the wish. */
  ghost function Wished(u: Unit, c: byte): Want {
    if c == 'u' as int then WantUp
    else if c == 'd' as int || c == 'o' as int then WantDown
    else if c == 'x' as int && !u.s.islog then WantExit
    else u.s.want
  }

  /** The signals that the letter sends to a running service. A control script may take over those
      after which the service need not go on. */
  ghost function Told(u: Unit, c: byte, a: Answers): seq<Sig> {
    if u.s.state != Run then []
    else if c == 'd' as int || (c == 'x' as int && !u.s.islog) then (if a.scripted then [] else [TERM]) + [CONT]
    else if c == 't' as int then
      (if a.scripted then [] else [TERM]) + if u.s.want == WantDown || u.s.want == WantExit then [CONT] else []
    else if a.scripted then []
    else if c == 'p' as int then [STOP]
    else if c == 'c' as int then [CONT]
    else if c == 'h' as int then [HUP]
    else if c == 'a' as int then [ALRM]
    else if c == 'i' as int then [INT]
    else if c == 'q' as int then [QUIT]
    else if c == '1' as int then [USR1]
    else if c == '2' as int then [USR2]
    else if c == 'k' as int then [KILL]
    else []
  }

  /** They go to the child, or to its group, and the child is there. */
  ghost function Addressed(u: Unit, a: Answers, sigs: seq<Sig>): (r: seq<Signal>)
    ensures |r| == |sigs|
  {
    var pid: int := u.s.pid;
    seq(|sigs|, i requires 0 <= i < |sigs| => Signal(if a.group then -pid else pid, sigs[i], true))
  }

  /** The letter starts the service. */
  ghost predicate Starts(u: Unit, c: byte) {
    u.s.state == Down && (c == 'u' as int || c == 'o' as int)
  }

  /** The wish, for every letter and in every state. */
  lemma LetterWishes(u: Unit, c: byte, a: Answers)
    ensures Commanded(u, c, a).s.want == Wished(u, c)
  {
    hide Encode, Started, Wound, Stopped, Signalled;
    var d, e := Shown(u.(s := u.s.(want := WantDown))), Shown(u.(s := u.s.(want := WantExit)));
    var v := Shown(u.(s := u.s.(want := WantUp)));
    if c == CMD_D || c == CMD_X {
      WoundWish(d, a);
      WoundWish(e, a);
    } else if c == CMD_U || c == CMD_O {
      StartedWish(v, a);
      StartedWish(v.(s := v.s.(firstrun := true)), a);
      StartedWish(d, a);
    } else {
      StoppedRecord(u, a);
      SignalledRecord(u, c, a);
    }
  }

  lemma SignalledRecord(u: Unit, c: byte, a: Answers)
    ensures Signalled(u, c, a).s == u.s && Signalled(u, c, a).children == u.children
  {
  }

  lemma StoppedRecord(u: Unit, a: Answers)
    ensures Stopped(u, a).s == u.s.(term := u.s.term || (u.s.pid != 0 && !a.scripted))
    ensures Stopped(u, a).children == u.children
  {
    hide Encode;
  }

  lemma WoundWish(u: Unit, a: Answers)
    ensures Wound(u, a).s.want == u.s.want
  {
    hide Encode, Stopped;
    StoppedRecord(u, a);
  }

  lemma StartedWish(u: Unit, a: Answers)
    ensures Started(u, a).s.want == u.s.want && Started(u, a).s.pid == a.pid
  {
    hide Encode, Stopped;
    StoppedRecord(u, a);
  }

  /** What 'd' and 'x' do to a service that has neither ./oneshot nor lost its child. */
  lemma WindLetter(u: Unit, c: byte, a: Answers)
    requires Tidy(u) && (c == CMD_D || (c == CMD_X && !u.s.islog))
    ensures var w := Shown(u.(s := u.s.(want := Wished(u, c))));
            Commanded(u, c, a) == if u.s.state == Run then Stopped(w, a) else w
  {
    hide Encode, Stopped;
  }

  /** What 'u' and 'o' do. */
  lemma StartLetter(u: Unit, c: byte, a: Answers)
    requires Tidy(u) && (c == CMD_U || c == CMD_O)
    ensures var w := Shown(u.(s := u.s.(want := Wished(u, c))));
            Commanded(u, c, a) ==
            if u.s.state == Down then Launched(w.(s := w.s.(firstrun := w.s.firstrun || c == CMD_U)), a) else w
  {
    hide Encode, Launched;
    var w := Shown(u.(s := u.s.(want := Wished(u, c))));
    assert w.s.firstrun ==> w.(s := w.s.(firstrun := true)) == w;
    assert !w.s.firstrun ==> w.(s := w.s.(firstrun := false)) == w;
  }

  lemma StoppedSignals(u: Unit, a: Answers)
    requires Sound(u) && u.s.pid != 0
    ensures var sigs := (if a.scripted then [] else [TERM]) +
                        if u.s.want == WantDown || u.s.want == WantExit then [CONT] else [];
            Stopped(u, a).signals == u.signals + Addressed(u, a, sigs)
  {
    hide Encode;
  }

  /** The signals, for every letter. */
  lemma LetterSignals(u: Unit, c: byte, a: Answers)
    requires Tidy(u)
    ensures Commanded(u, c, a).signals == u.signals + Addressed(u, a, Told(u, c, a))
  {
    hide Encode, Stopped, Launched, Commanded;
    var w := Shown(u.(s := u.s.(want := Wished(u, c))));
    assert u.signals + Addressed(u, a, []) == u.signals;
    if c == CMD_D || (c == CMD_X && !u.s.islog) {
      WindLetter(u, c, a);
      if u.s.state == Run {
        StoppedSignals(w, a);
      }
    } else if c == CMD_U || c == CMD_O {
      StartLetter(u, c, a);
      LaunchedRecord(w.(s := w.s.(firstrun := w.s.firstrun || c == CMD_U)), a);
    } else {
      OtherLetters(u, c, a);
      if c == CMD_T {
        if u.s.state == Run {
          StoppedSignals(u, a);
        }
      } else {
        SignalledTold(u, c, a);
      }
    }
  }

  lemma LaunchedRecord(u: Unit, a: Answers)
    ensures var v := Launched(u, a);
            && v.signals == u.signals && v.children == u.children + {a.pid} && v.s.pid == a.pid
            && v.s.want == u.s.want && v.s.firstrun == u.s.firstrun && v.s.wstat == u.s.wstat
            && !v.s.term && !v.s.pause
            && (if u.s.state == Finish then v.s.state == Finish && v.s.start == u.s.start
                else v.s.state == Run && v.s.start == a.now)
  {
    hide Encode;
  }

  lemma SignalledTold(u: Unit, c: byte, a: Answers)
    requires Tidy(u) && c != CMD_T && c != CMD_D && c != CMD_U && c != CMD_O && (c == CMD_X ==> u.s.islog)
    ensures Signalled(u, c, a).signals == u.signals + Addressed(u, a, Told(u, c, a))
  {
    hide Encode;
    assert u.signals + Addressed(u, a, []) == u.signals;
  }

  /** What the letters do that say nothing about the wish. */
  lemma OtherLetters(u: Unit, c: byte, a: Answers)
    requires c != CMD_D && c != CMD_U && c != CMD_O && (c == CMD_X ==> u.s.islog)
    ensures var v, x := Commanded(u, c, a), Signalled(u, c, a);
            if c == CMD_T then v == if u.s.state == Run then Stopped(u, a) else u
            else v.signals == x.signals && v.children == x.children && v.s.want == u.s.want &&
                 v.s == u.s.(state := if c == CMD_K then Down else u.s.state,
                             pause := if c == CMD_P then true else if c == CMD_C then false else u.s.pause)
  {
    hide Encode, Stopped, Signalled;
    SignalledRecord(u, c, a);
    if c == CMD_X {
      OtherLetter(u, c, a);
    }
  }

  /** And the rest of the record. */
  ghost predicate Changed(u: Unit, c: byte, a: Answers, v: Unit) {
    && v.s.state == (if Starts(u, c) then Run else if c == 'k' as int then Down else u.s.state)
    && v.s.pid == (if Starts(u, c) then a.pid else u.s.pid)
    && v.s.start == (if Starts(u, c) then a.now else u.s.start)
    && v.children == u.children + (if Starts(u, c) then {a.pid} else {})
    && v.s.pause == (if c == 'p' as int then true else if c == 'c' as int || Starts(u, c) then false else u.s.pause)
    && v.s.term == (!Starts(u, c) && (u.s.term || TERM in Told(u, c, a)))
    && v.s.firstrun == (u.s.firstrun || (Starts(u, c) && c == 'u' as int))
    && v.s.wstat == u.s.wstat
  }

  lemma LetterChanges(u: Unit, c: byte, a: Answers)
    requires Tidy(u)
    ensures Changed(u, c, a, Commanded(u, c, a))
  {
    hide Commanded, Changed, Tidy;
    if c == CMD_D || (c == CMD_X && !u.s.islog) {
      WindChanges(u, c, a);
    } else if c == CMD_U || c == CMD_O {
      StartChanges(u, c, a);
    } else {
      OtherChanges(u, c, a);
    }
  }

  lemma WindChanges(u: Unit, c: byte, a: Answers)
    requires Tidy(u) && (c == CMD_D || (c == CMD_X && !u.s.islog))
    ensures Changed(u, c, a, Commanded(u, c, a))
  {
    hide Encode, Stopped, Commanded;
    WindLetter(u, c, a);
    StoppedRecord(Shown(u.(s := u.s.(want := Wished(u, c)))), a);
  }

  lemma StartChanges(u: Unit, c: byte, a: Answers)
    requires Tidy(u) && (c == CMD_U || c == CMD_O)
    ensures Changed(u, c, a, Commanded(u, c, a))
  {
    hide Encode, Launched, Commanded;
    var w := Shown(u.(s := u.s.(want := Wished(u, c))));
    StartLetter(u, c, a);
    LaunchedRecord(w.(s := w.s.(firstrun := w.s.firstrun || c == CMD_U)), a);
  }

  lemma OtherChanges(u: Unit, c: byte, a: Answers)
    requires Tidy(u) && c != CMD_D && c != CMD_U && c != CMD_O && (c == CMD_X ==> u.s.islog)
    ensures Changed(u, c, a, Commanded(u, c, a))
  {
    hide Encode, Stopped, Signalled, Commanded;
    OtherLetters(u, c, a);
    StoppedRecord(u, a);
    SignalledRecord(u, c, a);
  }

  lemma LetterTold(u: Unit, c: byte, a: Answers)
    ensures Commanded(u, c, a).s.want == Wished(u, c)
    ensures Tidy(u) ==>
              Commanded(u, c, a).signals == u.signals + Addressed(u, a, Told(u, c, a)) &&
              (Starts(u, c) ==> Commanded(u, c, a).s.pid == a.pid && Commanded(u, c, a).s.state == Run)
  {
    LetterWishes(u, c, a);
    hide Commanded, Tidy, Wished, Told, Addressed;
    if Tidy(u) {
      LetterSignals(u, c, a);
      LetterChanges(u, c, a);
    }
  }

  /** A service with ./oneshot gets TERM and is down at once, though its child may live on. */
  lemma OneshotStops(u: Unit, c: byte, a: Answers)
    requires Sound(u) && u.s.oneshot && u.s.state == Run && !u.s.islog
    requires c == 'd' as int || c == 'x' as int
    ensures var v := Commanded(u, c, a);
            && v.s.state == Down && v.s.pid == u.s.pid != 0 && v.children == u.children
            && v.signals == u.signals + Addressed(u, a, [TERM]) && v.file == Encode(v.s)
  {
    hide Encode;
  }

  /** A service with ./oneshot that is done: 'd' and 'x' make it down, 'u' starts it again, and 'o', against
      the manual, does not. */
  lemma DoneCommanded(u: Unit, a: Answers)
    requires Sound(u) && u.s.state == Done && !u.s.islog
    ensures Commanded(u, 'd' as int, a).s.state == Commanded(u, 'x' as int, a).s.state == Down
    ensures Commanded(u, 'd' as int, a).signals == Commanded(u, 'x' as int, a).signals == u.signals
    ensures Commanded(u, 'u' as int, a).s.state == Run && Commanded(u, 'u' as int, a).s.pid == a.pid
    ensures Commanded(u, 'o' as int, a).s.state == Done && Commanded(u, 'o' as int, a).s.pid == 0
  {
    hide Encode;
  }

  // ----- starting and restarting -----

  /** The top of the loop starts exactly what is missing: a service that is wanted up, and ./finish. */
  lemma KeptStarts(p: Sup, i: Pass)
    requires i.startlog.pid != 0 && i.startmain.pid != 0
    ensures var q := Kept(p, i);
            && q.main.s.want == p.main.s.want && q.log.s.want == p.log.s.want
            && (q.main.s.want == WantUp ==> q.main.s.pid != 0)
            && (q.haslog && q.log.s.want == WantUp ==> q.log.s.pid != 0)
            && (p.main.s.pid != 0 || (p.main.s.want != WantUp && p.main.s.state != Finish) ==> q.main == p.main)
            && (p.log.s.pid != 0 || p.log.s.want != WantUp || !p.haslog ==> q.log == p.log)
            && (q.main != p.main ==> q.main.s.pid == i.startmain.pid)
            && (q.main != p.main ==> q.main.s.state == if p.main.s.state == Finish then Finish else Run)
            && (q.log != p.log ==> q.log.s.pid == i.startlog.pid)
  {
    hide Encode, Launched;
    LaunchedRecord(p.main, i.startmain);
    LaunchedRecord(p.log, i.startlog);
  }

  lemma BuriedRecord(u: Unit, e: Exit)
    ensures var v, veto := Buried(u, e), u.s.state == Finish && e.wstat / 256 == 111;
            && v.s.pid == 0 && v.s.wstat == e.wstat && v.s.state == u.s.state && v.s.start == u.s.start
            && !v.s.firstrun && !v.s.term && v.s.pause == u.s.pause && v.signals == u.signals
            && v.s.want == if veto then WantDown else u.s.want
  {
    hide Encode;
  }

  /** What the exit of its child makes of a service. */
  lemma ReapedRecord(u: Unit, e: Exit)
    requires e.child == u.s.pid
    ensures var v, veto := Reaped(u, e).s, u.s.state == Finish && e.wstat / 256 == 111;
            && v.pid == 0 && v.wstat == e.wstat && !v.firstrun && !v.term && v.pause == u.s.pause
            && Reaped(u, e).signals == u.signals
            && if u.s.state != Finish && e.finish then v.state == Finish && v.want == u.s.want
               else if u.s.state != Done && e.oneshot then v.state == Done && v.want == WantDone
               else v.state == (if u.s.state == Done then Done else Down) && v.start == e.now &&
                    v.want == if veto then WantDown else u.s.want
  {
    BuriedRecord(u, e);
    hide Encode, Buried;
  }

  /** The life of a service: if ./run exits and ./finish exists, ./finish is started, whatever is
      wanted; if ./finish does not exist, or exits with any code other than 111, ./run is started again
      if that is wanted; else there is no child. */
  lemma LifeCycle(p: Sup, e: Exit, i: Pass)
    requires TidySup(p) && e.child == p.main.s.pid != 0 && !e.oneshot && p.main.s.state != Down
    requires i.startlog.pid != 0 && i.startmain.pid != 0
    ensures var q := Kept(ReapedOne(p, e), i).main.s;
            var wish := if p.main.s.state == Finish && e.wstat / 256 == 111 then WantDown else p.main.s.want;
            && q.want == wish && q.wstat == e.wstat
            && if p.main.s.state == Run && e.finish then q.state == Finish && q.pid == i.startmain.pid
               else if wish == WantUp then q.state == Run && q.pid == i.startmain.pid
               else q.state == Down && q.pid == 0 && q.start == e.now
  {
    ReapedRecord(p.main, e);
    LaunchedRecord(Reaped(p.main, e), i.startmain);
    hide Encode, Launched, Reaped;
  }

  /** The log service has no ./finish and no wish but its own: it is started again until it is to exit. */
  lemma LogLifeCycle(p: Sup, e: Exit, i: Pass)
    requires SoundSup(p) && p.haslog && e.child == p.log.s.pid != 0 && i.startlog.pid != 0
    ensures var q := Kept(ReapedOne(p, e), i).log.s;
            && q.want == p.log.s.want
            && if q.want == WantUp then q.state == Run && q.pid == i.startlog.pid && q.start == i.startlog.now
               else q.state == Down && q.pid == 0 && q.start == e.now
  {
    hide Encode, Launched;
    LaunchedRecord(LogReaped(p.log, e), i.startlog);
  }

  /** An exit leaves the wish as it is but for ./oneshot and the veto of ./finish, and never makes it the
      wish to exit. */
  lemma ReapedWish(p: Sup, e: Exit)
    ensures !e.oneshot && !Vetoes(p.main, e) ==> ReapedOne(p, e).main.s.want == p.main.s.want
    ensures p.main.s.want != WantExit ==> ReapedOne(p, e).main.s.want != WantExit
    ensures ReapedOne(p, e).gone == p.gone
  {
    if e.child == p.main.s.pid {
      ReapedRecord(p.main, e);
      hide Encode, Reaped, LogReaped;
    } else {
      hide Encode, LogReaped;
    }
  }

  lemma {:induction false} ReapedAllWish(p: Sup, ee: seq<Exit>)
    requires NoVeto(p, ee) && forall e :: e in ee ==> !e.oneshot
    ensures ReapedAll(p, ee).main.s.want == p.main.s.want
    decreases |ee|
  {
    hide ReapedOne, Vetoes;
    if ee != [] {
      var pre, e := ee[..|ee| - 1], ee[|ee| - 1];
      assert e in ee && forall x :: x in pre ==> x in ee;
      ReapedAllWish(p, pre);
      ReapedWish(ReapedAll(p, pre), e);
    }
  }

  /** The pass brings no letter that ends the wish to be up. */
  predicate LeavesUp(i: Pass) {
    && i.term.Silence? && NoOneshot(i) && i.startlog.pid != 0 && i.startmain.pid != 0
    && (i.cmd.Letter? ==> i.cmd.c !in {'d' as int, 'o' as int, 'x' as int})
  }

  lemma PassWish(p: Sup, i: Pass)
    requires LeavesUp(i) && NoVeto(Kept(p, i), i.exits) && p.main.s.want == WantUp
    ensures Kept(p, i).main.s.pid != 0 && Passed(p, i).main.s.want == WantUp
  {
    KeptStarts(p, i);
    ReapedAllWish(Kept(p, i), i.exits);
    var q := AfterExits(p, i);
    if i.cmd.Letter? {
      LetterWishes(q.main, i.cmd.c, i.cmd.a);
    }
    hide Encode, Kept, ReapedAll, Commanded;
  }

  /** Over every run in which ./finish does not veto, no ./oneshot appears and nobody sends 'd', 'o' or
      'x', a service wanted up stays so, and has a child in every pass. */
  lemma {:induction false} StaysUp(p: Sup, ii: seq<Pass>, i: Pass)
    requires p.main.s.want == WantUp && AllNoVeto(p, ii) && (forall x :: x in ii ==> LeavesUp(x)) && LeavesUp(i)
    ensures PassedAll(p, ii).main.s.want == WantUp && Kept(PassedAll(p, ii), i).main.s.pid != 0
    decreases |ii|
  {
    hide LeavesUp, Passed, Kept, NoVeto;
    if ii != [] {
      var pre, j := ii[..|ii| - 1], ii[|ii| - 1];
      assert j in ii && forall x :: x in pre ==> x in ii;
      StaysUp(p, pre, j);
      PassWish(PassedAll(p, pre), j);
    }
    UpHasChild(PassedAll(p, ii), i);
  }

  lemma UpHasChild(p: Sup, i: Pass)
    requires p.main.s.want == WantUp && LeavesUp(i)
    ensures Kept(p, i).main.s.pid != 0
  {
    KeptStarts(p, i);
  }

  /** The service is stopped, and not to be started. */
  ghost predicate AtRest(u: Unit) {
    (u.s.state == Down || u.s.state == Done) && u.s.want != WantUp && u.s.pid == 0 && u.children == {}
  }

  /** No letter for the main service that starts it. */
  predicate LeavesDown(i: Pass) {
    (i.cmd.Letter? ==> i.cmd.c !in {'u' as int, 'o' as int}) && (i.term.Letter? ==> i.term.c == 'x' as int)
  }

  lemma LetterAtRest(u: Unit, c: byte, a: Answers)
    requires AtRest(u) && c != 'u' as int && c != 'o' as int
    ensures AtRest(Commanded(u, c, a))
  {
    hide Encode;
  }

  lemma {:induction false} ExitsAtRest(p: Sup, ee: seq<Exit>)
    requires AtRest(p.main)
    ensures ReapedAll(p, ee).main == p.main
    decreases |ee|
  {
    if ee != [] {
      ExitsAtRest(p, ee[..|ee| - 1]);
    }
  }

  lemma PassAtRest(p: Sup, i: Pass)
    requires AtRest(p.main) && LeavesDown(i)
    ensures AtRest(Passed(p, i).main)
  {
    hide Encode, ReapedAll, Commanded, AtRest;
    KeptAtRest(p, i);
    ExitsAtRest(Kept(p, i), i.exits);
    var q := AfterExits(p, i);
    if i.cmd.Letter? {
      LetterAtRest(q.main, i.cmd.c, i.cmd.a);
    }
    var r := LogCommanded(MainCommanded(q, i.cmd), i.logcmd);
    if i.term.Letter? {
      LetterAtRest(r.main, i.term.c, i.term.a);
    }
  }

  lemma KeptAtRest(p: Sup, i: Pass)
    requires AtRest(p.main)
    ensures Kept(p, i).main == p.main
  {
  }

  /** Over every run: a service that is stopped and not wanted up is not started, ./oneshot or not,
      until 'u' or 'o' comes. */
  lemma {:induction false} StaysDown(p: Sup, ii: seq<Pass>)
    requires AtRest(p.main) && forall i :: i in ii ==> LeavesDown(i)
    ensures AtRest(PassedAll(p, ii).main)
    decreases |ii|
  {
    hide AtRest, Passed, LeavesDown;
    if ii != [] {
      var pre, i := ii[..|ii| - 1], ii[|ii| - 1];
      assert i in ii && forall x :: x in pre ==> x in ii;
      StaysDown(p, pre);
      PassAtRest(PassedAll(p, pre), i);
    }
  }

  // ----- leaving -----

  /** At the end of a pass the process leaves exactly if it is to exit, the service is stopped and the log
      service has no child; and with a child, the log service is told to end. */
  lemma LeftIff(p: Sup)
    requires !p.gone
    ensures var q := Left(p);
            var stopped := p.main.s.want == WantExit && p.main.s.state in {Down, Done};
            && (q.gone <==> stopped && p.log.s.pid == 0) && q.main == p.main
            && q.log.s == p.log.s.(want := if stopped && p.log.s.pid != 0 then WantExit else p.log.s.want)
  {
    hide Encode;
  }

  /** The pass brings neither 'x' nor SIGTERM. */
  predicate Untold(i: Pass) {
    i.term.Silence? && (i.cmd.Letter? ==> i.cmd.c != 'x' as int)
  }

  lemma {:induction false} ExitsNoExit(p: Sup, ee: seq<Exit>)
    requires p.main.s.want != WantExit && !p.gone
    ensures ReapedAll(p, ee).main.s.want != WantExit && !ReapedAll(p, ee).gone
    decreases |ee|
  {
    hide ReapedOne;
    if ee != [] {
      ExitsNoExit(p, ee[..|ee| - 1]);
      ReapedWish(ReapedAll(p, ee[..|ee| - 1]), ee[|ee| - 1]);
    }
  }

  lemma PassNoExit(p: Sup, i: Pass)
    requires p.main.s.want != WantExit && !p.gone && Untold(i)
    ensures Passed(p, i).main.s.want != WantExit && !Passed(p, i).gone
  {
    hide Encode, Kept, ReapedAll, Commanded;
    KeptNoExit(p, i);
    ExitsNoExit(Kept(p, i), i.exits);
    var q := AfterExits(p, i);
    if i.cmd.Letter? {
      LetterWishes(q.main, i.cmd.c, i.cmd.a);
    }
  }

  lemma KeptNoExit(p: Sup, i: Pass)
    requires p.main.s.want != WantExit && !p.gone
    ensures Kept(p, i).main.s.want != WantExit && !Kept(p, i).gone
  {
    StartedWish(p.main, i.startmain);
    hide Started;
  }

  /** The commands of a pass come after its exits: 'u' with the exit of the child starts the service in the same
      pass; without it, the start is left to the next pass. */
  lemma ExitThenUp(p: Sup, i: Pass, e: Exit, a: Answers)
    requires p.main.s.pid == e.child != 0 && e.child in p.main.children && p.main.s.state == Run
    requires i.exits == [e] && !e.finish && !e.oneshot && i.term.Silence? && p.main.s.want != WantExit
    requires i.cmd.Silence? || i.cmd == Letter('u' as int, a)
    ensures var s := Passed(p, i).main.s;
            if i.cmd.Silence? then s.state == Down && s.pid == 0 else s.state == Run && s.pid == a.pid
  {
    KeptRunning(p, i);
    var q := Kept(p, i);
    assert i.exits[..0] == [] && ReapedAll(q, []) == q;
    assert ReapedAll(q, i.exits) == ReapedOne(q, e);
    ReapedRecord(q.main, e);
    ReapedWish(q, e);
    var r := ReapedOne(q, e).main;
    hide Encode, Kept, ReapedAll, Reaped, Launched, LogReaped;
    if i.cmd.Letter? {
      LetterWishes(r, CMD_U, a);
      UpFromDown(r, a);
    }
    hide Commanded;
  }

  lemma KeptRunning(p: Sup, i: Pass)
    requires p.main.s.pid != 0
    ensures Kept(p, i).main == p.main
  {
  }

  lemma UpFromDown(u: Unit, a: Answers)
    requires u.s.state == Down && u.s.pid == 0
    ensures Commanded(u, CMD_U, a).s.pid == a.pid && Commanded(u, CMD_U, a).s.state == Run
  {
    hide Encode;
  }

  /** SIGTERM to the supervisor of a stopped service without log service ends it in the same pass. */
  lemma TermLeaves(p: Sup, i: Pass, a: Answers)
    requires AtRest(p.main) && !p.main.s.islog && !p.haslog && p.log.s.pid == 0 && !p.gone
    requires i.term == Letter('x' as int, a) && i.cmd.Silence? && i.exits == []
    ensures Passed(p, i).gone
  {
    KeptAtRest(p, i);
    var q := Kept(p, i);
    assert ReapedAll(q, i.exits) == q;
    LetterWishes(q.main, CMD_X, a);
    LetterAtRest(q.main, CMD_X, a);
    hide Encode, Commanded, ReapedAll;
  }

  /** Over every run: the process never leaves unless it was told to. */
  lemma {:induction false} NeverLeavesUntold(p: Sup, ii: seq<Pass>)
    requires p.main.s.want != WantExit && !p.gone && forall i :: i in ii ==> Untold(i)
    ensures PassedAll(p, ii).main.s.want != WantExit && !PassedAll(p, ii).gone
    decreases |ii|
  {
    hide Passed, Untold;
    if ii != [] {
      var pre, i := ii[..|ii| - 1], ii[|ii| - 1];
      assert i in ii && forall x :: x in pre ==> x in ii;
      NeverLeavesUntold(p, pre);
      PassNoExit(PassedAll(p, pre), i);
    }
  }

  lemma PassTold(p: Sup, i: Pass)
    ensures p.main.s.want == WantUp && LeavesUp(i) && i.exits == [] ==> Passed(p, i).main.s.want == WantUp
    ensures p.main.s.want != WantExit && !p.gone && Untold(i) ==>
              Passed(p, i).main.s.want != WantExit && !Passed(p, i).gone
    ensures AtRest(p.main) && LeavesDown(i) ==> AtRest(Passed(p, i).main)
  {
    hide Passed, LeavesUp, Untold, AtRest, LeavesDown;
    if p.main.s.want == WantUp && LeavesUp(i) && i.exits == [] {
      PassWish(p, i);
    }
    if p.main.s.want != WantExit && !p.gone && Untold(i) {
      PassNoExit(p, i);
    }
    if AtRest(p.main) && LeavesDown(i) {
      PassAtRest(p, i);
    }
  }

  // ----- what sv waits for -----

  /** sv's answers about up, down and paused, from the file of an orderly service. */
  lemma AnswersTell(u: Unit, tstart: u64)
    requires Orderly(u)
    ensures Answer('d' as int, u.s, tstart, true) <==> u.s.state == Down
    ensures Answer('u' as int, u.s, tstart, true) <==> u.s.state == Run
    ensures u.s.state == Run ==> (Answer('p' as int, u.s, tstart, true) <==> u.s.pause)
    ensures u.s.state == Run ==> (Answer('c' as int, u.s, tstart, true) <==> !u.s.pause)
    ensures Answer('C' as int, u.s, tstart, false) <==> u.s.pid == 0
    ensures !Answer('x' as int, u.s, tstart, true)
  {
    hide Encode;
  }

  /** sv down: 'd', and the exit of ./run without ./finish, or of ./finish, make sv's wait succeed. */
  lemma DownIsReported(u: Unit, a: Answers, e: Exit, tstart: u64)
    requires Tidy(u) && Forks(u, a) && u.s.state in {Run, Finish}
    requires e.child == u.s.pid != 0 && !e.oneshot && (u.s.state == Run ==> !e.finish)
    ensures var v := Reaped(Commanded(u, 'd' as int, a), e);
            v.file == Encode(v.s) && Answer('d' as int, v.s, tstart, true) && v.s.want == WantDown
  {
    LetterWishes(u, CMD_D, a);
    LetterChanges(u, CMD_D, a);
    hide Encode, Commanded;
  }

  /** sv once: 'o' is answered as soon as the service is started. Not by 'u': that it was wanted up shows. */
  lemma OnceIsReported(u: Unit, a: Answers, tstart: u64)
    requires Tidy(u) && u.s.state == Down && a.pid != 0
    ensures Answer('o' as int, Commanded(u, 'o' as int, a).s, tstart, true)
    ensures !Answer('o' as int, Commanded(u, 'u' as int, a).s, tstart, true)
  {
    LetterWishes(u, CMD_O, a);
    LetterChanges(u, CMD_O, a);
    LetterWishes(u, CMD_U, a);
    LetterChanges(u, CMD_U, a);
    hide Encode, Commanded;
  }

  /** sv restart: after 't' the answer is no, until the child has exited and been started again since. */
  lemma RestartIsReported(u: Unit, a: Answers, e: Exit, b: Answers, tstart: u64)
    requires Tidy(u) && Forks(u, a) && u.s.state == Run && u.s.want == WantUp && !a.scripted
    requires e.child == u.s.pid && !e.oneshot && !e.finish && b.pid != 0
    ensures !Answer('t' as int, Commanded(u, 't' as int, a).s, tstart, true)
    ensures !Answer('t' as int, Reaped(Commanded(u, 't' as int, a), e).s, tstart, true)
    ensures Answer('t' as int, Started(Reaped(Commanded(u, 't' as int, a), e), b).s, tstart, true) <==>
              tstart <= b.now.sec
  {
    LetterWishes(u, CMD_T, a);
    LetterChanges(u, CMD_T, a);
    var v := Commanded(u, CMD_T, a);
    LaunchedRecord(Reaped(v, e), b);
    hide Encode, Commanded, Launched;
  }
}
