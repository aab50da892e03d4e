/** svlogd's record loop: from the bytes on standard input to the files of a log directory. */
module Svlogd {
  import opened Bytes
  import opened Tai
  import opened Labels
  import opened Match
  import opened LogSpec
  import opened Retention
  import opened LogDirs

  const SPACE: byte := 32

  // ----- what is to be logged -----

  /** The options that shape a record. repl is 0 when -r and -R are not given. */
  datatype Format = Format(linemax: nat, prefix: Text, rules: seq<Text>, replace: Text, repl: byte)

  /** A line as it was read: its bytes, whether its newline came, its time stamp (empty without
      -t), and what its matching met in memory. */
  datatype Item = Item(text: Text, ended: bool, stamp: Text, around: Around)

  ghost predicate FormatOk(f: Format) {
    (forall r :: r in f.rules ==> IsRule(r)) && NL !in f.prefix
  }

  /** What happens during one wait for input: SIGTERM, SIGALRM, how many bytes read takes (or it fails),
      and whether a failure is an interruption. */
  datatype Wake = Wake(term: bool, alarm: bool, taken: int, intr: bool)

  /** Wait k is the first not to be interrupted, and read takes something. */
  ghost predicate ReadsAfter(script: seq<Wake>, k: nat, input: Text, room: nat) {
    && k < |script| && 0 < script[k].taken <= |input| && script[k].taken <= room
    && forall j :: 0 <= j < k ==> script[j].intr && script[j].taken == 0 && !script[j].term
  }

  /** Nothing is buffered, exit is due, and the last byte read was a newline. */
  predicate Leaving(data: Text, exitasap: bool, linecomplete: bool) {
    data == [] && exitasap && linecomplete
  }

  /** The next rotation for age is not due, as far as times do not wrap around. */
  ghost predicate TimerAhead(tmax: u32, due: Taia, now: Taia) {
    tmax != 0 && Value(now) + tmax * 1_000_000_000_000_000_000 < SPAN ==> !TaiaLess(due, now)
  }

  /** What the waits of a line are bound to bring about: all the input is read and exit is due; the process
      leaves, having read nothing more; `current` is rotated. */
  datatype Aim = Aim(term: bool, quit: bool, turn: bool, input: Text)

  ghost function AimOf(script: seq<Wake>, data: Text, input: Text, exitasap: bool, rotateasap: bool,
                       linecomplete: bool, room: nat): Aim
  {
    Aim(TermWithAll(script, data, input, exitasap, room), Leaving(data, exitasap, linecomplete),
        data == [] && rotateasap, input)
  }

  ghost predicate Reached(aim: Aim, blocked: bool, exitasap: bool, input: Text, current: Text,
                          text: Text, ended: bool, more: bool)
  {
    !blocked ==>
      && (aim.term ==> exitasap && input == [])
      && (aim.quit ==> !ended && text == [] && input == aim.input && !more)
      && (aim.turn ==> current == [])
  }

  lemma AimReached(aim: Aim, waited: bool, exitasap0: bool, input0: Text, current0: Text, text0: Text, aim1: Aim,
                   blocked: bool, exitasap: bool, input: Text, current: Text, text: Text, ended: bool, more: bool)
    requires if waited then Reached(aim, false, exitasap0, input0, current0, text0, false, true)
             else text0 == [] && aim == aim1
    requires text0 <= text && Reached(aim1, blocked, exitasap, input, current, text[|text0|..], ended, more)
    requires (exitasap0 ==> exitasap) && (input0 == [] ==> input == [])
    requires current0 == [] ==> blocked || current == []
    ensures Reached(aim, blocked, exitasap, input, current, text, ended, more)
  {
  }

  lemma AimDone(aim: Aim, blocked: bool, exitasap: bool, input: Text, current: Text,
                text: Text, ended: bool, more: bool)
    requires Reached(aim, blocked, exitasap, input, current, text, ended, more)
    ensures Reached(aim, blocked, exitasap, input, current, text, ended, false)
  {
  }

  /** r bytes were read, just one if that was asked for; linecomplete says whether they end a line. */
  ghost predicate Received(before: Text, single: bool, r: int, data: Text, input: Text, linecomplete: bool) {
    && 0 < r <= |before| && (single ==> r == 1)
    && data == before[..r] && input == before[r..]
    && (linecomplete <==> data[r - 1] == '\n' as int)
  }

  /** The next wait brings SIGTERM, and all the input there is. */
  predicate TermWithAll(script: seq<Wake>, data: Text, input: Text, exitasap: bool, room: nat) {
    data == [] && !exitasap && script != [] && script[0].term && 0 < |input| == script[0].taken <= room
  }

  /** And that is one line. */
  ghost predicate LosesLine(script: seq<Wake>, data: Text, input: Text, exitasap: bool, linemax: nat) {
    TermWithAll(script, data, input, exitasap, linemax) && IsRecord(input)
  }

  function CleanByte(f: Format, b: byte): byte {
    if f.repl != 0 && (b < 32 || b > 126 || b in f.replace) then f.repl else b
  }

  ghost function CleanText(f: Format, t: Text): (r: Text)
    ensures |r| == |t| && forall i :: 0 <= i < |t| ==> r[i] == CleanByte(f, t[i])
  {
    seq(|t|, i requires 0 <= i < |t| => CleanByte(f, t[i]))
  }

  /** The part of a line that is cleaned and matched. */
  function Head(f: Format, t: Text): Text {
    if |t| <= f.linemax then t else t[..f.linemax]
  }

  function Tail(f: Format, t: Text): Text {
    if |t| <= f.linemax then [] else t[f.linemax..]
  }

  ghost predicate Selected(f: Format, it: Item)
    requires FormatOk(f)
  {
    Verdict(f.rules, false, CleanText(f, Head(f, it.text)), it.around) == PLUS
  }

  /** What is written for a selected line. Only the first linemax bytes are cleaned. */
  ghost function Record(f: Format, it: Item): Text
    requires FormatOk(f)
  {
    if Selected(f, it)
    then it.stamp + f.prefix + CleanText(f, Head(f, it.text)) + Tail(f, it.text) + [NL]
    else []
  }

  ghost function Out(f: Format, items: seq<Item>): Text
    requires FormatOk(f)
  {
    if items == [] then [] else Out(f, items[..|items| - 1]) + Record(f, items[|items| - 1])
  }

  /** The bytes the lines were read from. */
  ghost function Source(items: seq<Item>): Text {
    if items == [] then []
    else
      var it := items[|items| - 1];
      Source(items[..|items| - 1]) + it.text + (if it.ended then [NL] else [])
  }

  /** What reading a line came to: its bytes, whether its newline came, whether exit is due, and how
      many bytes are left in the input buffer. */
  datatype Reading = Reading(text: Text, ended: bool, due: bool, left: nat)

  /** The bytes a line was read from. */
  function Taken(text: Text, ended: bool): Text {
    text + if ended then [NL] else []
  }

  ghost predicate IsStamp(wanted: bool, s: Text) {
    if wanted then exists t :: Normal(t) && s == Label(t) + [SPACE] else s == []
  }

  /** A line's bytes hold no newline; a line cut off by the end of input has linemax bytes or more. */
  ghost predicate ItemOk(f: Format, stamps: bool, it: Item) {
    NL !in it.text && IsStamp(stamps, it.stamp) && (it.ended || |it.text| >= f.linemax)
  }

  /** Every record of at most linemax bytes lies in one file: all of them if there was room for
      one at first, otherwise all but the first. */
  ghost predicate RecordsWhole(f: Format, c: Config, first: Log, items: seq<Item>, m: Log)
    requires FormatOk(f)
  {
    forall k :: 0 <= k < |items| && |Record(f, items[k])| <= f.linemax &&
                (AtBoundary(c, first) || Out(f, items[..k]) != []) ==>
      Whole(m, |Stream(first)| + |Out(f, items[..k])|, |Stream(first)| + |Out(f, items[..k])| + |Record(f, items[k])|)
  }

  /** -r replaces exactly the bytes outside of ' ' to '~', -R those in its set, too. */
  lemma CleanReplaces(f: Format, t: Text, i: nat)
    requires i < |t|
    ensures var fine := ' ' as int <= t[i] <= '~' as int && t[i] !in f.replace;
            CleanText(f, t)[i] == if f.repl == 0 || fine then t[i] else f.repl
    ensures f.repl != 0 && ' ' as int <= f.repl <= '~' as int && f.repl !in f.replace ==>
              ' ' as int <= CleanText(f, t)[i] <= '~' as int && CleanText(f, t)[i] !in f.replace
  {
  }

  /** A record, byte by byte: the time stamp, the prefix, the line, of which only the first linemax bytes are
      cleaned, and a newline. */
  lemma RecordShows(f: Format, it: Item)
    requires FormatOk(f) && Selected(f, it)
    ensures var r, n := Record(f, it), |it.stamp| + |f.prefix|;
            && |r| == n + |it.text| + 1 && r[|r| - 1] == '\n' as int
            && r[..|it.stamp|] == it.stamp && r[|it.stamp|..n] == f.prefix
            && forall i :: 0 <= i < |it.text| ==>
                 r[n + i] == if i < f.linemax then CleanByte(f, it.text[i]) else it.text[i]
  {
    hide Selected, FormatOk, CleanByte;
    var r, n := Record(f, it), |it.stamp| + |f.prefix|;
    var h, t := CleanText(f, Head(f, it.text)), Tail(f, it.text);
    assert r == it.stamp + f.prefix + (h + t) + [NL];
    assert |h + t| == |it.text|;
    forall i | 0 <= i < |it.text|
      ensures r[n + i] == if i < f.linemax then CleanByte(f, it.text[i]) else it.text[i]
    {
      assert r[n + i] == (h + t)[i];
    }
  }

  /** A line is selected exactly if the last rule about selection that accepts its cleaned head is a '+'
      rule, or there is none. */
  lemma SelectedIff(f: Format, it: Item)
    requires FormatOk(f)
    ensures var l := CleanText(f, Head(f, it.text));
            Selected(f, it) <==>
              (forall k :: 0 <= k < |f.rules| ==> !Decides(f.rules, k, false, l, it.around)) ||
              exists k :: 0 <= k < |f.rules| && Decides(f.rules, k, false, l, it.around) &&
                f.rules[k][0] == '+' as int &&
                forall j :: k < j < |f.rules| ==> !Decides(f.rules, j, false, l, it.around)
  {
    hide Decides, VerdictUpTo, CleanText, Head;
    VerdictIsLastWord(f.rules, |f.rules|, false, CleanText(f, Head(f, it.text)), it.around);
  }

  /** The stamp of -t: "@", the time in hexadecimal, a space. */
  lemma StampTells(s: Text)
    requires IsStamp(true, s)
    ensures |s| == 26 && s[0] == '@' as int && IsHex(s[1..25]) && s[25] == ' ' as int
  {
    hide Label, IsHex;
    var t :| Normal(t) && s == Label(t) + [SPACE];
    LabelTells(t);
    assert s[1..25] == Label(t)[1..];
  }

  lemma StampPlain(wanted: bool, s: Text)
    requires IsStamp(wanted, s)
    ensures NL !in s
  {
  }

  lemma CleanPlain(f: Format, t: Text)
    requires NL !in t && f.repl != NL
    ensures NL !in CleanText(f, t)
  {
  }

  lemma RecordIsRecord(f: Format, stamps: bool, it: Item)
    requires FormatOk(f) && f.repl != NL && ItemOk(f, stamps, it) && Record(f, it) != []
    ensures IsRecord(Record(f, it))
  {
    var h := Head(f, it.text);
    StampPlain(stamps, it.stamp);
    CleanPlain(f, h);
    var body := it.stamp + f.prefix + CleanText(f, h) + Tail(f, it.text);
    assert NL !in body;
    assert Record(f, it)[..|Record(f, it)| - 1] == body;
  }

  /** How far the head of a line has been read: its bytes and their cleaned copy, its stamp, whether
      its newline came or (more) the line goes on; stop says that nothing more can be read, sane
      that exit, if it is due, was asked for. */
  ghost predicate HeadRead(f: Format, stamps: bool, text: Text, copy: Text, stamp: Text,
                           ended: bool, more: bool, stop: bool, sane: bool)
  {
    && copy == CleanText(f, text) && NL !in text
    && (ended || text != [] || !stamps ==> IsStamp(stamps, stamp))
    && (more ==> !ended)
    && ((more && text != []) || ended ==> sane)
    && (!more ==> |text| < f.linemax && (ended || stop))
  }

  lemma HeadStarts(f: Format, stamps: bool, sane: bool)
    ensures forall stop :: HeadRead(f, stamps, [], [], [], false, true, stop, sane)
  {
    assert CleanText(f, []) == [];
  }

  lemma HeadGoesOn(f: Format, stamps: bool, text: Text, copy: Text, stamp: Text, ended: bool, stop: bool, sane: bool)
    requires HeadRead(f, stamps, text, copy, stamp, ended, true, stop, sane)
    ensures HeadRead(f, stamps, text, copy, stamp, false, true, false, sane) && !ended
  {
  }

  lemma HeadIsRead(f: Format, stamps: bool, text: Text, copy: Text, stamp: Text,
                   ended: bool, more: bool, stop: bool, sane: bool)
    requires HeadRead(f, stamps, text, copy, stamp, ended, more, stop, sane) && (more ==> |copy| == f.linemax)
    requires |copy| <= f.linemax && f.linemax > 0
    ensures copy == CleanText(f, text) && NL !in text && |copy| == |text|
    ensures ended || text != [] ==> IsStamp(stamps, stamp)
    ensures ended ==> |text| < f.linemax
    ensures ended || |text| == f.linemax ==> sane
    ensures !ended && |text| < f.linemax ==> stop
  {
  }

  // ----- the process -----

  class Logger {
    const dir: LogDir
    const format: Format
    const inst: Text           // the rules as logdir_open stored them
    const timestamp: bool      // -t
    const line: array<byte>    // linemax bytes
    var linelen: nat
    var data: Text             // unread bytes of the input buffer
    var input: Text            // what is still to come on standard input
    var script: seq<Wake>      // what the coming waits bring; after it, anything
    var exitasap: bool
    var rotateasap: bool
    var linecomplete: bool
    ghost var consumed: Text   // bytes taken from the input buffer
    ghost const all: Text      // all of standard input
    ghost var asked: bool      // exit is due before the end of input: SIGTERM came, or read failed

    ghost predicate Valid()
      reads this, dir, dir.trotate
    {
      && dir.Valid()
      && FormatOk(format) && inst == Blob(format.rules)
      && 0 < line.Length == format.linemax == dir.config.linemax < dir.x.Length
      && line != dir.x
      && (exitasap && !asked ==> data == [] && input == [])
      && (asked ==> exitasap)
      && consumed + data + input == all
    }

    constructor (dir: LogDir, format: Format, inst: Text, timestamp: bool, input: Text, script: seq<Wake>)
      requires dir.Valid() && FormatOk(format) && inst == Blob(format.rules)
      requires 0 < format.linemax == dir.config.linemax < dir.x.Length
      ensures Valid() && all == input && consumed == [] && data == [] && !asked && !exitasap && this.script == script
      ensures this.dir == dir && this.format == format && this.timestamp == timestamp && fresh(line)
    {
      this.dir, this.format, this.inst, this.timestamp := dir, format, inst, timestamp;
      line := new byte[format.linemax];
      linelen, data, this.input, consumed, all, this.script := 0, [], input, [], input, script;
      exitasap, rotateasap, linecomplete, asked := false, false, true, false;
    }

    /** buffer_pread up to iopause: flush, a forced rotation, a rotation for age. */
    method Housekeeping() returns (stop: bool, single: bool, ghost look: Taia)
      requires Valid() && !dir.blocked && data == []
      modifies this`rotateasap, dir, dir.trotate
      ensures Valid() && dir.p == 0 && Idle(dir.config, old(dir.Now()), dir.Now())
      ensures !dir.blocked ==> (stop <==> exitasap && linecomplete) && (single <==> exitasap && !linecomplete)
      // SIGALRM rotates; so does age, exactly when the timer is due
      ensures !dir.blocked ==> !rotateasap
      ensures !dir.blocked && old(rotateasap) ==> dir.current == []
      ensures !dir.blocked && !stop ==> TimerAhead(dir.tmax, dir.trotate.Get(), dir.now)
      ensures !dir.blocked && old(dir.p) == 0 && !old(rotateasap) ==>
                if !stop && dir.tmax != 0 && TaiaLess(old(dir.trotate.Get()), look) then dir.current == []
                else dir.Disk() == old(dir.Disk()) && dir.trotate.Get() == old(dir.trotate.Get())
      ensures !dir.blocked && old(dir.p) == 0 && old(dir.current) == [] ==> dir.current == []
    {
      hide InStep, Handed, AtBoundary, NextRotation, FormatOk, Blob;
      ghost var s0 := dir.Now();
      stop, single, look := false, false, dir.now;
      dir.Empty();
      assert dir.x[..0] == [];
      if dir.blocked {
        return;
      }
      ghost var s1 := dir.Now();
      if rotateasap {
        dir.RotateNow();
        IdleOn(dir.config, s0, s1, dir.Now());
        if dir.blocked {
          return;
        }
        rotateasap := false;
      }
      if exitasap {
        if linecomplete {
          stop := true;
          return;
        }
        single := true;
      }
      ghost var s2 := dir.Now();
      look := dir.RotateIfOld();
      IdleOn(dir.config, s0, s2, dir.Now());
    }

    /** buffer_pread from iopause on: signals are let in, then read takes what it likes; it may
        also fail, or be interrupted (r == -1 with intr). */
    method Receive(single: bool) returns (r: int, intr: bool)
      requires data == [] && dir.x.Length > 0
      requires (exitasap && !asked ==> input == []) && (asked ==> exitasap) && consumed + data + input == all
      modifies this`script, this`data, this`input, this`exitasap, this`rotateasap, this`linecomplete, this`asked
      ensures consumed + data + input == all
      ensures old(asked) ==> asked
      ensures old(exitasap) ==> exitasap
      ensures (exitasap && !asked ==> data == [] && input == []) && (asked ==> exitasap)
      ensures r > 0 ==> data != [] && Received(old(input), single, r, data, input, linecomplete)
      ensures r <= 0 ==> data == [] && input == old(input) && linecomplete == old(linecomplete)
      ensures (old(rotateasap) ==> rotateasap) && (old(input) == [] ==> r == 0 && !intr)
      // what the wait brings happens
      ensures old(script) == [] ==> script == []
      ensures old(script) != [] ==>
                var w := old(script)[0];
                && script == old(script)[1..]
                && exitasap == (old(exitasap) || w.term) && rotateasap == (old(rotateasap) || w.alarm)
                && (old(input) != [] ==>
                      if 0 < w.taken <= |old(input)| && w.taken <= (if single then 1 else dir.x.Length)
                      then r == w.taken else r == -1 && intr == w.intr)
    {
      var term: bool, alarm: bool, taken: int;
      term, alarm, taken, intr := *, *, *, *;
      if script != [] {
        term, alarm, taken, intr := script[0].term, script[0].alarm, script[0].taken, script[0].intr;
        script := script[1..];
      }
      if term {
        exitasap, asked := true, true;
      }
      if alarm {
        rotateasap := true;
      }
      r, intr := Read(single, taken, intr);
    }

    /** read(2), as the outside world likes it: taken bytes, or a failure. */
    method Read(single: bool, taken: int, interrupted: bool) returns (r: int, intr: bool)
      requires data == [] && consumed + data + input == all
      modifies this`data, this`input, this`linecomplete
      ensures consumed + data + input == all
      ensures r > 0 ==> data != [] && Received(old(input), single, r, data, input, linecomplete)
      ensures r <= 0 ==> data == [] && input == old(input) && linecomplete == old(linecomplete)
      ensures old(input) == [] ==> r == 0 && !intr
      ensures old(input) != [] ==>
                if 0 < taken <= |old(input)| && taken <= (if single then 1 else dir.x.Length)
                then r == taken else r == -1 && intr == interrupted
    {
      r, intr := -1, interrupted;
      if input == [] {
        r, intr := 0, false;
      } else if 0 < taken <= |input| && taken <= (if single then 1 else dir.x.Length) {
        Regroup(consumed, input[..taken], input[taken..]);
        assert input == input[..taken] + input[taken..];
        assert consumed + data + input == consumed + input;
        r, intr := taken, false;
        data, input := input[..taken], input[taken..];
        linecomplete := data[|data| - 1] == NL;
      }
    }

    /** buffer_pread, tried again while it is interrupted (oneread), filling the empty input buffer. */
    method Fill() returns (r: int)
      requires Valid() && !dir.blocked && data == []
      modifies this`script, this`data, this`input, this`exitasap, this`rotateasap, this`linecomplete
      modifies this`asked, dir, dir.trotate
      ensures Valid() && dir.p == 0 && Idle(dir.config, old(dir.Now()), dir.Now())
      ensures old(asked) ==> asked
      ensures old(exitasap) ==> exitasap
      ensures !dir.blocked && r > 0 ==> data != []
      ensures !dir.blocked && r <= 0 ==> data == []
      ensures old(input) == [] ==> input == []
      ensures !dir.blocked && (old(rotateasap) || (old(dir.p) == 0 && old(dir.current) == [])) ==> dir.current == []
      ensures !dir.blocked && old(exitasap) ==> r <= 1
      ensures !dir.blocked && Leaving([], old(exitasap), old(linecomplete)) ==> r == 0 && input == old(input)
      // an interrupted wait is tried again
      ensures !old(exitasap) && !dir.blocked ==>
                forall k: nat :: ReadsAfter(old(script), k, old(input), dir.x.Length) ==> r == old(script)[k].taken
      ensures TermWithAll(old(script), old(data), old(input), old(exitasap), dir.x.Length) ==>
                dir.blocked || (exitasap && input == [])
    {
      hide InStep, Normal, Blob, FormatOk, Idle;
      ghost var s0 := dir.Now();
      IdleNothing(dir.config, s0);
      var patience: int := *;
      ghost var n := 0;
      while true
        invariant n <= |old(script)| && script == old(script)[n..]
        invariant forall k: nat :: ReadsAfter(old(script), k, old(input), dir.x.Length) && !old(exitasap) ==>
                    n <= k && !exitasap && input == old(input)
        invariant Valid() && !dir.blocked && data == [] && Idle(dir.config, s0, dir.Now())
        invariant old(input) == [] ==> input == []
        invariant old(rotateasap) || (old(dir.p) == 0 && old(dir.current) == []) ==>
                    rotateasap || (dir.p == 0 && dir.current == [])
        invariant Leaving([], old(exitasap), old(linecomplete)) ==> linecomplete && input == old(input)
        invariant TermWithAll(old(script), [], old(input), old(exitasap), dir.x.Length) ==>
                    (exitasap && input == []) || (script == old(script) && input == old(input) && !exitasap)
        invariant old(asked) ==> asked
        invariant old(exitasap) ==> exitasap
        decreases |script|, patience
      {
        ghost var s1 := dir.Now();
        ghost var look;
        var stop, single;
        stop, single, look := Housekeeping();
        IdleOn(dir.config, s0, s1, dir.Now());
        r := 0;
        if dir.blocked || stop {
          return;
        }
        var intr;
        r, intr := Receive(single);
        if !intr || r > 0 {
          return;
        }
        if script == [] {
          if patience <= 0 {
            return;
          }
          patience := patience - 1;
        }
        n := if n < |old(script)| then n + 1 else n;
      }
    }

    /** buffer_GETC on the input buffer. */
    method GetC() returns (got: bool, ch: byte)
      requires Valid() && !dir.blocked
      modifies this`script, this`data, this`input, this`exitasap, this`rotateasap, this`linecomplete
      modifies this`asked, this`consumed, dir, dir.trotate
      ensures Valid() && Idle(dir.config, old(dir.Now()), dir.Now())
      ensures old(asked) ==> asked
      ensures old(exitasap) ==> exitasap
      ensures got ==> !dir.blocked && consumed == old(consumed) + [ch] && [ch] + (data + input) == old(data + input)
      ensures got && exitasap ==> asked
      ensures !got ==> consumed == old(consumed)
      ensures !got && !dir.blocked ==> data == []
      ensures old(input) == [] ==> input == []
      ensures (old(data) == [] && old(rotateasap)) || (old(dir.p) == 0 && old(dir.current) == []) ==>
                dir.blocked || dir.current == []
      ensures !dir.blocked && Leaving(old(data), old(exitasap), old(linecomplete)) ==> !got && input == old(input)
      ensures TermWithAll(old(script), old(data), old(input), old(exitasap), dir.x.Length) ==>
                dir.blocked || (exitasap && input == [])
    {
      hide InStep, Idle;
      got, ch := false, 0;
      IdleNothing(dir.config, dir.Now());
      ghost var d0, i0, c0 := data, input, consumed;
      if data == [] {
        var r := Fill();
        if dir.blocked || r <= 0 {
          return;
        }
      }
      got, ch := true, data[0];
      assert data == [ch] + data[1..];
      Regroup(consumed, [ch], data[1..]);
      data := data[1..];
      consumed := consumed + [ch];
      assert c0 + ([ch] + data) + input == all;
      SameRest(c0, d0, i0, [ch] + data, input);
      Regroup([ch], data, input);
    }

    /** What follows a buffer_GETC that got nothing. */
    method NoMore()
      requires Valid() && data == []
      modifies this`exitasap, this`asked
      ensures Valid() && exitasap && (old(asked) ==> asked)
    {
      exitasap := true;
      asked := asked || input != [];
    }

    /** One turn of the first loop over a line: more says that a byte of the line was stored,
        ended that its newline was read instead. */
    method ReadByte(stamp0: Text, ghost text0: Text) returns (more: bool, ended: bool, stamp: Text, ghost text: Text)
      requires Valid() && !dir.blocked && dir.p == 0 && linelen < line.Length
      requires HeadRead(format, timestamp, text0, line[..linelen], stamp0, false, true, false, exitasap ==> asked)
      modifies this`linelen, this`script, this`data, this`input, this`exitasap, this`rotateasap, this`linecomplete
      modifies this`asked, this`consumed, line, dir, dir.trotate
      ensures Valid() && dir.p == 0 && Idle(dir.config, old(dir.Now()), dir.Now())
      ensures (old(asked) ==> asked) && (old(exitasap) ==> exitasap)
      ensures linelen == old(linelen) + (if more then 1 else 0)
      ensures HeadRead(format, timestamp, text, line[..linelen], stamp, ended, more,
                       dir.blocked || (exitasap && data == []), exitasap ==> asked)
      ensures consumed == old(consumed) + text[|text0|..] + (if ended then [NL] else [])
      ensures text0 <= text && (more || ended ==> !dir.blocked)
      ensures old(input) == [] ==> input == []
      ensures Reached(old(AimOf(script, data, input, exitasap, rotateasap, linecomplete, dir.x.Length)),
                      dir.blocked, exitasap, input, dir.current, text[|text0|..], ended, more)
      ensures old(dir.current) == [] ==> dir.blocked || dir.current == []
    {
      hide InStep, Handed, AtBoundary, Normal, Blob, IsStamp, FormatOk;
      assert dir.x[..0] == [];
      more, ended, stamp, text := false, false, stamp0, text0;
      var got, ch := GetC();
      if !got {
        if !dir.blocked {
          NoMore();
        }
        return;
      }
      if linelen == 0 && timestamp {
        stamp := Stamp();
      }
      if ch == NL {
        ended := true;
        return;
      }
      Keep(ch, text);
      more, text := true, text + [ch];
    }

    /** The same, in terms of the line so far. */
    method ReadOn(stamp0: Text, ghost text0: Text, ghost s0: State, ghost c0: Text, ghost aim: Aim, ghost waited: bool)
      returns (more: bool, ended: bool, stamp: Text, ghost text: Text)
      requires Valid() && !dir.blocked && dir.p == 0 && linelen < line.Length
      requires Idle(dir.config, s0, dir.Now()) && consumed == c0 + text0
      requires HeadRead(format, timestamp, text0, line[..linelen], stamp0, false, true, false, exitasap ==> asked)
      requires if waited then Reached(aim, false, exitasap, input, dir.current, text0, false, true)
               else text0 == [] &&
                    aim == AimOf(script, data, input, exitasap, rotateasap, linecomplete, dir.x.Length)
      modifies this`linelen, this`script, this`data, this`input, this`exitasap, this`rotateasap, this`linecomplete
      modifies this`asked, this`consumed, line, dir, dir.trotate
      ensures Valid() && dir.p == 0 && Idle(dir.config, s0, dir.Now())
      ensures (old(asked) ==> asked) && (old(exitasap) ==> exitasap)
      ensures linelen == old(linelen) + (if more then 1 else 0) && (more || ended ==> !dir.blocked)
      ensures consumed == c0 + text + (if ended then [NL] else [])
      ensures HeadRead(format, timestamp, text, line[..linelen], stamp, ended, more,
                       dir.blocked || (exitasap && data == []), exitasap ==> asked)
      ensures Reached(aim, dir.blocked, exitasap, input, dir.current, text, ended, more)
    {
      hide InStep, Normal, Blob, IsStamp, FormatOk, CleanText, Idle, HeadRead, TermWithAll, Leaving, Reached, AimOf;
      ghost var s1, e1, i1, c1 := dir.Now(), exitasap, input, dir.current;
      ghost var aim1 := AimOf(script, data, input, exitasap, rotateasap, linecomplete, dir.x.Length);
      more, ended, stamp, text := ReadByte(stamp0, text0);
      AimReached(aim, waited, e1, i1, c1, text0, aim1, dir.blocked, exitasap, input, dir.current, text, ended, more);
      IdleOn(dir.config, s0, s1, dir.Now());
      assert text == text0 + text[|text0|..];
    }

    /** The first loop over a line: up to its newline or linemax bytes, cleaned into `line`. */
    method ReadLine() returns (ended: bool, stamp: Text, ghost text: Text)
      requires Valid() && !dir.blocked && dir.p == 0
      modifies this, line, dir, dir.trotate
      ensures Valid() && dir.p == 0 && Idle(dir.config, old(dir.Now()), dir.Now())
      ensures old(asked) ==> asked
      ensures old(exitasap) ==> exitasap
      ensures consumed == old(consumed) + text + (if ended then [NL] else [])
      ensures NL !in text && |text| == linelen <= format.linemax
      ensures line[..linelen] == CleanText(format, text)
      ensures ended || linelen > 0 ==> IsStamp(timestamp, stamp)
      ensures ended ==> !dir.blocked && linelen < format.linemax
      ensures ended || linelen == format.linemax ==> (exitasap ==> asked)
      ensures !ended && linelen < format.linemax ==> dir.blocked || (exitasap && data == [])
      ensures Reached(old(AimOf(script, data, input, exitasap, rotateasap, linecomplete, dir.x.Length)),
                      dir.blocked, exitasap, input, dir.current, text, ended, false)
    {
      HeadStarts(format, timestamp, exitasap ==> asked);
      hide InStep, Normal, Blob, IsStamp, FormatOk, CleanText, Idle, HeadRead, TermWithAll, Leaving, Reached, AimOf;
      ghost var s0, c0 := dir.Now(), consumed;
      IdleNothing(dir.config, s0);
      ended, stamp, text := false, [], [];
      linelen := 0;
      assert line[..0] == [];
      var more := true;
      ghost var waited := false;
      ghost var aim := AimOf(script, data, input, exitasap, rotateasap, linecomplete, dir.x.Length);
      while linelen < line.Length && more
        invariant Valid() && dir.p == 0 && Idle(dir.config, s0, dir.Now())
        invariant (old(asked) ==> asked) && (old(exitasap) ==> exitasap)
        invariant linelen <= line.Length && (more || ended ==> !dir.blocked)
        invariant consumed == c0 + text + (if ended then [NL] else [])
        invariant HeadRead(format, timestamp, text, line[..linelen], stamp, ended, more,
                           dir.blocked || (exitasap && data == []), exitasap ==> asked)
        invariant if waited then Reached(aim, dir.blocked, exitasap, input, dir.current, text, ended, more)
                  else more && linelen == 0 && text == [] &&
                       aim == AimOf(script, data, input, exitasap, rotateasap, linecomplete, dir.x.Length)
        decreases line.Length - linelen, more
      {
        HeadGoesOn(format, timestamp, text, line[..linelen], stamp, ended,
                   dir.blocked || (exitasap && data == []), exitasap ==> asked);
        more, ended, stamp, text := ReadOn(stamp, text, s0, c0, aim, waited);
        waited := true;
      }
      AimDone(aim, dir.blocked, exitasap, input, dir.current, text, ended, more);
      HeadIsRead(format, timestamp, text, line[..linelen], stamp, ended, more,
                 dir.blocked || (exitasap && data == []), exitasap ==> asked);
    }

    /** Adds a cleaned byte to `line`. */
    method Keep(ch: byte, ghost text: Text)
      requires linelen < line.Length && |text| == linelen && line[..linelen] == CleanText(format, text)
      modifies this`linelen, line
      ensures linelen == old(linelen) + 1 && line[..linelen] == CleanText(format, text + [ch])
    {
      line[linelen] := CleanByte(format, ch);
      assert line[..linelen + 1] == CleanText(format, text + [ch]);
      linelen := linelen + 1;
    }

    /** The time stamp of -t: the label of the time, then a space. */
    method Stamp() returns (stamp: Text)
      ensures IsStamp(true, stamp)
    {
      var buf := new byte[30];
      var now := TaiaNow();
      FmtTaia(buf, now);
      buf[25] := SPACE;
      buf[26] := 0;
      assert buf[..26] == buf[..25] + [SPACE];
      stamp := buf[..26];
    }

    /** What a record's first part amounts to. */
    ghost function Front(stamp: Text): Text
      reads this, line
      requires linelen <= line.Length
    {
      stamp + format.prefix + line[..linelen]
    }

    /** Puts the time stamp, the prefix and the first linemax bytes. */
    method PutFront(stamp: Text)
      requires Valid() && !dir.blocked && dir.p == 0 && linelen <= line.Length
      modifies dir, dir.trotate, dir.x
      ensures Valid() && Handed(dir.config, old(dir.Now()), Front(stamp), dir.Now())
      ensures |Front(stamp)| < format.linemax ==>
                !dir.blocked && dir.Disk() == old(dir.Disk()) && dir.x[..dir.p] == Front(stamp)
    {
      hide InStep, Handed, Normal, Blob, FormatOk;
      ghost var s0, f := dir.Now(), Front(stamp);
      assert dir.x[..0] == [];
      dir.Put(stamp);
      if dir.blocked {
        HandedCut(dir.config, s0, stamp, dir.Now(), f);
        return;
      }
      ghost var s1 := dir.Now();
      dir.Put(format.prefix);
      HandedOn(dir.config, s0, stamp, s1, format.prefix, dir.Now());
      if dir.blocked {
        HandedCut(dir.config, s0, stamp + format.prefix, dir.Now(), f);
        return;
      }
      ghost var s2 := dir.Now();
      dir.Put(line[..linelen]);
      HandedOn(dir.config, s0, stamp + format.prefix, s2, line[..linelen], dir.Now());
    }

    /** The second loop over a line of linemax bytes or more: the rest of it, as it is read.
        Waiting for input may flush what has been put and rotate the file. */
    method CopyTail(write: bool) returns (ended: bool, ghost tail: Text)
      requires Valid() && !dir.blocked
      modifies this`script, this`data, this`input, this`exitasap, this`rotateasap, this`linecomplete
      modifies this`asked, this`consumed, dir, dir.trotate, dir.x
      ensures Valid()
      ensures write ==> Handed(dir.config, old(dir.Now()), tail, dir.Now())
      ensures !write ==> Idle(dir.config, old(dir.Now()), dir.Now())
      ensures old(asked) ==> asked
      ensures old(exitasap) ==> exitasap
      ensures NL !in tail && consumed == old(consumed) + tail + (if ended then [NL] else [])
      ensures !dir.blocked && !ended ==> exitasap && data == []
    {
      hide InStep, Handed, Normal, Blob, FormatOk, AtBoundary, Idle;
      ghost var s0, c := dir.Now(), dir.config;
      IdleNothing(c, s0);
      HandedNothing(c, s0);
      ended, tail := false, [];
      while true
        invariant Valid() && !dir.blocked && !ended
        invariant write ==> Handed(c, s0, tail, dir.Now())
        invariant !write ==> Idle(c, s0, dir.Now())
        invariant old(asked) ==> asked
        invariant old(exitasap) ==> exitasap
        invariant NL !in tail && consumed == old(consumed) + tail
        decreases |data| + |input|
      {
        ghost var s1, c1 := dir.Now(), consumed;
        var got, ch := GetC();
        Waited(c, s0, write, tail, s1, dir.Now());
        if !got {
          if !dir.blocked {
            NoMore();
          }
          return;
        }
        assert |c1 + [ch]| == |c1| + 1;
        if ch == NL {
          ended := true;
          return;
        }
        if write {
          ghost var s2 := dir.Now();
          dir.PutC(ch);
          HandedOn(c, s0, tail, s2, [ch], dir.Now());
        }
        tail := tail + [ch];
        if dir.blocked {
          return;
        }
      }
    }

    /** The newline and the flush that end a record. */
    method EndRecord()
      requires Valid() && !dir.blocked
      modifies dir, dir.trotate, dir.x
      ensures Valid() && Handed(dir.config, old(dir.Now()), [NL], dir.Now()) && (!dir.blocked ==> dir.p == 0)
      ensures !dir.blocked && SizesFit(dir.config) ==> AtBoundary(dir.config, dir.Disk())
      ensures var s := old(dir.x[..dir.p]) + [NL];
              !dir.blocked && old(dir.p) < dir.x.Length && FitsWhole(dir.config, old(dir.Disk()), s) ==>
                Whole(dir.Disk(), |old(Stream(dir.Disk()))|, |old(Stream(dir.Disk()))| + |s|)
    {
      hide InStep, Handed, Normal, Blob, FormatOk, AtBoundary, IsRecord, Whole, StoppedPartway, FitsWhole, Stream;
      ghost var s0 := dir.Now();
      dir.PutC(NL);
      if dir.blocked {
        return;
      }
      ghost var s1 := dir.Now();
      EndsInNewline(dir.config, s0, s1);
      ghost var answers := dir.Flush();
      assert dir.x[..0] == [];
      if dir.blocked {
        FlushStopped(dir.config, s1, dir.Disk());
      } else {
        FlushHanded(dir.config, s1, answers);
        if SizesFit(dir.config) {
          NewlineMakesRoom(dir.config, s1.disk, s1.pending, answers);
        }
        if old(dir.p) < dir.x.Length && FitsWhole(dir.config, s0.disk, s1.pending) {
          FlushedWhole(dir.config, s0.disk, s1.pending, answers);
        }
      }
      HandedOn(dir.config, s0, [NL], s1, [], dir.Now());
      assert [NL] + [] == [NL];
    }

    /** A selected line whose newline came within linemax bytes. */
    method WriteShort(stamp: Text)
      requires Valid() && !dir.blocked && dir.p == 0 && linelen <= line.Length
      modifies dir, dir.trotate, dir.x
      ensures Valid() && Handed(dir.config, old(dir.Now()), Front(stamp) + [NL], dir.Now())
      ensures !dir.blocked ==> dir.p == 0
      ensures !dir.blocked && SizesFit(dir.config) ==> AtBoundary(dir.config, dir.Disk())
      ensures var s := Front(stamp) + [NL];
              !dir.blocked && FitsWhole(dir.config, old(dir.Disk()), s) ==>
                Whole(dir.Disk(), |old(Stream(dir.Disk()))|, |old(Stream(dir.Disk()))| + |s|)
    {
      hide InStep, Handed, Normal, Blob, FormatOk, AtBoundary, IsRecord, Whole, Stream;
      ghost var s0, f := dir.Now(), Front(stamp);
      PutFront(stamp);
      if dir.blocked {
        HandedCut(dir.config, s0, f, dir.Now(), f + [NL]);
        return;
      }
      ghost var s1 := dir.Now();
      EndRecord();
      HandedOn(dir.config, s0, f, s1, [NL], dir.Now());
    }

    /** A line of linemax bytes or more, copied if it is selected. */
    method WriteLong(write: bool, stamp: Text, ghost text: Text, ghost around: Around) returns (ghost it: Item)
      requires Valid() && !dir.blocked && dir.p == 0
      requires NL !in text && |text| == linelen == line.Length && line[..linelen] == CleanText(format, text)
      requires IsStamp(timestamp, stamp)
      requires write <==> Verdict(format.rules, false, CleanText(format, text), around) == PLUS
      modifies this`script, this`data, this`input, this`exitasap, this`rotateasap, this`linecomplete
      modifies this`asked, this`consumed, dir, dir.trotate, dir.x
      ensures Valid() && Handed(dir.config, old(dir.Now()), Record(format, it), dir.Now())
      ensures !dir.blocked ==> dir.p == 0
      ensures old(asked) ==> asked
      ensures old(exitasap) ==> exitasap
      ensures ItemOk(format, timestamp, it) && text <= it.text
      ensures consumed == old(consumed) + it.text[|text|..] + (if it.ended then [NL] else [])
      ensures !dir.blocked && !it.ended ==> exitasap && data == []
      ensures write <==> Record(format, it) != []
      ensures write ==> |Record(format, it)| > format.linemax
      ensures !dir.blocked && write && SizesFit(dir.config) ==> AtBoundary(dir.config, dir.Disk())
      ensures !write && AtBoundary(dir.config, old(dir.Disk())) ==> AtBoundary(dir.config, dir.Disk())
    {
      hide InStep, Handed, Normal, Blob, AtBoundary, IsRecord, Whole, IsStamp, CleanText, Verdict, FitsWhole, Stream;
      ghost var s0, f, c := dir.Now(), Front(stamp), dir.config;
      assert dir.x[..0] == [];
      HandedNothing(c, s0);
      it := Item(text, false, stamp, around);
      assert text + [] == text && text[|text|..] == [] && consumed + [] + [] == consumed;
      RecordParts(format, it, text, []);
      if write {
        PutFront(stamp);
        if dir.blocked {
          assert f + [NL] == Record(format, it);
          HandedCut(c, s0, f, dir.Now(), f + [NL]);
          return;
        }
      }
      ghost var s1 := dir.Now();
      var ended;
      ghost var tail;
      ended, tail := CopyTail(write);
      it := Item(text + tail, ended, stamp, around);
      assert it.text[|text|..] == tail;
      RecordParts(format, it, text, tail);
      if write {
        HandedOn(c, s0, f, s1, tail, dir.Now());
        assert f + tail + [NL] == Record(format, it);
        if dir.blocked {
          HandedCut(c, s0, f + tail, dir.Now(), f + tail + [NL]);
          return;
        }
        ghost var s2 := dir.Now();
        EndRecord();
        HandedOn(c, s0, f + tail, s2, [NL], dir.Now());
      }
    }

    /** Everything from the match on: one line goes into the log, or is passed over. */
    method LogLine(ended0: bool, stamp: Text, ghost text: Text) returns (ghost it: Item)
      requires Valid() && !dir.blocked && dir.p == 0
      requires if ended0 then linelen < line.Length else linelen == line.Length
      requires NL !in text && |text| == linelen && line[..linelen] == CleanText(format, text)
      requires IsStamp(timestamp, stamp)
      modifies this`script, this`data, this`input, this`exitasap, this`rotateasap, this`linecomplete
      modifies this`asked, this`consumed, dir, dir.trotate, dir.x
      ensures Valid() && Handed(dir.config, old(dir.Now()), Record(format, it), dir.Now())
      ensures !dir.blocked ==> dir.p == 0
      ensures old(asked) ==> asked
      ensures old(exitasap) ==> exitasap
      ensures ItemOk(format, timestamp, it) && text <= it.text && (ended0 ==> it.ended && it.text == text)
      ensures consumed == old(consumed) + it.text[|text|..] + (if it.ended && !ended0 then [NL] else [])
      ensures !dir.blocked && !it.ended ==> exitasap && data == []
      ensures !dir.blocked && SizesFit(dir.config) && Record(format, it) != [] ==> AtBoundary(dir.config, dir.Disk())
      ensures !dir.blocked && Record(format, it) == [] && AtBoundary(dir.config, old(dir.Disk())) ==>
                AtBoundary(dir.config, dir.Disk())
      ensures !dir.blocked && FitsWhole(dir.config, old(dir.Disk()), Record(format, it)) ==>
                Whole(dir.Disk(), |old(Stream(dir.Disk()))|, |old(Stream(dir.Disk()))| + |Record(format, it)|)
    {
      hide InStep, Handed, Normal, Blob, AtBoundary, Whole, IsStamp, CleanText, Verdict, Stream;
      var beyond: byte, wild: bool := *, *;
      if linelen < line.Length {
        beyond := line[linelen];
      }
      var around := Around(beyond, wild);
      var verdict, verdicterr := LogMatch(inst, format.rules, line[..linelen], around);
      var write := verdict == PLUS;
      if ended0 {
        it := Item(text, true, stamp, around);
        assert text[|text|..] == [] && consumed + [] + [] == consumed && text + [] == text;
        RecordParts(format, it, text, []);
        if write {
          assert Front(stamp) + [NL] == Record(format, it);
          WriteShort(stamp);
        } else {
          HandedNothing(dir.config, dir.Now());
        }
      } else {
        it := WriteLong(write, stamp, text, around);
      }
    }

    ghost function Now(): View
      reads this, dir
    {
      View(dir.Disk(), consumed, asked, exitasap)
    }

    /** A turn up to the test whether to leave. */
    method ReadHead()
      returns (leave: bool, ended: bool, stamp: Text, ghost text: Text, ghost lost: Text, ghost read: Reading)
      requires Valid() && !dir.blocked && dir.p == 0
      modifies this, line, dir, dir.trotate
      ensures Valid() && dir.p == 0 && Idle(dir.config, old(dir.Now()), dir.Now())
      ensures (old(asked) ==> asked) && (old(exitasap) ==> exitasap)
      ensures consumed == old(consumed) + text + (if ended then [NL] else [])
      ensures NL !in text && |text| == linelen <= format.linemax && line[..linelen] == CleanText(format, text)
      ensures read == Reading(text, ended, exitasap, |data|) && lost == Taken(text, ended)
      ensures leave <==> dir.blocked || (exitasap && data == [])
      ensures leave ==> LineStuck(format, timestamp, dir.config, old(Now()), [], lost, Now())
      ensures leave && !dir.blocked ==> LastLine(format, dir.config, old(Now()), lost, Now())
      ensures !leave ==> IsStamp(timestamp, stamp) && (ended || text != [])
      ensures !leave ==> if ended then linelen < format.linemax else linelen == format.linemax
      ensures ended || !leave ==> !dir.blocked && (exitasap ==> asked)
      ensures LosesLine(old(script), old(data), old(input), old(exitasap), format.linemax) && !dir.blocked ==>
                leave && ended && lost == old(input)
      ensures Leaving(old(data), old(exitasap), old(linecomplete)) && !dir.blocked ==>
                leave && lost == [] && input == old(input)
      ensures old(data) == [] && old(rotateasap) && !dir.blocked ==> dir.current == []
    {
      hide InStep, Normal, Blob, IsStamp, CleanText, FormatOk, Grown, LastLine, LineStuck, Stream, Idle, Taken;
      hide LastBytes, LosesLine, IsRecord, TermWithAll, Leaving;
      ghost var s0, m := dir.Now(), Now();
      assert dir.x[..0] == [];
      ended, stamp, text := ReadLine();
      read := Reading(text, ended, exitasap, |data|);
      leave, lost := dir.blocked || (exitasap && data == []), Taken(text, ended);
      TakenBytes(format, text, ended);
      if LosesLine(old(script), old(data), old(input), old(exitasap), format.linemax) && !dir.blocked {
        LineLosesAll(old(script), old(data), old(input), old(exitasap), format.linemax, dir.x.Length);
        OneLine(old(input), old(consumed), text, ended, data, input, format.linemax);
      }
      if leave {
        if !dir.blocked {
          DueBytes(format, text, ended, Now());
        }
        LeftIdle(format, timestamp, dir.config, s0, dir.Now(), m, lost, Now());
      }
    }

    /** One turn of the record loop: a line is read and logged, or (done) the process leaves. It
        leaves exactly if exit is due and the line took the last bytes of the input buffer; a
        finished line is lost then, too. */
    method Turn() returns (done: bool, ghost it: Item, ghost lost: Text, ghost read: Reading)
      requires Valid() && !dir.blocked && dir.p == 0
      modifies this, line, dir, dir.trotate, dir.x
      ensures Valid() && (!dir.blocked ==> dir.p == 0)
      ensures !done && !dir.blocked ==> LineLogged(format, timestamp, dir.config, old(Now()), it, Now())
      ensures done && !dir.blocked ==> LastLine(format, dir.config, old(Now()), lost, Now()) && data == []
      ensures dir.blocked ==>
                LineStuck(format, timestamp, dir.config, old(Now()), if done then [] else [it], lost, Now())
      ensures !dir.blocked ==> (done <==> read.due && read.left == 0)
      ensures done ==> lost == Taken(read.text, read.ended)
      ensures !done ==> lost == [] && read.text <= it.text && (read.ended ==> it.ended && it.text == read.text)
      ensures NL !in read.text && (read.ended && read.due ==> asked)
      // SIGTERM that comes with the last line of the input loses it
      ensures LosesLine(old(script), old(data), old(input), old(exitasap), format.linemax) && !dir.blocked ==>
                done && read.ended && lost == old(input)
      // between two lines the process leaves at once if exit is due, and reads nothing more
      ensures Leaving(old(data), old(exitasap), old(linecomplete)) && !dir.blocked ==>
                done && lost == [] && input == old(input)
    {
      hide InStep, Handed, Normal, Blob, AtBoundary, Whole, IsStamp, CleanText, Record, FormatOk, SizesFit;
      hide Grown, LineLogged, LastLine, LineStuck, Stream, ItemOk, Idle, FitsWhole, Taken, LosesLine, Leaving;
      ghost var s0, m := dir.Now(), Now();
      assert dir.x[..0] == [];
      it := Item([], true, [], Around(0, false));
      ghost var text;
      var ended, stamp;
      done, ended, stamp, text, lost, read := ReadHead();
      if done {
        return;
      }
      ghost var s1, m1 := dir.Now(), Now();
      lost := [];
      it := LogLine(ended, stamp, text);
      LeftLogged(format, timestamp, dir.config, s0, s1, dir.Now(), m, m1, text, ended, it, Now());
    }

    /** The record loop of main. For a process that hangs in a write or a wait, stuck is the line it
        hangs in, as far as it was read, if it is past reading its head. */
    method Run() returns (ghost items: seq<Item>, ghost stuck: seq<Item>, ghost lost: Text, ghost last: Reading)
      requires Valid() && !dir.blocked && dir.p == 0 && consumed == [] && !exitasap
      modifies this, line, dir, dir.trotate, dir.x
      ensures Valid() && (forall it :: it in items + stuck ==> ItemOk(format, timestamp, it))
      ensures |stuck| <= 1 && (stuck != [] ==> dir.blocked && lost == [])
      // the bytes ever written to the files are what was there and the records of the lines read, in
      // order; of the line a hanging process hangs in there may be a first part
      ensures old(Stream(dir.Disk())) + Out(format, items) <= Stream(dir.Disk()) <=
              old(Stream(dir.Disk())) + Out(format, items + stuck)
      // the lines are all that was read, but for the last bytes
      ensures consumed == Source(items + stuck) + lost
      ensures |lost| <= format.linemax && (lost != [] ==> NL !in lost[..|lost| - 1])
      // the process leaves in a line exactly if exit is due and its bytes were the last buffered; a
      // finished line is lost if and only if that happens at its newline
      ensures !dir.blocked ==> data == [] && last.due && last.left == 0
      ensures !dir.blocked ==> lost == Taken(last.text, last.ended) && (last.ended ==> asked)
      ensures !dir.blocked ==> (NL in lost <==> last.ended)
      // a process that is not asked to exit logs every finished line
      ensures !dir.blocked && !asked ==> consumed == all && NL !in lost && |lost| < format.linemax
      ensures !dir.blocked && !asked ==> forall k :: 0 <= k < |items| - 1 ==> items[k].ended
      // if the clock never goes back, the files still there are the end of all these bytes
      ensures KeepsTheEnd(dir.files0, dir.Disk(), dir.nmax, dir.files)
      // no file outgrows sizemax, and records are not cut
      ensures Bounded(dir.config, old(dir.Disk())) ==> Bounded(dir.config, dir.Disk())
      ensures SizesFit(dir.config) && format.repl != NL ==>
                RecordsWhole(format, dir.config, old(dir.Disk()), items, dir.Disk())
    {
      ghost var d0, c := dir.Disk(), dir.config;
      items, stuck, lost, last := [], [], [], Reading([], false, false, 0);
      ProgressStart(format, timestamp, c, Now());
      hide *;
      var done := false;
      while !done
        invariant Valid() && !dir.blocked && dir.p == 0
        invariant Progress(format, timestamp, c, d0, items, lost, Now())
        invariant done ==> data == [] && LastBytes(format, lost, Now()) && LastRead(last, lost, asked)
        invariant !done ==> lost == []
        decreases !done, |all| - |consumed|
      {
        ghost var m := Now();
        ghost var it, read;
        done, it, lost, read := Turn();
        if dir.blocked {
          stuck := if done then [] else [it];
          ProgressStopped(format, timestamp, c, d0, items, m, stuck, lost, Now());
          GrownBounded(c, d0, dir.Disk());
          dir.OnDisk();
          return;
        }
        if done {
          last := read;
          LineLast(format, c, m, read, lost, Now());
          ProgressDone(format, timestamp, c, d0, items, m, lost, Now());
        } else {
          ProgressStep(format, timestamp, c, d0, items, m, it, Now());
          items := items + [it];
        }
      }
      assert items + [] == items;
      dir.OnDisk();
      ProgressMeans(format, timestamp, c, d0, items, lost, Now());
      LastMeans(format, last, lost, Now());
      SourceAll(items, lost, Now(), all, input);
    }
  }

  lemma LineLosesAll(script: seq<Wake>, data: Text, input: Text, exitasap: bool, linemax: nat, room: nat)
    requires LosesLine(script, data, input, exitasap, linemax) && linemax <= room
    ensures TermWithAll(script, data, input, exitasap, room) && IsRecord(input) && |input| <= linemax && data == []
  {
    hide IsRecord;
  }

  /** A line that is all there is left is read to its newline, if nothing more is to come. */
  lemma OneLine(l: Text, c: Text, text: Text, ended: bool, data: Text, input: Text, linemax: nat)
    requires IsRecord(l) && |l| <= linemax && input == []
    requires c + [] + l == c + text + (if ended then [NL] else []) + data + input
    requires NL !in text && |text| <= linemax && (!ended && |text| < linemax ==> data == [])
    ensures ended && data == [] && Taken(text, ended) == l
  {
    var n, b := |l| - 1, Taken(text, ended);
    Regroup(c, text, if ended then [NL] else []);
    assert c + [] == c && c + b + data + input == c + b + data;
    assert c + l == c + b + data;
    SameRest(c, [], l, b, data);
    assert [] + l == l;
    assert forall i :: 0 <= i < n ==> l[i] == l[..n][i];
    assert forall i :: 0 <= i < |text| ==> text[i] == l[i];
    assert l[n] == NL;
    assert ended ==> l[|text|] == NL;
    assert |text| <= n;
    assert ended;
    assert b + data == l && |b| == |l|;
  }

  lemma SameRest(c: Text, d: Text, i: Text, e: Text, j: Text)
    requires c + d + i == c + e + j
    ensures d + i == e + j
  {
    assert d + i == (c + d + i)[|c|..] && e + j == (c + e + j)[|c|..];
  }

  lemma OneMore(f: Format, items: seq<Item>, it: Item)
    requires FormatOk(f)
    ensures Out(f, items + [it]) == Out(f, items) + Record(f, it)
    ensures Source(items + [it]) == Source(items) + it.text + (if it.ended then [NL] else [])
  {
    assert (items + [it])[..|items|] == items;
  }

  lemma {:induction false} OutUpTo(f: Format, items: seq<Item>, k: nat)
    requires FormatOk(f) && k < |items|
    ensures |Out(f, items[..k])| + |Record(f, items[k])| <= |Out(f, items)|
  {
    hide Record, FormatOk;
    var pre, n := items[..|items| - 1], |items| - 1;
    if k < n {
      OutUpTo(f, pre, k);
      assert pre[..k] == items[..k];
    }
  }

  /** Records stay whole while the files only grow. */
  lemma WholeSoFar(f: Format, c: Config, first: Log, items: seq<Item>, m: Log, n: Log)
    requires FormatOk(f) && Extends(m, n) && |Stream(m)| == |Stream(first)| + |Out(f, items)|
    ensures RecordsWhole(f, c, first, items, m) ==> RecordsWhole(f, c, first, items, n)
  {
    if RecordsWhole(f, c, first, items, m) {
      forall k | 0 <= k < |items| && |Record(f, items[k])| <= f.linemax &&
                 (AtBoundary(c, first) || Out(f, items[..k]) != [])
        ensures Whole(n, |Stream(first)| + |Out(f, items[..k])|,
                      |Stream(first)| + |Out(f, items[..k])| + |Record(f, items[k])|)
      {
        OutUpTo(f, items, k);
        WholeForever(m, n, |Stream(first)| + |Out(f, items[..k])|,
                     |Stream(first)| + |Out(f, items[..k])| + |Record(f, items[k])|);
      }
    }
  }

  lemma WholeNothing(l: Log, a: nat)
    ensures Whole(l, a, a)
  {
  }

  lemma OneMoreWhole(f: Format, stamps: bool, c: Config, first: Log, items: seq<Item>, it: Item, m: Log, n: Log)
    requires FormatOk(f) && f.repl != NL && ItemOk(f, stamps, it) && f.linemax == c.linemax
    requires Extends(m, n) && |Stream(m)| == |Stream(first)| + |Out(f, items)|
    requires RecordsWhole(f, c, first, items, m)
    requires AtBoundary(c, first) || Out(f, items) != [] ==> AtBoundary(c, m)
    requires FitsWhole(c, m, Record(f, it)) ==> Whole(n, |Stream(m)|, |Stream(m)| + |Record(f, it)|)
    ensures RecordsWhole(f, c, first, items + [it], n)
  {
    hide Record, FormatOk, Whole, AtBoundary, Extends, Stream, IsRecord, ItemOk, Out;
    WholeSoFar(f, c, first, items, m, n);
    var all := items + [it];
    forall k | 0 <= k < |all| && |Record(f, all[k])| <= f.linemax &&
               (AtBoundary(c, first) || Out(f, all[..k]) != [])
      ensures Whole(n, |Stream(first)| + |Out(f, all[..k])|,
                    |Stream(first)| + |Out(f, all[..k])| + |Record(f, all[k])|)
    {
      if k < |items| {
        assert all[..k] == items[..k];
        assert all[k] == items[k];
      } else {
        assert all[..k] == items;
        assert all[k] == it;
        WholeNothing(n, |Stream(m)|);
        if Record(f, it) != [] {
          RecordIsRecord(f, stamps, it);
        }
      }
    }
  }

  // ----- waiting for input -----

  /** What happens to the log while the process waits for input: nothing is put, but pending
      bytes are flushed and files may be rotated. */
  ghost predicate Idle(c: Config, s: State, t: State) {
    && Handed(c, s, [], t)
    && (s.pending == [] ==> t.pending == [])
    && (s.pending == [] && AtBoundary(c, s.disk) ==> AtBoundary(c, t.disk))
  }

  lemma IdleNothing(c: Config, s: State)
    requires !s.blocked
    ensures Idle(c, s, s)
  {
    HandedNothing(c, s);
  }

  lemma IdleOn(c: Config, s: State, t: State, u: State)
    requires Idle(c, s, t) && !t.blocked && Idle(c, t, u)
    ensures Idle(c, s, u)
  {
    hide Handed, AtBoundary;
    HandedOn(c, s, [], t, [], u);
    ghost var none: Text := [];
    assert none + none == none;
  }

  lemma Waited(c: Config, s: State, write: bool, tail: Text, t: State, u: State)
    requires if write then Handed(c, s, tail, t) else Idle(c, s, t)
    requires !t.blocked && Idle(c, t, u)
    ensures if write then Handed(c, s, tail, u) else Idle(c, s, u)
  {
    if write {
      HandedOn(c, s, tail, t, [], u);
      assert tail + [] == tail;
    } else {
      IdleOn(c, s, t, u);
    }
  }

  /** After PutC(NL) what is to be flushed ends in a newline, and is the whole record if it fits. */
  lemma EndsInNewline(c: Config, s: State, t: State)
    requires Handed(c, s, [NL], t) && !t.blocked && t.pending != []
    ensures t.pending[|t.pending| - 1] == NL
  {
    assert Total(t)[|Total(t)| - 1] == NL;
  }

  // ----- the record loop, by what it leaves behind -----

  datatype View = View(disk: Log, consumed: Text, asked: bool, exitasap: bool)

  /** Between m and n one line was read and logged. */
  ghost predicate LineLogged(f: Format, stamps: bool, c: Config, m: View, it: Item, n: View)
    requires FormatOk(f)
  {
    && ItemOk(f, stamps, it)
    && n.consumed == m.consumed + it.text + (if it.ended then [NL] else [])
    && |n.consumed| > |m.consumed|
    && (n.asked || (!m.exitasap && (it.ended || n.exitasap)))
    && (m.asked ==> n.asked)
    && Stream(n.disk) == Stream(m.disk) + Record(f, it)
    && Grown(c, m.disk, n.disk)
    && (SizesFit(c) && (AtBoundary(c, m.disk) || Record(f, it) != []) ==> AtBoundary(c, n.disk))
    && (FitsWhole(c, m.disk, Record(f, it)) ==>
          Whole(n.disk, |Stream(m.disk)|, |Stream(m.disk)| + |Record(f, it)|))
  }

  /** Since m the process has been hanging: while it waited for the bytes lost, or in the line stuck,
      of whose record a first part is on disk. */
  ghost predicate LineStuck(f: Format, stamps: bool, c: Config, m: View, stuck: seq<Item>, lost: Text, n: View)
    requires FormatOk(f)
  {
    && |stuck| <= 1 && (stuck != [] ==> lost == [])
    && (forall it :: it in stuck ==> ItemOk(f, stamps, it))
    && n.consumed == m.consumed + Source(stuck) + lost
    && |lost| <= f.linemax && (lost != [] ==> NL !in lost[..|lost| - 1])
    && Stream(n.disk) <= Stream(m.disk) + Out(f, stuck)
    && Grown(c, m.disk, n.disk)
  }

  lemma TakenBytes(f: Format, text: Text, ended: bool)
    requires NL !in text && |text| <= f.linemax && (ended ==> |text| < f.linemax)
    ensures var b := Taken(text, ended);
            |b| <= f.linemax && (b != [] ==> NL !in b[..|b| - 1]) && b == text + (if ended then [NL] else [])
  {
    var b := Taken(text, ended);
    assert b != [] ==> b[..|b| - 1] <= text;
  }

  lemma DueBytes(f: Format, text: Text, ended: bool, n: View)
    requires NL !in text && |text| <= f.linemax && (ended ==> |text| < f.linemax)
    requires n.exitasap && (ended || |text| == f.linemax ==> n.asked)
    ensures LastBytes(f, Taken(text, ended), n)
  {
    TakenBytes(f, text, ended);
  }

  /** What a line that is not logged may look like. */
  ghost predicate LastBytes(f: Format, lost: Text, n: View) {
    && |lost| <= f.linemax && (lost != [] ==> NL !in lost[..|lost| - 1])
    && (n.asked || (NL !in lost && |lost| < f.linemax))
    && n.exitasap
  }

  /** Between m and n the last line was read and not logged. */
  ghost predicate LastLine(f: Format, c: Config, m: View, lost: Text, n: View) {
    && n.consumed == m.consumed + lost && (m.asked ==> n.asked) && LastBytes(f, lost, n)
    && (!n.asked && m.exitasap ==> n.exitasap)
    && Stream(n.disk) == Stream(m.disk) && Grown(c, m.disk, n.disk)
    && (AtBoundary(c, m.disk) ==> AtBoundary(c, n.disk))
  }

  ghost predicate Grown(c: Config, l: Log, m: Log) {
    Extends(l, m) && (Bounded(c, l) ==> Bounded(c, m))
  }

  /** The last line was read when exit was due, and took the last bytes there were. */
  ghost predicate LastRead(last: Reading, lost: Text, asked: bool) {
    && last.due && last.left == 0 && lost == Taken(last.text, last.ended)
    && NL !in last.text && (last.ended ==> asked)
  }

  lemma LineLast(f: Format, c: Config, m: View, last: Reading, lost: Text, n: View)
    requires LastLine(f, c, m, lost, n)
    requires last.due && last.left == 0 && lost == Taken(last.text, last.ended)
    requires NL !in last.text && (last.ended && last.due ==> n.asked)
    ensures LastBytes(f, lost, n) && LastRead(last, lost, n.asked)
  {
    hide Grown, AtBoundary, Stream;
  }

  lemma LastMeans(f: Format, last: Reading, lost: Text, n: View)
    requires LastBytes(f, lost, n) && LastRead(last, lost, n.asked)
    ensures |lost| <= f.linemax && (lost != [] ==> NL !in lost[..|lost| - 1])
    ensures last.due && last.left == 0 && lost == Taken(last.text, last.ended) && (last.ended ==> n.asked)
    ensures NL in lost <==> last.ended
    ensures !n.asked ==> NL !in lost && |lost| < f.linemax
    ensures n.exitasap
  {
  }

  lemma SourceAll(items: seq<Item>, lost: Text, n: View, all: Text, input: Text)
    requires n.consumed + [] + input == all
    ensures input == [] ==> n.consumed == all
  {
  }

  /** The items have been read and logged, nothing else has, and the last bytes read are lost. */
  ghost predicate Progress(f: Format, stamps: bool, c: Config, first: Log, items: seq<Item>, lost: Text, m: View) {
    && FormatOk(f) && f.linemax == c.linemax
    && Stream(m.disk) == Stream(first) + Out(f, items)
    && m.consumed == Source(items) + lost
    && (forall it :: it in items ==> ItemOk(f, stamps, it))
    && Grown(c, first, m.disk)
    && (SizesFit(c) && (AtBoundary(c, first) || Out(f, items) != []) ==> AtBoundary(c, m.disk))
    && (SizesFit(c) && f.repl != NL ==> RecordsWhole(f, c, first, items, m.disk))
    && (!m.asked ==> forall k :: 0 <= k < |items| && (k < |items| - 1 || !m.exitasap) ==> items[k].ended)
  }

  lemma LeftIdle(f: Format, stamps: bool, c: Config, s: State, t: State, m: View, lost: Text, n: View)
    requires FormatOk(f) && Idle(c, s, t) && s.pending == [] && m.disk == s.disk && n.disk == t.disk
    requires n.consumed == m.consumed + lost && (m.asked ==> n.asked)
    requires |lost| <= f.linemax && (lost != [] ==> NL !in lost[..|lost| - 1])
    requires t.blocked || LastBytes(f, lost, n)
    ensures !t.blocked ==> LastLine(f, c, m, lost, n)
    ensures LineStuck(f, stamps, c, m, [], lost, n)
  {
    assert Stream(s.disk) + [] == Stream(s.disk) && Stream(t.disk) + [] == Stream(t.disk);
    assert Source([]) == [] && m.consumed + [] == m.consumed;
  }

  lemma LeftLogged(f: Format, stamps: bool, c: Config, s: State, t: State, u: State, m: View, k: View,
                   text: Text, ended: bool, it: Item, n: View)
    requires FormatOk(f) && ItemOk(f, stamps, it)
    requires Idle(c, s, t) && !t.blocked && s.pending == [] && Handed(c, t, Record(f, it), u)
    requires m.disk == s.disk && n.disk == u.disk && (!u.blocked ==> u.pending == [])
    requires k.consumed == m.consumed + text + (if ended then [NL] else [])
    requires text <= it.text && (ended ==> it.ended && it.text == text) && (ended || text != [])
    requires n.consumed == k.consumed + it.text[|text|..] + (if it.ended && !ended then [NL] else [])
    requires (m.asked ==> k.asked) && (k.asked ==> n.asked)
    requires (m.exitasap ==> k.exitasap) && (k.exitasap ==> k.asked)
    requires !u.blocked ==>
               && (it.ended || n.exitasap)
               && (SizesFit(c) && Record(f, it) != [] ==> AtBoundary(c, u.disk))
               && (Record(f, it) == [] && AtBoundary(c, t.disk) ==> AtBoundary(c, u.disk))
               && (FitsWhole(c, t.disk, Record(f, it)) ==>
                     Whole(u.disk, |Stream(t.disk)|, |Stream(t.disk)| + |Record(f, it)|))
    ensures !u.blocked ==> LineLogged(f, stamps, c, m, it, n)
    ensures LineStuck(f, stamps, c, m, [it], [], n)
  {
    hide Extends, Bounded, AtBoundary, Whole, Record, ItemOk, IsRecord, Out, Source, Stream, LineStuck;
    Regroup(text, it.text[|text|..], if it.ended && !ended then [NL] else []);
    assert text + it.text[|text|..] == it.text;
    assert n.consumed == m.consumed + it.text + (if it.ended then [NL] else []);
    LeftInLine(f, stamps, c, s, t, u, m, it, n);
    assert Total(u) == Stream(u.disk) + u.pending && Total(t) == Stream(t.disk) + t.pending;
    LeftStream(c, s, t, u, Record(f, it));
  }

  lemma LeftStream(c: Config, s: State, t: State, u: State, r: Text)
    requires Idle(c, s, t) && !t.blocked && s.pending == [] && Handed(c, t, r, u)
    ensures t.pending == [] && Stream(t.disk) == Stream(s.disk) && Grown(c, s.disk, u.disk)
    ensures if u.blocked then Stream(u.disk) <= Stream(s.disk) + r
            else u.pending == [] ==> Stream(u.disk) == Stream(s.disk) + r
  {
    hide Bounded, AtBoundary, Stream, Extends;
    assert Total(s) + [] == Stream(s.disk) + [] == Stream(s.disk);
    assert Total(t) == Stream(t.disk) + [] == Stream(t.disk);
    assert u.pending == [] ==> Total(u) == Stream(u.disk) + [] == Stream(u.disk);
    ExtendsTransitive(s.disk, t.disk, u.disk);
  }

  lemma LeftInLine(f: Format, stamps: bool, c: Config, s: State, t: State, u: State, m: View, it: Item, n: View)
    requires FormatOk(f) && ItemOk(f, stamps, it)
    requires Idle(c, s, t) && !t.blocked && s.pending == [] && Handed(c, t, Record(f, it), u)
    requires m.disk == s.disk && n.disk == u.disk && (!u.blocked ==> u.pending == [])
    requires n.consumed == m.consumed + it.text + (if it.ended then [NL] else [])
    ensures LineStuck(f, stamps, c, m, [it], [], n)
  {
    OneItem(f, it);
    LeftStream(c, s, t, u, Record(f, it));
    hide Idle, Handed, Extends, Bounded, AtBoundary, Record, ItemOk, Out, Source, Stream;
    assert n.consumed == m.consumed + Source([it]) + [];
  }

  lemma ProgressMeans(f: Format, stamps: bool, c: Config, first: Log, items: seq<Item>, lost: Text, m: View)
    requires Progress(f, stamps, c, first, items, lost, m)
    ensures FormatOk(f) && Stream(first) + Out(f, items) == Stream(m.disk) && m.consumed == Source(items) + lost
    ensures forall it :: it in items ==> ItemOk(f, stamps, it)
    ensures Bounded(c, first) ==> Bounded(c, m.disk)
    ensures SizesFit(c) && f.repl != NL ==> RecordsWhole(f, c, first, items, m.disk)
    ensures !m.asked ==> forall k :: 0 <= k < |items| - 1 ==> items[k].ended
  {
    hide Extends, Bounded, AtBoundary, Record, ItemOk, Source, Out, FormatOk, RecordsWhole, Stream;
  }

  lemma ProgressStart(f: Format, stamps: bool, c: Config, m: View)
    requires FormatOk(f) && f.linemax == c.linemax && m.consumed == []
    ensures Progress(f, stamps, c, m.disk, [], [], m)
  {
    SelfExtends(m.disk);
    assert Stream(m.disk) + [] == Stream(m.disk);
  }

  lemma ProgressStep(f: Format, stamps: bool, c: Config, first: Log, items: seq<Item>, m: View, it: Item, n: View)
    requires Progress(f, stamps, c, first, items, [], m) && LineLogged(f, stamps, c, m, it, n)
    ensures Progress(f, stamps, c, first, items + [it], [], n)
  {
    hide Extends, Bounded, AtBoundary, Whole, Record, ItemOk, Source, Out, FitsWhole, RecordsWhole, FormatOk, Stream;
    OneMore(f, items, it);
    Regroup(Stream(first), Out(f, items), Record(f, it));
    assert m.consumed + it.text + (if it.ended then [NL] else []) == Source(items + [it]) + [];
    ExtendsTransitive(first, m.disk, n.disk);
    if SizesFit(c) && f.repl != NL {
      OneMoreWhole(f, stamps, c, first, items, it, m.disk, n.disk);
    }
  }

  lemma ProgressDone(f: Format, stamps: bool, c: Config, first: Log, items: seq<Item>, m: View, lost: Text, n: View)
    requires Progress(f, stamps, c, first, items, [], m) && LastLine(f, c, m, lost, n)
    ensures Progress(f, stamps, c, first, items, lost, n)
  {
    hide Bounded, AtBoundary, Whole, Record, ItemOk, Source, Out, FormatOk, Extends, Stream, RecordsWhole;
    ExtendsTransitive(first, m.disk, n.disk);
    WholeSoFar(f, c, first, items, m.disk, n.disk);
  }

  lemma OneItem(f: Format, it: Item)
    requires FormatOk(f)
    ensures Out(f, [it]) == Record(f, it) && Source([it]) == it.text + (if it.ended then [NL] else [])
  {
    OneMore(f, [], it);
    assert [] + [it] == [it];
  }

  /** What holds when the process stops for good in the middle of a line. */
  lemma ProgressStopped(f: Format, stamps: bool, c: Config, first: Log, items: seq<Item>, m: View,
                        stuck: seq<Item>, lost: Text, n: View)
    requires Progress(f, stamps, c, first, items, [], m) && LineStuck(f, stamps, c, m, stuck, lost, n)
    ensures Stream(first) + Out(f, items) <= Stream(n.disk) <= Stream(first) + Out(f, items + stuck)
    ensures n.consumed == Source(items + stuck) + lost && |stuck| <= 1 && (stuck != [] ==> lost == [])
    ensures |lost| <= f.linemax && (lost != [] ==> NL !in lost[..|lost| - 1])
    ensures forall it :: it in items + stuck ==> ItemOk(f, stamps, it)
    ensures Grown(c, first, n.disk)
    ensures SizesFit(c) && f.repl != NL ==> RecordsWhole(f, c, first, items, n.disk)
  {
    ExtendsTransitive(first, m.disk, n.disk);
    assert Stream(m.disk) <= Stream(n.disk);
    WholeSoFar(f, c, first, items, m.disk, n.disk);
    OneMoreOrNone(f, items, stuck);
    hide Bounded, AtBoundary, Whole, Record, ItemOk, Source, Out, FormatOk, Extends, Stream, RecordsWhole;
    Regroup(Stream(first), Out(f, items), Out(f, stuck));
    Regroup(Source(items), Source(stuck), lost);
    assert m.consumed == Source(items);
    assert n.consumed == Source(items) + Source(stuck) + lost;
  }

  lemma GrownBounded(c: Config, l: Log, m: Log)
    requires Grown(c, l, m)
    ensures Bounded(c, l) ==> Bounded(c, m)
  {
    hide Bounded;
  }

  lemma OneMoreOrNone(f: Format, items: seq<Item>, more: seq<Item>)
    requires FormatOk(f) && |more| <= 1
    ensures Out(f, items + more) == Out(f, items) + Out(f, more)
    ensures Source(items + more) == Source(items) + Source(more)
  {
    if more == [] {
      assert items + more == items;
    } else {
      hide Record, FormatOk, Out, Source;
      var it := more[0];
      assert more == [it];
      OneMore(f, items, it);
      OneItem(f, it);
      Regroup(Source(items), it.text, if it.ended then [NL] else []);
    }
  }

  lemma RecordParts(f: Format, it: Item, text: Text, tail: Text)
    requires FormatOk(f) && it.text == text + tail
    requires |text| <= f.linemax && (tail == [] || |text| == f.linemax)
    ensures Head(f, it.text) == text && Tail(f, it.text) == tail
    ensures Selected(f, it) <==> Verdict(f.rules, false, CleanText(f, text), it.around) == PLUS
    ensures Selected(f, it) ==>
              Record(f, it) == it.stamp + f.prefix + CleanText(f, text) + tail + [NL]
  {
    if tail == [] {
      assert it.text == text;
    } else {
      assert it.text[..f.linemax] == text && it.text[f.linemax..] == tail;
    }
  }

  /** sizemax is at least linemax (or zero: no rotation for size). */
  ghost predicate SizesFit(c: Config) {
    c.sizemax == 0 || c.linemax <= c.sizemax
  }

  /** s is a record of at most linemax bytes, and there is room for one. */
  ghost predicate FitsWhole(c: Config, l: Log, s: Text) {
    IsRecord(s) && |s| <= c.linemax && AtBoundary(c, l)
  }

  lemma FlushedWhole(c: Config, l: Log, s: Text, aa: seq<Answer>)
    requires FitsWhole(c, l, s) && Accepted(c, l, s, aa)
    ensures Whole(After(c, l, s, aa), |Stream(l)|, |Stream(l)| + |s|)
  {
    RecordInOnePiece(c, l, s, aa);
    OnePieceIsWhole(l, s, After(c, l, s, aa));
  }
}
