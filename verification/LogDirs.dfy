/** svlogd's log directory and libunix's output buffer in front of it. The buffer's write
    callback is buffer_pwrite, which may call rotate, which flushes the same buffer again. */
module LogDirs {
  import opened Bytes
  import opened Tai
  import opened Labels
  import opened LogSpec
  import opened Retention

  const BUFFER_OUTSIZE: nat := 8192

  /** libtime/taia_now.c: whatever the clock says, in microseconds plus 500 nanoseconds. */
  method TaiaNow() returns (t: Taia)
    ensures Normal(t) && t.atto == 0 && t.nano % 1000 == 500
  {
    var sec: u64 := *;
    var usec: nat := *;
    t := Taia(sec, 1000 * (usec % 1_000_000) + 500, 0);
  }

  ghost function NextRotation(due: Taia, now: Taia, tmax: u32): (t: Taia)
    requires Normal(due) && Normal(now)
    ensures Normal(t)
  {
    if tmax != 0 && TaiaLess(due, now) then AtValue(Value(now) + tmax * 1_000_000_000_000_000_000)
    else due
  }

  /** The timer runs on until it is due; then it is set tmax seconds ahead. */
  lemma NextRotationIs(due: Taia, now: Taia, tmax: u32)
    requires Normal(due) && Normal(now)
    ensures tmax == 0 || !TaiaLess(due, now) ==> NextRotation(due, now, tmax) == due
    ensures tmax != 0 && TaiaLess(due, now) && now.sec + tmax < 0x1_0000_0000_0000_0000 ==>
              NextRotation(due, now, tmax) == Taia(now.sec + tmax, now.nano, now.atto)
  {
    if tmax != 0 && TaiaLess(due, now) && now.sec + tmax < 0x1_0000_0000_0000_0000 {
      var v, t := Value(now) + tmax * 1_000_000_000_000_000_000, Taia(now.sec + tmax, now.nano, now.atto);
      assert Value(t) == v;
      ModIs(v, v, SPAN);
      ValueInjective(t, AtValue(v));
    }
  }

  lemma NotDueYet(due: Taia, now: Taia, tmax: u32)
    requires Normal(due) && Normal(now)
    ensures tmax != 0 && Value(now) + tmax * 1_000_000_000_000_000_000 < SPAN ==>
              !TaiaLess(NextRotation(due, now, tmax), now)
  {
    if tmax != 0 && TaiaLess(due, now) && Value(now) + tmax * 1_000_000_000_000_000_000 < SPAN {
      ModIs(Value(now) + tmax * 1_000_000_000_000_000_000, Value(now) + tmax * 1_000_000_000_000_000_000, SPAN);
    }
  }

  class LogDir {
    const config: Config
    const nmax: u64
    const tmax: u32
    const x: array<byte>       // the buffer's space; its size n is x.Length
    const trotate: TaiaCell
    var p: nat                 // bytes in the buffer
    var size: nat              // bytes in `current`
    var now: Taia              // the last clock reading
    var files: Files           // the directory, except `current`
    var current: Text
    var blocked: bool          // some retry loop (write, a free name) never ends: nothing happens any more
    ghost const files0: Files  // the directory at first
    ghost var history: seq<Old>

    ghost predicate Valid()
      reads this, trotate
    {
      && p <= x.Length
      && size == |current|
      && Normal(trotate.Get()) && Normal(now)
      && (forall f :: f in files ==> 0 !in f)
      && InStep(files0, history, nmax, files)
    }

    ghost function Disk(): Log
      reads this
    {
      Log(history, current)
    }

    /** If the clock never went back, what is on disk is the end of everything ever there. */
    lemma OnDisk()
      requires Valid()
      ensures KeepsTheEnd(files0, Disk(), nmax, files)
    {
      hide InStep, KeepsTheEnd;
      DiskKeepsTheEnd(files0, Disk(), nmax, files);
    }

    /** logdir_open at time start, with `current` and the old files as they were left. */
    constructor (config: Config, nmax: u64, tmax: u32, buflen: nat, files: Files, current: Text, start: Taia)
      requires (forall f :: f in files ==> 0 !in f) && Normal(start)
      ensures Valid() && !blocked && p == 0 && x.Length == buflen && fresh(x) && fresh(trotate)
      ensures Disk() == Log([], current) && files0 == files
      ensures this.config == config && this.nmax == nmax && this.tmax == tmax
      ensures tmax != 0 ==> trotate.Get() == AtValue(Value(start) + tmax * 1_000_000_000_000_000_000)
    {
      this.config, this.nmax, this.tmax := config, nmax, tmax;
      this.files, this.current, this.size := files, current, |current|;
      files0, history := files, [];
      x := new byte[buflen];
      p, blocked := 0, false;
      now := start;
      trotate := new TaiaCell(Taia(tmax, 0, 0));
      new;
      var n := new TaiaCell(start);
      TaiaAdd(trotate, n, trotate);
    }

    /** rmoldest: in whatever order readdir lists the directory. */
    method RmOldest()
      requires forall f :: f in files ==> 0 !in f
      modifies this`files
      ensures files == Purged(old(files), nmax)
    {
      ghost var d := files;
      ghost var seen: set<Text> := {};
      var oldest: Text := [65];
      var n := 0;
      var todo := files.Keys;
      while todo != {}
        invariant todo <= d.Keys
        invariant forall f :: f in seen <==> f in d && f !in todo && IsOldFile(f)
        invariant n == |seen|
        invariant forall f :: f in files <==> f in d && (f in todo || !Leftover(f))
        invariant forall f :: f in files ==> files[f] == d[f]
        invariant if seen == {} then oldest == [65] else IsOldest(oldest, seen)
        decreases todo
      {
        var f :| f in todo;
        todo := todo - {f};
        if Stamped(f) {
          if f[26] == LETTER_T {
            files := files - {f};
          } else {
            n := n + 1;
            assert 0 !in oldest by {
              if seen != {} { assert oldest in d; }
            }
            var diff := StrDiff(f, oldest);
            ghost var before := oldest;
            if diff < 0 {
              oldest := f;
            }
            NewOldest(f, before, seen, oldest);
            assert f !in seen;
            seen := seen + {f};
          }
        }
      }
      assert seen == OldFiles(d);
      assert files == WithoutLeftovers(d);
      if nmax != 0 && n > nmax {
        ghost var g :| IsOldest(g, OldFiles(d)) && Purged(d, nmax) == WithoutLeftovers(d) - {g};
        OneOldest(g, oldest, OldFiles(d));
        if oldest[0] == AT {
          files := files - {oldest};
        }
      }
    }

    /** The loop of rotate that reads the clock until the file name made from it is free. The
        number of attempts is up to the outside world; it may never end. */
    method FreeName() returns (fn: Text)
      modifies this`now, this`blocked
      ensures Normal(now)
      ensures !blocked ==> fn == FileName(now) && fn !in files && 0 !in fn
    {
      var fnsave := new byte[28];
      fnsave[25] := 46;
      fnsave[26] := 115;
      fnsave[27] := 0;
      var patience: nat := *;
      while true
        invariant fnsave[25] == 46 && fnsave[26] == 115
        decreases patience
      {
        now := TaiaNow();
        FmtTaia(fnsave, now);
        assert fnsave[25] == fnsave[25..][0] && fnsave[26] == fnsave[25..][1];
        fn := fnsave[..27];
        assert fn == fnsave[..25] + [46, 115];
        LabelNulFree(now);
        if fn !in files {
          return;
        }
        if patience == 0 {
          blocked := true;
          return;
        }
        patience := patience - 1;
      }
    }

    /** rotate, the timer: a rotation that is due moves the next one tmax seconds on. */
    method Reschedule()
      requires Normal(trotate.Get()) && Normal(now)
      modifies trotate
      ensures trotate.Get() == NextRotation(old(trotate.Get()), now, tmax)
    {
      if tmax != 0 && TaiaLess(trotate.Get(), now) {
        trotate.sec, trotate.nano, trotate.atto := tmax, 0, 0;
        var n := new TaiaCell(now);
        TaiaAdd(trotate, n, trotate);
      }
    }

    /** rotate, the renaming of `current`, the opening of a new one, and rmoldest. */
    method RenameCurrent(fn: Text)
      requires Valid() && current != []
      requires fn == FileName(now) && fn !in files && 0 !in fn
      modifies this`files, this`history, this`current, this`size
      ensures Valid() && Disk() == Rotated(old(Disk()), now)
    {
      hide FileName, Purged, Normal;
      ghost var h := history;
      files := files[fn := current];
      history := history + [Old(now, current)];
      current := [];
      size := 0;
      PurgedSubset(files, nmax);
      RmOldest();
      assert history[..|history| - 1] == h;
    }

    /** rotate. Every caller has emptied the buffer first, so the nested flush writes nothing. */
    method Rotate()
      requires Valid() && p == 0 && !blocked
      modifies this, trotate
      ensures Valid() && p == 0
      ensures blocked ==> Disk() == old(Disk()) && trotate.Get() == old(trotate.Get())
      ensures !blocked ==> Disk() == Rotated(old(Disk()), now)
      ensures !blocked ==> trotate.Get() == NextRotation(old(trotate.Get()), now, tmax)
      decreases p, 3
    {
      hide InStep;
      var fn := FreeName();
      if blocked {
        return;
      }
      Reschedule();
      if size > 0 {
        ghost var answers := Flush();
        RenameCurrent(fn);
      }
    }

    /** write(2) on `current`, tried again until it takes something. */
    method Write(s: Text) returns (i: nat)
      requires s != [] && !blocked
      modifies this`current, this`blocked
      ensures i <= |s| && current == old(current) + s[..i]
      ensures i == 0 <==> blocked
    {
      var taken: int := *;
      i := if 0 <= taken <= |s| then taken else 0;
      blocked := i == 0;
      current := current + s[..i];
    }

    /** buffer_pwrite up to the call of write: rotates a full `current`, and offers no more than fits. */
    method MakeRoom(want: nat) returns (len: nat, ghost before: Taia)
      requires Valid() && p == 0 && !blocked && want > 0
      modifies this, trotate
      ensures Valid() && p == 0
      ensures blocked ==> Disk() == old(Disk())
      ensures !blocked ==> Disk() == Opened(config, old(Disk()), before)
      ensures !blocked ==> 0 < len == Offered(config, Disk(), want) <= want
      decreases p, 4, 0
    {
      hide InStep;
      before := now;
      len := want;
      if config.sizemax != 0 {
        if size >= config.sizemax {
          Rotate();
          before := now;
          if blocked {
            return;
          }
        }
        if len > Wrap64(config.sizemax - size) {
          len := Wrap64(config.sizemax - size);
        }
      }
    }

    /** buffer_pwrite after the call of write: the early rotation. */
    method Settle(last: byte)
      requires Valid() && p == 0 && !blocked
      modifies this, trotate
      ensures Valid() && p == 0
      ensures blocked ==> Disk() == old(Disk())
      ensures !blocked ==> Disk() == Settled(config, old(Disk()), last, now)
      decreases p, 4, 0
    {
      hide InStep;
      if config.sizemax != 0 {
        if last == NL {
          if size >= Wrap64(config.sizemax - config.linemax) {
            Rotate();
          }
        }
      }
    }

    /** buffer_pwrite, the buffer's write callback. */
    method PWrite(s: Text) returns (i: int, ghost a: Answer)
      requires Valid() && p == 0 && !blocked && s != []
      modifies this, trotate
      ensures Valid() && p == 0
      ensures !blocked ==>
                Takes(config, old(Disk()), s, a) && i == a.count &&
                Disk() == Wrote(config, old(Disk()), s, a)
      ensures blocked ==> StoppedInWrite(config, old(Disk()), s, Disk())
      decreases p, 4, 1
    {
      hide InStep;
      ghost var d0 := Disk();
      i, a := 0, Answer(0, now, now);
      ghost var before;
      var len;
      len, before := MakeRoom(|s|);
      if blocked {
        return;
      }
      i := Write(s[..len]);
      assert Disk() == Cut(config, d0, s, before, i);
      if blocked {
        return;
      }
      size := size + i;
      Settle(s[i - 1]);
      a := Answer(i, before, now);
    }

    /** allwrite over buffer_pwrite. */
    method AllWrite(buf: Text) returns (ghost answers: seq<Answer>)
      requires Valid() && p == 0 && !blocked
      modifies this, trotate
      ensures Valid() && p == 0
      ensures !blocked ==>
                Accepted(config, old(Disk()), buf, answers) &&
                Disk() == After(config, old(Disk()), buf, answers)
      ensures blocked ==> StoppedPartway(config, old(Disk()), buf, Disk())
      decreases p, 5
    {
      hide InStep;
      answers := [];
      ghost var d := Disk();
      var rest := buf;
      while |rest| > 0
        invariant Valid() && p == 0 && !blocked
        invariant Partway(config, d, buf, answers, Disk(), rest)
        decreases |rest|
      {
        ghost var d1, r1 := Disk(), rest;
        ghost var a;
        var w;
        w, a := PWrite(rest);
        if blocked {
          return;
        }
        rest := rest[w..];
        OneStepFurther(config, d, buf, answers, d1, r1, a);
        answers := answers + [a];
      }
      AllTheWay(config, d, buf, answers, Disk());
    }

    /** buffer_flush. */
    method Flush() returns (ghost answers: seq<Answer>)
      requires Valid() && !blocked
      modifies this, trotate
      ensures Valid() && p == 0
      ensures old(p) == 0 ==> unchanged(this) && unchanged(trotate)
      ensures !blocked ==>
                Accepted(config, old(Disk()), old(x[..p]), answers) &&
                Disk() == After(config, old(Disk()), old(x[..p]), answers)
      ensures blocked ==> StoppedPartway(config, old(Disk()), old(x[..p]), Disk())
      decreases p, 2
    {
      var n := p;
      if n == 0 {
        answers := [];
        return;
      }
      p := 0;
      answers := AllWrite(x[..n]);
    }

    ghost function Now(): State
      reads this, x
      requires p <= x.Length
    {
      State(Disk(), x[..p], blocked)
    }

    /** Flush, in the caller's terms. */
    method Empty()
      requires Valid() && !blocked
      modifies this, trotate
      ensures Valid() && p == 0 && Handed(config, old(Now()), [], Now())
      ensures old(p) == 0 ==> !blocked && Disk() == old(Disk()) && trotate.Get() == old(trotate.Get())
    {
      hide InStep, Handed, StoppedPartway;
      ghost var s := Now();
      ghost var answers := Flush();
      assert x[..0] == [];
      if blocked {
        FlushStopped(config, s, Disk());
      } else {
        FlushHanded(config, s, answers);
      }
    }

    /** A rotation asked for from outside, in the caller's terms. */
    method RotateNow()
      requires Valid() && !blocked && p == 0
      modifies this, trotate
      ensures Valid() && p == 0 && Handed(config, old(Now()), [], Now())
      ensures AtBoundary(config, old(Disk())) ==> AtBoundary(config, Disk())
      ensures !blocked ==> trotate.Get() == NextRotation(old(trotate.Get()), now, tmax)
      ensures !blocked ==> current == []
      ensures !blocked ==> history == old(history) + if old(current) == [] then [] else [Old(now, old(current))]
    {
      hide InStep, Extends, Bounded, NextRotation;
      ghost var d := Disk();
      Rotate();
      RotatedExtends(d, now);
      RotatedStream(d, now);
      RotatedBounded(config, d, now);
      SelfExtends(d);
    }

    /** buffer_pread's look at the age of `current`: it is rotated exactly if the timer is due. */
    method RotateIfOld() returns (ghost look: Taia)
      requires Valid() && !blocked && p == 0
      modifies this, trotate
      ensures Valid() && p == 0 && Handed(config, old(Now()), [], Now())
      ensures AtBoundary(config, old(Disk())) ==> AtBoundary(config, Disk())
      ensures !blocked && tmax != 0 && Value(now) + tmax * 1_000_000_000_000_000_000 < SPAN ==>
                !TaiaLess(trotate.Get(), now)
      ensures !blocked && tmax != 0 && TaiaLess(old(trotate.Get()), look) ==> current == []
      ensures tmax == 0 || !TaiaLess(old(trotate.Get()), look) ==>
                !blocked && Disk() == old(Disk()) && now == look && trotate.Get() == old(trotate.Get())
      ensures !blocked && old(current) == [] ==> current == []
    {
      hide InStep, Handed, NextRotation;
      HandedNothing(config, Now());
      now := TaiaNow();
      look := now;
      if tmax != 0 && TaiaLess(trotate.Get(), now) {
        ghost var due := trotate.Get();
        RotateNow();
        NotDueYet(due, now, tmax);
      }
    }

    /** allwrite past the empty buffer, in the caller's terms. */
    method WriteThrough(buf: Text)
      requires Valid() && !blocked && p == 0
      modifies this, trotate
      ensures Valid() && p == 0 && Handed(config, old(Now()), buf, Now())
    {
      hide InStep, Handed, StoppedPartway;
      ghost var s := Now();
      assert x[..0] == [];
      ghost var answers := AllWrite(buf);
      if blocked {
        WriteStopped(config, s, buf, Disk());
      } else {
        WriteHanded(config, s, buf, answers);
      }
    }

    /** byte_copy into the free part of the buffer. */
    method Append(buf: Text)
      requires Valid() && !blocked && p + |buf| <= x.Length
      modifies this`p, x
      ensures Valid() && p == old(p) + |buf| && x[..p] == old(x[..p]) + buf
      ensures Handed(config, old(Now()), buf, Now())
    {
      ghost var s := Now();
      var i := 0;
      while i < |buf|
        invariant 0 <= i <= |buf| && p == old(p)
        invariant x[..p] == old(x[..p]) && x[p..p + i] == buf[..i]
      {
        x[p + i] := buf[i];
        i := i + 1;
      }
      assert x[p..p + |buf|] == buf;
      assert x[..p + |buf|] == x[..p] + x[p..p + |buf|];
      p := p + |buf|;
      HandedToBuffer(config, s, buf);
    }

    /** buffer_put. What fits is only stored. */
    method Put(buf: Text)
      requires Valid() && !blocked
      modifies this, trotate, x
      ensures Valid() && Handed(config, old(Now()), buf, Now())
      ensures |buf| <= x.Length - old(p) ==>
                !blocked && Disk() == old(Disk()) && x[..p] == old(x[..p]) + buf && p == old(p) + |buf|
      ensures !blocked && |buf| <= x.Length ==> p >= |buf|
    {
      hide InStep, Handed;
      ghost var s0 := Now();
      ghost var put: Text := [];
      var rest := buf;
      var n := x.Length;
      HandedNothing(config, s0);
      if |rest| > n - p {
        Empty();
        if blocked {
          HandedCut(config, s0, [], Now(), buf);
          return;
        }
        if n < BUFFER_OUTSIZE {
          n := BUFFER_OUTSIZE;
        }
        while |rest| > x.Length
          invariant Valid() && !blocked && p == 0 && n > 0 && n >= x.Length
          invariant Handed(config, s0, put, Now()) && put + rest == buf
          invariant |buf| <= x.Length ==> rest == buf
          decreases |rest|
        {
          if n > |rest| {
            n := |rest|;
          }
          ghost var s1 := Now();
          WriteThrough(rest[..n]);
          HandedOn(config, s0, put, s1, rest[..n], Now());
          put := put + rest[..n];
          rest := rest[n..];
          if blocked {
            HandedCut(config, s0, put, Now(), buf);
            return;
          }
        }
      }
      ghost var s1 := Now();
      Append(rest);
      HandedOn(config, s0, put, s1, rest, Now());
    }

    /** buffer_putalign: fills the buffer to the brim before each flush. */
    method PutAlign(buf: Text)
      requires Valid() && !blocked
      requires x.Length > 0
      modifies this, trotate, x
      ensures Valid() && Handed(config, old(Now()), buf, Now())
    {
      hide InStep, Handed;
      ghost var s0 := Now();
      ghost var put: Text := [];
      var rest := buf;
      HandedNothing(config, s0);
      while |rest| > x.Length - p
        invariant Valid() && !blocked
        invariant Handed(config, s0, put, Now()) && put + rest == buf
        decreases |rest|, p
      {
        var n := x.Length - p;
        ghost var s1 := Now();
        Append(rest[..n]);
        HandedOn(config, s0, put, s1, rest[..n], Now());
        put := put + rest[..n];
        rest := rest[n..];
        ghost var s2 := Now();
        Empty();
        HandedOn(config, s0, put, s2, [], Now());
        assert put + [] == put;
        if blocked {
          HandedCut(config, s0, put, Now(), buf);
          return;
        }
      }
      ghost var s1 := Now();
      Append(rest);
      HandedOn(config, s0, put, s1, rest, Now());
    }

    /** buffer_putflush. */
    method PutFlush(buf: Text)
      requires Valid() && !blocked
      modifies this, trotate
      ensures Valid() && p == 0 && Handed(config, old(Now()), buf, Now())
    {
      hide InStep, Handed;
      ghost var s0 := Now();
      Empty();
      if blocked {
        HandedCut(config, s0, [], Now(), buf);
        return;
      }
      ghost var s1 := Now();
      WriteThrough(buf);
      HandedOn(config, s0, [], s1, buf, Now());
      assert [] + buf == buf;
    }

    /** buffer_PUTC. */
    method PutC(c: byte)
      requires Valid() && !blocked
      modifies this, trotate, x
      ensures Valid() && Handed(config, old(Now()), [c], Now())
      ensures old(p) < x.Length ==> !blocked && Disk() == old(Disk()) && x[..p] == old(x[..p]) + [c]
      ensures !blocked && x.Length > 0 ==> p > 0
    {
      hide InStep, Handed;
      if x.Length != p {
        ghost var s0 := Now();
        x[p] := c;
        p := p + 1;
        assert x[..p] == old(x[..p]) + [c];
        HandedToBuffer(config, s0, [c]);
      } else {
        Put([c]);
      }
    }
  }

  /** A log directory as its callers see it: the disk, the bytes in the buffer, and whether the
      process has stopped for good. */
  datatype State = State(disk: Log, pending: Text, blocked: bool)

  ghost function Total(s: State): Text {
    Stream(s.disk) + s.pending
  }

  /** What a caller may rely on after handing over buf: if the process is still going, buf comes
      last of everything put; if not, the files hold a first part of everything put. */
  ghost predicate Handed(c: Config, s: State, buf: Text, t: State) {
    && (!t.blocked ==> Total(t) == Total(s) + buf)
    && (t.blocked ==> Stream(t.disk) <= Total(s) + buf)
    && Extends(s.disk, t.disk)
    && (Bounded(c, s.disk) ==> Bounded(c, t.disk))
  }

  lemma HandedNothing(c: Config, s: State)
    requires !s.blocked
    ensures Handed(c, s, [], s)
  {
    SelfExtends(s.disk);
    assert Total(s) + [] == Total(s);
  }

  lemma FlushHanded(c: Config, s: State, aa: seq<Answer>)
    requires Accepted(c, s.disk, s.pending, aa)
    ensures Handed(c, s, [], State(After(c, s.disk, s.pending, aa), [], false))
  {
    AfterKeeps(c, s.disk, s.pending, aa);
  }

  lemma FlushStopped(c: Config, s: State, m: Log)
    requires StoppedPartway(c, s.disk, s.pending, m)
    ensures Handed(c, s, [], State(m, [], true))
  {
    StoppedKeeps(c, s.disk, s.pending, m);
  }

  lemma WriteHanded(c: Config, s: State, buf: Text, aa: seq<Answer>)
    requires s.pending == [] && Accepted(c, s.disk, buf, aa)
    ensures Handed(c, s, buf, State(After(c, s.disk, buf, aa), [], false))
  {
    AfterKeeps(c, s.disk, buf, aa);
  }

  lemma WriteStopped(c: Config, s: State, buf: Text, m: Log)
    requires s.pending == [] && StoppedPartway(c, s.disk, buf, m)
    ensures Handed(c, s, buf, State(m, [], true))
  {
    StoppedKeeps(c, s.disk, buf, m);
  }

  lemma HandedToBuffer(c: Config, s: State, buf: Text)
    requires !s.blocked
    ensures Handed(c, s, buf, s.(pending := s.pending + buf))
  {
    SelfExtends(s.disk);
    Regroup(Stream(s.disk), s.pending, buf);
  }

  lemma HandedOn(c: Config, s: State, a: Text, t: State, b: Text, u: State)
    requires Handed(c, s, a, t) && !t.blocked && Handed(c, t, b, u)
    ensures Handed(c, s, a + b, u)
  {
    ExtendsTransitive(s.disk, t.disk, u.disk);
    Regroup(Total(s), a, b);
  }

  /** StoppedPartway within a is stopped within anything that starts with a. */
  lemma HandedCut(c: Config, s: State, a: Text, t: State, b: Text)
    requires Handed(c, s, a, t) && t.blocked && a <= b
    ensures Handed(c, s, b, t)
  {
    Regroup(Total(s), a, b[|a|..]);
    assert a + b[|a|..] == b;
  }

  lemma Regroup(a: Text, b: Text, c: Text)
    ensures a + (b + c) == a + b + c
  {
  }

  lemma LabelNulFree(t: Taia)
    ensures 0 !in FileName(t)
  {
  }

  lemma NewOldest(f: Text, before: Text, seen: set<Text>, after: Text)
    requires IsOldFile(f)
    requires if seen == {} then before == [65] else IsOldest(before, seen)
    requires after == if LexLess(f, before) then f else before
    ensures IsOldest(after, seen + {f})
  {
    if seen != {} {
      LexTrichotomy(f, before);
      forall g | g in seen + {f}
        ensures g == after || LexLess(after, g)
      {
        if LexLess(f, before) && g != f && g != before {
          LexTransitive(f, before, g);
        }
      }
    }
  }
}
