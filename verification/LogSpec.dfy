/** What svlogd's log writer does to its files, one accepted write at a time, and what that
    means over whole runs. The class in LogDirs.dfy is proved to do exactly this. */
module LogSpec {
  import opened Bytes
  import opened Tai

  /** A file that has been rotated away, with the clock reading its name is made from. */
  datatype Old = Old(stamp: Taia, text: Text)

  /** Every file ever rotated, in order (deleted ones included), and `current`. */
  datatype Log = Log(history: seq<Old>, current: Text)

  datatype Config = Config(sizemax: u64, linemax: u64)

  function Concat(h: seq<Old>): Text {
    if h == [] then [] else Concat(h[..|h| - 1]) + h[|h| - 1].text
  }

  /** All bytes ever written, oldest first: those of the files since deleted, too. */
  function Stream(l: Log): Text {
    Concat(l.history) + l.current
  }

  /** rotate: an empty `current` is left alone. */
  function Rotated(l: Log, t: Taia): Log {
    if l.current == [] then l else Log(l.history + [Old(t, l.current)], [])
  }

  /** What the outside world answers to one buffer_pwrite: how many bytes write took, and the
      clock readings of the rotations before and after it, should they happen. */
  datatype Answer = Answer(count: nat, before: Taia, after: Taia)

  function Opened(c: Config, l: Log, t: Taia): Log {
    if c.sizemax != 0 && |l.current| >= c.sizemax then Rotated(l, t) else l
  }

  /** How many of len bytes are offered to write. */
  function Offered(c: Config, l: Log, len: nat): int {
    if c.sizemax != 0 && len > c.sizemax - |l.current| then c.sizemax - |l.current| else len
  }

  predicate Takes(c: Config, l: Log, s: Text, a: Answer) {
    1 <= a.count <= Offered(c, Opened(c, l, a.before), |s|) <= |s|
  }

  /** After the rotation before a write and the write of i bytes. */
  function Cut(c: Config, l: Log, s: Text, t: Taia, i: nat): Log
    requires i <= |s|
  {
    var o := Opened(c, l, t);
    Log(o.history, o.current + s[..i])
  }

  /** A newline within linemax of sizemax rotates early; the limit is an unsigned difference. */
  function Settled(c: Config, w: Log, last: byte, t: Taia): Log {
    if c.sizemax != 0 && last == NL && |w.current| >= Wrap64(c.sizemax - c.linemax)
    then Rotated(w, t)
    else w
  }

  /** One call of buffer_pwrite. */
  function Wrote(c: Config, l: Log, s: Text, a: Answer): Log
    requires Takes(c, l, s, a)
  {
    Settled(c, Cut(c, l, s, a.before, a.count), s[a.count - 1], a.after)
  }

  /** The answers make allwrite hand over all of s. */
  predicate Accepted(c: Config, l: Log, s: Text, aa: seq<Answer>)
    decreases |aa|
  {
    if s == [] then aa == []
    else aa != [] && Takes(c, l, s, aa[0]) &&
         Accepted(c, Wrote(c, l, s, aa[0]), s[aa[0].count..], aa[1..])
  }

  function After(c: Config, l: Log, s: Text, aa: seq<Answer>): Log
    requires Accepted(c, l, s, aa)
    decreases |aa|
  {
    if s == [] then l
    else After(c, Wrote(c, l, s, aa[0]), s[aa[0].count..], aa[1..])
  }

  /** The answers aa take writing s onto l as far as having r left to write onto m. */
  ghost predicate Partway(c: Config, l: Log, s: Text, aa: seq<Answer>, m: Log, r: Text)
    decreases |aa|
  {
    if aa == [] then m == l && r == s
    else s != [] && Takes(c, l, s, aa[0]) &&
         Partway(c, Wrote(c, l, s, aa[0]), s[aa[0].count..], aa[1..], m, r)
  }

  lemma {:induction false} OneStepFurther(c: Config, l: Log, s: Text, aa: seq<Answer>, m: Log, r: Text, a: Answer)
    requires Partway(c, l, s, aa, m, r) && r != [] && Takes(c, m, r, a)
    ensures Partway(c, l, s, aa + [a], Wrote(c, m, r, a), r[a.count..])
    decreases |aa|
  {
    if aa == [] {
      assert (aa + [a])[1..] == [];
    } else {
      assert (aa + [a])[1..] == aa[1..] + [a];
      OneStepFurther(c, Wrote(c, l, s, aa[0]), s[aa[0].count..], aa[1..], m, r, a);
    }
  }

  lemma {:induction false} AllTheWay(c: Config, l: Log, s: Text, aa: seq<Answer>, m: Log)
    requires Partway(c, l, s, aa, m, [])
    ensures Accepted(c, l, s, aa) && After(c, l, s, aa) == m
    decreases |aa|
  {
    if aa != [] {
      AllTheWay(c, Wrote(c, l, s, aa[0]), s[aa[0].count..], aa[1..], m);
    }
  }

  // ----- conservation -----

  lemma {:induction false} RotatedStream(l: Log, t: Taia)
    ensures Stream(Rotated(l, t)) == Stream(l)
  {
    var h := l.history + [Old(t, l.current)];
    assert h[..|h| - 1] == l.history;
  }

  lemma WroteStream(c: Config, l: Log, s: Text, a: Answer)
    requires Takes(c, l, s, a)
    ensures Stream(Wrote(c, l, s, a)) == Stream(l) + s[..a.count]
  {
    var o := Opened(c, l, a.before);
    var w := Log(o.history, o.current + s[..a.count]);
    RotatedStream(l, a.before);
    RotatedStream(w, a.after);
    assert Stream(w) == Stream(o) + s[..a.count];
  }

  lemma {:induction false} AfterStream(c: Config, l: Log, s: Text, aa: seq<Answer>)
    requires Accepted(c, l, s, aa)
    ensures Stream(After(c, l, s, aa)) == Stream(l) + s
    decreases |aa|
  {
    if s == [] {
      assert Stream(l) + s == Stream(l);
    } else {
      var n := aa[0].count;
      WroteStream(c, l, s, aa[0]);
      AfterStream(c, Wrote(c, l, s, aa[0]), s[n..], aa[1..]);
      assert Stream(l) + s == Stream(l) + s[..n] + s[n..];
    }
  }

  // ----- growing: nothing on disk is ever touched again -----

  /** Where the first j files end in the stream. */
  function Offset(h: seq<Old>, j: nat): nat
    requires j <= |h|
  {
    |Concat(h[..j])|
  }

  /** m comes after l: rotated files stay, the stream only grows, new files end beyond l. */
  ghost predicate Extends(l: Log, m: Log) {
    && l.history <= m.history
    && Stream(l) <= Stream(m)
    && forall j :: |l.history| < j <= |m.history| ==> Offset(m.history, j) >= |Stream(l)|
  }

  lemma RotatedExtends(l: Log, t: Taia)
    ensures Extends(l, Rotated(l, t))
  {
    RotatedStream(l, t);
    var m := Rotated(l, t);
    if l.current != [] {
      assert m.history[..|m.history|] == m.history;
      assert m.history[..|l.history|] == l.history;
    }
  }

  lemma GrownExtends(l: Log, s: Text)
    ensures Extends(l, Log(l.history, l.current + s))
  {
    assert Stream(Log(l.history, l.current + s)) == Stream(l) + s;
  }

  lemma SelfExtends(l: Log)
    ensures Extends(l, l)
  {
  }

  lemma ExtendsTransitive(l: Log, m: Log, n: Log)
    requires Extends(l, m) && Extends(m, n)
    ensures Extends(l, n)
  {
    forall j | |l.history| < j <= |n.history|
      ensures Offset(n.history, j) >= |Stream(l)|
    {
      if j <= |m.history| {
        assert n.history[..j] == m.history[..j];
        assert Offset(m.history, j) >= |Stream(l)|;
      }
    }
  }

  lemma WroteExtends(c: Config, l: Log, s: Text, a: Answer)
    requires Takes(c, l, s, a)
    ensures Extends(l, Wrote(c, l, s, a))
  {
    var o := Opened(c, l, a.before);
    RotatedExtends(l, a.before);
    SelfExtends(l);
    var w := Log(o.history, o.current + s[..a.count]);
    GrownExtends(o, s[..a.count]);
    ExtendsTransitive(l, o, w);
    RotatedExtends(w, a.after);
    if Wrote(c, l, s, a) != w {
      ExtendsTransitive(l, w, Wrote(c, l, s, a));
    }
  }

  lemma {:induction false} AfterExtends(c: Config, l: Log, s: Text, aa: seq<Answer>)
    requires Accepted(c, l, s, aa)
    ensures Extends(l, After(c, l, s, aa))
    decreases |aa|
  {
    if s == [] {
      SelfExtends(l);
    } else {
      var m := Wrote(c, l, s, aa[0]);
      WroteExtends(c, l, s, aa[0]);
      AfterExtends(c, m, s[aa[0].count..], aa[1..]);
      ExtendsTransitive(l, m, After(c, l, s, aa));
    }
  }

  // ----- sizes -----

  /** No file is larger than sizemax, `current` included. */
  ghost predicate Bounded(c: Config, l: Log) {
    c.sizemax != 0 ==>
      |l.current| <= c.sizemax &&
      forall k :: 0 <= k < |l.history| ==> |l.history[k].text| <= c.sizemax
  }

  lemma RotatedBounded(c: Config, l: Log, t: Taia)
    ensures Bounded(c, l) ==> Bounded(c, Rotated(l, t))
  {
  }

  lemma WroteBounded(c: Config, l: Log, s: Text, a: Answer)
    requires Takes(c, l, s, a)
    ensures Bounded(c, l) ==> Bounded(c, Wrote(c, l, s, a))
    ensures c.sizemax != 0 ==> |Wrote(c, l, s, a).current| <= c.sizemax
  {
  }

  lemma {:induction false} AfterBounded(c: Config, l: Log, s: Text, aa: seq<Answer>)
    requires Accepted(c, l, s, aa)
    ensures Bounded(c, l) ==> Bounded(c, After(c, l, s, aa))
    ensures c.sizemax != 0 && s != [] ==> |After(c, l, s, aa).current| <= c.sizemax
    decreases |aa|
  {
    if s != [] {
      WroteBounded(c, l, s, aa[0]);
      AfterBounded(c, Wrote(c, l, s, aa[0]), s[aa[0].count..], aa[1..]);
    }
  }

  lemma AfterKeeps(c: Config, l: Log, s: Text, aa: seq<Answer>)
    requires Accepted(c, l, s, aa)
    ensures Stream(After(c, l, s, aa)) == Stream(l) + s
    ensures Extends(l, After(c, l, s, aa))
    ensures Bounded(c, l) ==> Bounded(c, After(c, l, s, aa))
  {
    AfterStream(c, l, s, aa);
    AfterExtends(c, l, s, aa);
    AfterBounded(c, l, s, aa);
  }

  // ----- record atomicity -----

  /** A record: its only newline is its last byte. */
  ghost predicate IsRecord(s: Text) {
    s != [] && s[|s| - 1] == '\n' as int && NL !in s[..|s| - 1]
  }

  /** There is room in `current` for any record of linemax bytes. */
  ghost predicate AtBoundary(c: Config, l: Log) {
    c.sizemax == 0 || |l.current| + c.linemax <= c.sizemax
  }

  /** No file ends strictly inside the bytes a..b of the stream. */
  ghost predicate Whole(l: Log, a: nat, b: nat) {
    forall j :: 0 <= j <= |l.history| ==> !(a < Offset(l.history, j) < b)
  }

  /** The bytes now in `current` are rotated early if there is a newline at their end, within linemax of
      sizemax; not if linemax is larger than sizemax. */
  predicate EarlyDue(c: Config, size: nat) {
    c.sizemax != 0 && c.linemax <= c.sizemax && size + c.linemax >= c.sizemax
  }

  /** A record that fits is put into `current` in one piece, however write splits it up, and `current` is
      then rotated exactly if it has come within linemax of sizemax. */
  lemma {:induction false} RecordRotatesIff(c: Config, l: Log, s: Text, aa: seq<Answer>)
    requires Accepted(c, l, s, aa) && IsRecord(s)
    requires c.sizemax == 0 || |l.current| + |s| <= c.sizemax
    ensures var m := After(c, l, s, aa);
            if EarlyDue(c, |l.current| + |s|)
            then exists t :: m == Log(l.history + [Old(t, l.current + s)], [])
            else m == Log(l.history, l.current + s)
    decreases |aa|
  {
    var n := aa[0].count;
    var w := Log(l.history, l.current + s[..n]);
    if n == |s| {
      assert s[..n] == s && s[n..] == [];
      assert aa[1..] == [];
      EarlyMeans(c, |w.current|);
      assert Wrote(c, l, s, aa[0]) == if EarlyDue(c, |w.current|) then Rotated(w, aa[0].after) else w;
    } else {
      assert s[n - 1] == s[..|s| - 1][n - 1] != NL;
      assert Wrote(c, l, s, aa[0]) == w;
      var r := s[n..];
      assert forall i :: 0 <= i < |r| - 1 ==> r[i] == s[..|s| - 1][n + i];
      assert l.current + s == w.current + r;
      RecordRotatesIff(c, w, r, aa[1..]);
    }
  }

  lemma EarlyMeans(c: Config, size: nat)
    requires c.sizemax == 0 || size <= c.sizemax
    ensures c.sizemax != 0 && size >= Wrap64(c.sizemax - c.linemax) <==> EarlyDue(c, size)
  {
  }

  lemma RecordInOnePiece(c: Config, l: Log, s: Text, aa: seq<Answer>)
    requires Accepted(c, l, s, aa) && IsRecord(s)
    requires c.sizemax == 0 || |l.current| + |s| <= c.sizemax
    ensures var m := After(c, l, s, aa);
            || m == Log(l.history, l.current + s)
            || exists t :: m == Log(l.history + [Old(t, l.current + s)], [])
  {
    RecordRotatesIff(c, l, s, aa);
  }

  /** What is offered to write is all there is, or else fills `current` to sizemax exactly. */
  lemma OfferedIsMost(c: Config, l: Log, len: nat, t: Taia)
    ensures var o := Opened(c, l, t);
            && Offered(c, o, len) <= len
            && (c.sizemax != 0 ==> |o.current| + Offered(c, o, len) <= c.sizemax)
            && (Offered(c, o, len) < len ==> c.sizemax != 0 && |o.current| + Offered(c, o, len) == c.sizemax)
            && (len > 0 ==> Offered(c, o, len) > 0)
  {
  }

  lemma WroteNewFile(c: Config, l: Log, s: Text, a: Answer, k: nat)
    requires Takes(c, l, s, a) && |l.history| <= k < |Wrote(c, l, s, a).history|
    ensures Due(c, Wrote(c, l, s, a).history[k].text)
  {
    var o := Opened(c, l, a.before);
    var w := Log(o.history, o.current + s[..a.count]);
    if c.sizemax != 0 && |w.current| <= c.sizemax {
      EarlyMeans(c, |w.current|);
    }
  }

  /** svlogd(8): `current` has sizemax bytes or more, or a newline within the last linemax of them. */
  ghost predicate Due(c: Config, f: Text) {
    f != [] && c.sizemax != 0 && (|f| >= c.sizemax || (EarlyDue(c, |f|) && f[|f| - 1] == NL))
  }

  /** Writing rotates no file but one that is due: never, if sizemax is 0. */
  lemma {:induction false} RotatedIfDue(c: Config, l: Log, s: Text, aa: seq<Answer>, k: nat)
    requires Accepted(c, l, s, aa) && |l.history| <= k < |After(c, l, s, aa).history|
    ensures Due(c, After(c, l, s, aa).history[k].text)
    decreases |aa|
  {
    if s != [] {
      var m := Wrote(c, l, s, aa[0]);
      AfterExtends(c, m, s[aa[0].count..], aa[1..]);
      if k < |m.history| {
        WroteNewFile(c, l, s, aa[0], k);
      } else {
        RotatedIfDue(c, m, s[aa[0].count..], aa[1..], k);
      }
    }
  }

  lemma OnePieceIsWhole(l: Log, s: Text, m: Log)
    requires m == Log(l.history, l.current + s) ||
             exists t :: m == Log(l.history + [Old(t, l.current + s)], [])
    ensures Whole(m, |Stream(l)|, |Stream(l)| + |s|)
  {
    forall j | 0 <= j <= |m.history|
      ensures !(|Stream(l)| < Offset(m.history, j) < |Stream(l)| + |s|)
    {
      if j <= |l.history| {
        assert m.history[..j] == l.history[..j];
        OffsetMonotone(l.history, j, |l.history|);
        assert l.history[..|l.history|] == l.history;
      } else {
        assert m.history[..j] == m.history && m.history[..j - 1] == l.history;
      }
    }
  }

  lemma {:induction false} OffsetMonotone(h: seq<Old>, j: nat, k: nat)
    requires j <= k <= |h|
    ensures Offset(h, j) <= Offset(h, k)
    decreases k
  {
    if j < k {
      assert h[..k][..k - 1] == h[..k - 1];
      OffsetMonotone(h, j, k - 1);
    }
  }

  /** Once whole, always whole. */
  lemma WholeForever(l: Log, m: Log, a: nat, b: nat)
    requires Extends(l, m) && Whole(l, a, b) && b <= |Stream(l)|
    ensures Whole(m, a, b)
  {
    forall j | 0 <= j <= |m.history|
      ensures !(a < Offset(m.history, j) < b)
    {
      if j <= |l.history| {
        assert m.history[..j] == l.history[..j];
        assert !(a < Offset(l.history, j) < b);
      }
    }
  }

  /** The early rotation makes room for the next record, provided sizemax >= linemax. */
  lemma {:induction false} NewlineMakesRoom(c: Config, l: Log, s: Text, aa: seq<Answer>)
    requires Accepted(c, l, s, aa) && s != [] && s[|s| - 1] == NL
    requires c.sizemax == 0 || c.linemax <= c.sizemax
    ensures AtBoundary(c, After(c, l, s, aa))
    decreases |aa|
  {
    var n := aa[0].count;
    if n == |s| {
      assert s[n..] == [] && aa[1..] == [];
    } else {
      NewlineMakesRoom(c, Wrote(c, l, s, aa[0]), s[n..], aa[1..]);
    }
  }

  // ----- stopping half way -----

  /** m is as far as buffer_pwrite got with s when it stopped for good. */
  ghost predicate StoppedInWrite(c: Config, l: Log, s: Text, m: Log) {
    m == l || exists t, i: nat :: i <= |s| && i <= Offered(c, Opened(c, l, t), |s|) && m == Cut(c, l, s, t, i)
  }

  /** m is as far as allwrite got with s when it stopped for good. */
  ghost predicate StoppedPartway(c: Config, l: Log, s: Text, m: Log) {
    exists aa, k, r :: Partway(c, l, s, aa, k, r) && StoppedInWrite(c, k, r, m)
  }

  lemma CutKeeps(c: Config, l: Log, s: Text, t: Taia, i: nat)
    requires i <= |s| && i <= Offered(c, Opened(c, l, t), |s|)
    ensures var m := Cut(c, l, s, t, i);
            Extends(l, m) && Stream(m) == Stream(l) + s[..i] && (Bounded(c, l) ==> Bounded(c, m))
  {
    var o := Opened(c, l, t);
    OpenedExtends(c, l, t);
    GrownExtends(o, s[..i]);
    ExtendsTransitive(l, o, Cut(c, l, s, t, i));
    assert Concat(o.history) + (o.current + s[..i]) == Stream(o) + s[..i];
  }

  lemma OpenedExtends(c: Config, l: Log, t: Taia)
    ensures Extends(l, Opened(c, l, t)) && Stream(Opened(c, l, t)) == Stream(l)
  {
    SelfExtends(l);
    RotatedExtends(l, t);
    RotatedStream(l, t);
  }

  lemma StoppedInWriteKeeps(c: Config, l: Log, s: Text, m: Log)
    requires StoppedInWrite(c, l, s, m)
    ensures Extends(l, m) && Stream(m) <= Stream(l) + s
    ensures Bounded(c, l) ==> Bounded(c, m)
  {
    if m == l {
      SelfExtends(l);
    } else {
      var t, i: nat :| i <= |s| && i <= Offered(c, Opened(c, l, t), |s|) && m == Cut(c, l, s, t, i);
      CutKeeps(c, l, s, t, i);
      assert s == s[..i] + s[i..];
    }
  }

  lemma {:induction false} PartwayKeeps(c: Config, l: Log, s: Text, aa: seq<Answer>, m: Log, r: Text)
    requires Partway(c, l, s, aa, m, r)
    ensures Extends(l, m) && Stream(m) + r == Stream(l) + s
    ensures Bounded(c, l) ==> Bounded(c, m)
    decreases |aa|
  {
    if aa == [] {
      SelfExtends(l);
    } else {
      var n := aa[0].count;
      var k := Wrote(c, l, s, aa[0]);
      WroteStream(c, l, s, aa[0]);
      WroteExtends(c, l, s, aa[0]);
      WroteBounded(c, l, s, aa[0]);
      PartwayKeeps(c, k, s[n..], aa[1..], m, r);
      ExtendsTransitive(l, k, m);
      assert Stream(l) + s == Stream(l) + s[..n] + s[n..];
    }
  }

  /** Wherever the writer stops, what is on disk is what was there and a first part of s. */
  lemma StoppedKeeps(c: Config, l: Log, s: Text, m: Log)
    requires StoppedPartway(c, l, s, m)
    ensures Extends(l, m) && Stream(m) <= Stream(l) + s
    ensures Bounded(c, l) ==> Bounded(c, m)
  {
    var aa, k, r :| Partway(c, l, s, aa, k, r) && StoppedInWrite(c, k, r, m);
    PartwayKeeps(c, l, s, aa, k, r);
    StoppedInWriteKeeps(c, k, r, m);
    ExtendsTransitive(l, k, m);
  }

  // ----- whole runs -----

  /** What reaches the files: text handed to allwrite, and rotations asked for from outside
      (by SIGALRM or by age), which find the buffer empty. */
  datatype Event = Write(text: Text, answers: seq<Answer>) | Rotate(stamp: Taia)

  predicate Possible(c: Config, l: Log, e: Event) {
    e.Write? ==> Accepted(c, l, e.text, e.answers)
  }

  function Step(c: Config, l: Log, e: Event): Log
    requires Possible(c, l, e)
  {
    match e
    case Write(s, aa) => After(c, l, s, aa)
    case Rotate(t) => Rotated(l, t)
  }

  predicate Runs(c: Config, l: Log, ee: seq<Event>)
    decreases |ee|
  {
    ee == [] || (Possible(c, l, ee[0]) && Runs(c, Step(c, l, ee[0]), ee[1..]))
  }

  function Run(c: Config, l: Log, ee: seq<Event>): Log
    requires Runs(c, l, ee)
    decreases |ee|
  {
    if ee == [] then l else Run(c, Step(c, l, ee[0]), ee[1..])
  }

  function Written(ee: seq<Event>): Text {
    if ee == [] then [] else (if ee[0].Write? then ee[0].text else []) + Written(ee[1..])
  }

  lemma StepKeeps(c: Config, l: Log, e: Event)
    requires Possible(c, l, e)
    ensures Stream(Step(c, l, e)) == Stream(l) + (if e.Write? then e.text else [])
    ensures Extends(l, Step(c, l, e))
    ensures Bounded(c, l) ==> Bounded(c, Step(c, l, e))
  {
    match e
    case Write(s, aa) =>
      AfterKeeps(c, l, s, aa);
    case Rotate(t) =>
      RotatedStream(l, t);
      RotatedExtends(l, t);
      assert Stream(l) + [] == Stream(l);
  }

  /** Conservation over every run: the files in order hold exactly what was there and what was
      written, nothing lost, repeated or reordered. */
  lemma {:induction false} RunConserves(c: Config, l: Log, ee: seq<Event>)
    requires Runs(c, l, ee)
    ensures Stream(Run(c, l, ee)) == Stream(l) + Written(ee)
    decreases |ee|
  {
    if ee == [] {
      assert Stream(l) + [] == Stream(l);
    } else {
      StepKeeps(c, l, ee[0]);
      RunConserves(c, Step(c, l, ee[0]), ee[1..]);
      var w := if ee[0].Write? then ee[0].text else [];
      assert Stream(l) + w + Written(ee[1..]) == Stream(l) + (w + Written(ee[1..]));
    }
  }

  /** Over every run what is on disk stays as it is, and sizemax is kept. */
  lemma {:induction false} RunExtends(c: Config, l: Log, ee: seq<Event>)
    requires Runs(c, l, ee)
    ensures Extends(l, Run(c, l, ee))
    ensures Bounded(c, l) ==> Bounded(c, Run(c, l, ee))
    decreases |ee|
  {
    if ee == [] {
      SelfExtends(l);
    } else {
      var m := Step(c, l, ee[0]);
      StepKeeps(c, l, ee[0]);
      RunExtends(c, m, ee[1..]);
      ExtendsTransitive(l, m, Run(c, l, ee));
    }
  }

  /** The last byte written before a record is a newline (or nothing was written at all). */
  ghost predicate EndsRecord(c: Config, l: Log, ee: seq<Event>) {
    var w := Written(ee);
    if w == [] then AtBoundary(c, l) else w[|w| - 1] == NL
  }

  lemma {:induction false} BoundaryBetweenRecords(c: Config, l: Log, ee: seq<Event>)
    requires Runs(c, l, ee) && EndsRecord(c, l, ee)
    requires c.sizemax == 0 || c.linemax <= c.sizemax
    ensures AtBoundary(c, Run(c, l, ee))
    decreases |ee|
  {
    if ee != [] {
      var m := Step(c, l, ee[0]);
      if Written(ee[1..]) == [] && ee[0].Write? {
        var s, aa := ee[0].text, ee[0].answers;
        assert Written(ee) == s;
        if s != [] {
          NewlineMakesRoom(c, l, s, aa);
        }
      } else {
        assert Written(ee[1..]) != [] ==>
            Written(ee)[|Written(ee)| - 1] == Written(ee[1..])[|Written(ee[1..])| - 1];
      }
      BoundaryBetweenRecords(c, m, ee[1..]);
    }
  }

  /** Atomicity over every run: a record of at most linemax bytes that starts where a record
      ended lies in one file, and stays there, whatever write accepts and whenever rotations
      are asked for before or after it. */
  lemma RecordsStayWhole(c: Config, l: Log, pre: seq<Event>, s: Text, aa: seq<Answer>, post: seq<Event>)
    requires c.sizemax == 0 || c.linemax <= c.sizemax
    requires Runs(c, l, pre) && EndsRecord(c, l, pre)
    requires IsRecord(s) && |s| <= c.linemax
    requires Accepted(c, Run(c, l, pre), s, aa)
    requires Runs(c, After(c, Run(c, l, pre), s, aa), post)
    ensures var m := Run(c, l, pre);
            Whole(Run(c, After(c, m, s, aa), post), |Stream(m)|, |Stream(m)| + |s|)
  {
    var m := Run(c, l, pre);
    var n := After(c, m, s, aa);
    BoundaryBetweenRecords(c, l, pre);
    RecordInOnePiece(c, m, s, aa);
    OnePieceIsWhole(m, s, n);
    AfterStream(c, m, s, aa);
    RunExtends(c, n, post);
    WholeForever(n, Run(c, n, post), |Stream(m)|, |Stream(m)| + |s|);
  }

  /** Files rotated while s is written are not empty and no larger than sizemax, except that
      the first may be an oversized `current` that was there before. */
  lemma WroteNewFiles(c: Config, l: Log, s: Text, a: Answer, k: nat)
    requires c.sizemax > 0 && Takes(c, l, s, a)
    requires |l.history| <= k < |Wrote(c, l, s, a).history|
    ensures var f := Wrote(c, l, s, a).history[k].text;
            f != [] && (|f| <= c.sizemax || (k == |l.history| && f == l.current))
  {
  }

  lemma {:induction false} NewFiles(c: Config, l: Log, s: Text, aa: seq<Answer>, k: nat)
    requires c.sizemax > 0 && Accepted(c, l, s, aa)
    requires |l.history| <= k < |After(c, l, s, aa).history|
    ensures var f := After(c, l, s, aa).history[k].text;
            f != [] && (|f| <= c.sizemax || (k == |l.history| && f == l.current))
    decreases |aa|
  {
    if s != [] {
      var m := Wrote(c, l, s, aa[0]);
      WroteExtends(c, l, s, aa[0]);
      WroteBounded(c, l, s, aa[0]);
      AfterExtends(c, m, s[aa[0].count..], aa[1..]);
      if k < |m.history| {
        WroteNewFiles(c, l, s, aa[0], k);
      } else {
        NewFiles(c, m, s[aa[0].count..], aa[1..], k);
      }
    }
  }

  lemma NextOffset(h: seq<Old>, j: nat)
    requires j < |h|
    ensures Offset(h, j + 1) == Offset(h, j) + |h[j].text|
  {
    assert h[..j + 1][..j] == h[..j];
  }

  /** The condition is exact: with 0 < sizemax < linemax every record longer than sizemax is
      cut, though it may be no longer than linemax. */
  lemma TooSmallSizemaxCuts(c: Config, l: Log, s: Text, aa: seq<Answer>)
    requires 0 < c.sizemax < |s| && Accepted(c, l, s, aa)
    ensures !Whole(After(c, l, s, aa), |Stream(l)|, |Stream(l)| + |s|)
  {
    var a, m, k := |Stream(l)|, After(c, l, s, aa), |l.history|;
    var h := m.history;
    AfterStream(c, l, s, aa);
    AfterExtends(c, l, s, aa);
    AfterBounded(c, l, s, aa);
    assert h[..k] == l.history && l.history[..k] == l.history && h[..|h|] == h;
    if k < |h| {
      NewFiles(c, l, s, aa, k);
      NextOffset(h, k);
      if Offset(h, k + 1) == a && k + 1 < |h| {
        NewFiles(c, l, s, aa, k + 1);
        NextOffset(h, k + 1);
        assert a < Offset(h, k + 2) < a + |s|;
      } else {
        assert a < Offset(h, k + 1) < a + |s|;
      }
    }
  }

  lemma WroteFirstFile(c: Config, l: Log, s: Text, a: Answer)
    requires c.sizemax > 0 && Takes(c, l, s, a)
    ensures var m, k := Wrote(c, l, s, a), |l.history|;
            && (|m.history| > k ==> |m.history[k].text| >= |l.current|)
            && (|m.history| > k && |l.current| < c.sizemax ==> |m.history[k].text| > |l.current|)
            && (|m.history| <= k ==> m == Log(l.history, l.current + s[..a.count]))
  {
  }

  /** The first file rotated while s is written starts with `current`, and is longer unless
      `current` was full already. */
  lemma {:induction false} FirstNewFile(c: Config, l: Log, s: Text, aa: seq<Answer>)
    requires c.sizemax > 0 && Accepted(c, l, s, aa) && |l.history| < |After(c, l, s, aa).history|
    ensures var f := After(c, l, s, aa).history[|l.history|].text;
            |f| >= |l.current| && (|l.current| < c.sizemax ==> |f| > |l.current|)
    decreases |aa|
  {
    var m := Wrote(c, l, s, aa[0]);
    WroteFirstFile(c, l, s, aa[0]);
    WroteExtends(c, l, s, aa[0]);
    AfterExtends(c, m, s[aa[0].count..], aa[1..]);
    hide Wrote, Takes, Stream;
    if |m.history| == |l.history| {
      FirstNewFile(c, m, s[aa[0].count..], aa[1..]);
    }
  }

  /** Writing to a full `current` is writing after its rotation. */
  lemma FullIsRotated(c: Config, l: Log, s: Text, aa: seq<Answer>)
    requires 0 < c.sizemax <= |l.current| && s != [] && Accepted(c, l, s, aa)
    ensures var r := Rotated(l, aa[0].before); Accepted(c, r, s, aa) && After(c, r, s, aa) == After(c, l, s, aa)
  {
    var r := Rotated(l, aa[0].before);
    assert Opened(c, r, aa[0].before) == r == Opened(c, l, aa[0].before);
  }

  /** A record is written whole exactly when it is no longer than sizemax and `current` either has
      room for it or is full already. */
  lemma RecordWholeIff(c: Config, l: Log, s: Text, aa: seq<Answer>)
    requires c.sizemax > 0 && Accepted(c, l, s, aa) && IsRecord(s)
    ensures Whole(After(c, l, s, aa), |Stream(l)|, |Stream(l)| + |s|) <==>
              |s| <= c.sizemax && !(|l.current| < c.sizemax < |l.current| + |s|)
  {
    var m := After(c, l, s, aa);
    if |s| > c.sizemax {
      TooSmallSizemaxCuts(c, l, s, aa);
    } else if |l.current| + |s| <= c.sizemax {
      RecordInOnePiece(c, l, s, aa);
      OnePieceIsWhole(l, s, m);
    } else if |l.current| >= c.sizemax {
      var r := Rotated(l, aa[0].before);
      FullIsRotated(c, l, s, aa);
      RecordInOnePiece(c, r, s, aa);
      OnePieceIsWhole(r, s, m);
      RotatedStream(l, aa[0].before);
    } else {
      CutInFirstFile(c, l, s, aa);
    }
  }

  lemma CutInFirstFile(c: Config, l: Log, s: Text, aa: seq<Answer>)
    requires Accepted(c, l, s, aa) && |l.current| < c.sizemax < |l.current| + |s|
    ensures !Whole(After(c, l, s, aa), |Stream(l)|, |Stream(l)| + |s|)
  {
    var m, k := After(c, l, s, aa), |l.history|;
    AfterStream(c, l, s, aa);
    AfterExtends(c, l, s, aa);
    AfterBounded(c, l, s, aa);
    assert l.history[..k] == l.history && m.history[..k] == l.history && m.history[..|m.history|] == m.history;
    if k < |m.history| {
      FirstNewFile(c, l, s, aa);
      NewFiles(c, l, s, aa, k);
      NextOffset(m.history, k);
      assert |Stream(l)| < Offset(m.history, k + 1) < |Stream(l)| + |s|;
    }
  }
}
