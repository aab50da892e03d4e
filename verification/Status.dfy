/** The status record: runsv writes 20 bytes, sv reads them and answers from them. */
module Status {
  import opened Bytes
  import opened Tai
  import opened Labels

  type Pid = x: int | 0 <= x < 0x8000_0000

  datatype State = Down | Run | Finish | Done
  datatype Want = WantUp | WantDown | WantExit | WantDone

  /** runsv's struct svdir, without its file descriptors: pid is 0 when no child runs; term and
      pause are the two bits of ctrl. */
  datatype Service = Service(
    pid: Pid, firstrun: bool, oneshot: bool, state: State, term: bool, pause: bool,
    want: Want, islog: bool, start: Taia, wstat: int)

  function Code(s: State): byte {
    match s
    case Down => 0
    case Run => 1
    case Finish => 2
    case Done => 3
  }

  const LETTER_U: byte := 117
  const LETTER_D: byte := 100

  /** The record for s. */
  ghost function Encode(s: Service): (r: Text)
    ensures |r| == 20
  {
    BigEndian(s.start.sec, 8) + BigEndian(s.start.nano, 4)
    + [s.pid % 256, s.pid / 256 % 256, s.pid / 256 / 256 % 256, s.pid / 256 / 256 / 256 % 256]
    + [if s.pause then 1 else 0, if s.want == WantUp then LETTER_U else LETTER_D,
       if s.term then 1 else 0, Code(s.state)]
  }

  /** update_status: the bytes of supervise/status. The packed time is 16 bytes; the pid then
      takes the place of its attoseconds. */
  method StatusBytes(s: Service) returns (r: Text)
    ensures r == Encode(s)
  {
    var status := new byte[20];
    TaiaPack(status, s.start);
    assert status[..12] == status[..16][..12] == BigEndian(s.start.sec, 8) + BigEndian(s.start.nano, 4);
    var l: nat := s.pid;
    status[12] := l % 256;
    l := l / 256;
    status[13] := l % 256;
    l := l / 256;
    status[14] := l % 256;
    l := l / 256;
    status[15] := l % 256;
    status[16] := if s.pause then 1 else 0;
    status[17] := if s.want == WantUp then LETTER_U else LETTER_D;
    status[18] := if s.term then 1 else 0;
    status[19] := Code(s.state);
    r := status[..];
    assert r[..12] == status[..12];
    assert r == r[..12] + [r[12], r[13], r[14], r[15]] + [r[16], r[17], r[18], r[19]];
  }

  // ----- sv -----

  ghost function PidOf(st: Text): int
    requires |st| == 20
  {
    (((st[15] as int) * 256 + st[14]) * 256 + st[13]) * 256 + st[12]
  }

  /** How svstatus_print and check get at the pid. */
  method StatusPid(st: Text) returns (pid: nat)
    requires |st| == 20
    ensures pid == PidOf(st)
  {
    pid := st[15];
    pid := pid * 256;
    pid := pid + st[14];
    pid := pid * 256;
    pid := pid + st[13];
    pid := pid * 256;
    pid := pid + st[12];
  }

  /** What sv makes of the record is what runsv put into it. The bytes in literal terms, as sv and
      other readers of daemontools' format know them. */
  lemma Decodes(s: Service)
    ensures var st := Encode(s);
            && PidOf(st) == s.pid
            && FromDigits(256, st[..8]) == s.start.sec
            && (s.start.nano < 0x1_0000_0000 ==> FromDigits(256, st[8..12]) == s.start.nano)
            && st[16] == (if s.pause then 1 else 0)
            && st[17] == (if s.want == WantUp then 'u' else 'd') as int
            && st[18] == (if s.term then 1 else 0)
            && st[19] == (match s.state case Down => 0 case Run => 1 case Finish => 2 case Done => 3)
  {
    var st := Encode(s);
    assert st[..8] == BigEndian(s.start.sec, 8);
    assert st[8..12] == BigEndian(s.start.nano, 4);
    PackUnpack(s.start.sec, st);
    if s.start.nano < 0x1_0000_0000 {
      assert Power(256, 4) == 0x1_0000_0000;
      DigitsRoundTrip(256, s.start.nano, 4);
    }
    PidBytes(s.pid);
    assert st[12] == s.pid % 256 && st[13] == s.pid / 256 % 256;
    assert st[14] == s.pid / 256 / 256 % 256 && st[15] == s.pid / 256 / 256 / 256 % 256;
  }

  lemma PidBytes(p: Pid)
    ensures ((p / 256 / 256 / 256 % 256 * 256 + p / 256 / 256 % 256) * 256 + p / 256 % 256) * 256 + p % 256 == p
  {
    assert p / 256 / 256 / 256 < 256;
  }

  /** What one letter of a wait or status command asks of a service. tstart is the second in which
      sv was started, script the answer of the service's ./check. */
  ghost predicate Answer(letter: byte, s: Service, tstart: u64, script: bool) {
    if letter == 120 then false                                             // x: gone
    else if letter == 117 then s.pid != 0 && s.state == Run && script       // u: up
    else if letter == 100 then s.pid == 0 && s.state == Down                // d: down
    else if letter == 67 then s.pid != 0 ==> script                         // C: check
    else if letter == 116 || letter == 107 then                             // t, k: restarted since, or to stay down
      (s.pid == 0 && s.want != WantUp) ||
      (s.pid != 0 && tstart <= s.start.sec && !s.term && script)
    else if letter == 111 then                                              // o: once
      (s.pid == 0 ==> tstart <= s.start.sec) && (s.pid != 0 ==> s.want != WantUp)
    else if letter == 112 then s.pid != 0 ==> s.pause                       // p: paused
    else if letter == 99 then s.pid != 0 ==> !s.pause                       // c: continued
    else true
  }

  /** sv.c, check, once the record has been read: 1 if every letter is answered yes, else 0. */
  method Check(a: Text, st: Text, tstart: u64, script: bool, ghost s: Service) returns (r: int)
    requires st == Encode(s)
    ensures r == 1 || r == 0
    ensures r == 1 <==> forall i :: 0 <= i < |a| ==> Answer(a[i], s, tstart, script)
  {
    Decodes(s);
    var i := 0;
    while i < |a|
      invariant 0 <= i <= |a|
      invariant forall j :: 0 <= j < i ==> Answer(a[j], s, tstart, script)
    {
      var yes := CheckLetter(a[i], st, tstart, script, s);
      if !yes {
        return 0;
      }
      i := i + 1;
    }
    return 1;
  }

  /** The switch of check. */
  method CheckLetter(letter: byte, st: Text, tstart: u64, script: bool, ghost s: Service) returns (yes: bool)
    requires st == Encode(s)
    ensures yes <==> Answer(letter, s, tstart, script)
  {
    Decodes(s);
    hide Encode, FromDigits;
    var pid := StatusPid(st);
    yes := true;
    if letter == 120 {
      return false;
    } else if letter == 117 {
      if pid == 0 || st[19] != 1 { return false; }
      if !script { return false; }
    } else if letter == 100 {
      if pid != 0 || st[19] != 0 { return false; }
    } else if letter == 67 {
      if pid != 0 { if !script { return false; } }
    } else if letter == 116 || letter == 107 {
      if pid == 0 && st[17] == LETTER_D { return true; }
      var tstatus := TaiUnpack(st);
      if tstart > tstatus || pid == 0 || st[18] != 0 || !script { return false; }
    } else if letter == 111 {
      var tstatus := TaiUnpack(st);
      if (pid == 0 && tstart > tstatus) || (pid != 0 && st[17] != LETTER_D) { return false; }
    } else if letter == 112 {
      if pid != 0 && st[16] == 0 { return false; }
    } else if letter == 99 {
      if pid != 0 && st[16] != 0 { return false; }
    }
  }

  datatype Word = Online | OnlineWantDown | Offline | OfflineWantUp

  /** svstatus_print: the first word. A done oneshot service counts as online. */
  method FirstWord(st: Text, ghost s: Service) returns (w: Word)
    requires st == Encode(s)
    ensures w.Online? || w.OnlineWantDown? <==> s.state != Down
    ensures w.OfflineWantUp? <==> s.state == Down && s.want == WantUp
    ensures w.OnlineWantDown? <==> s.state == Finish || (s.state == Run && s.want != WantUp)
  {
    Decodes(s);
    hide Encode, FromDigits;
    if st[19] == 0 && st[17] == LETTER_U {
      w := OfflineWantUp;
    } else if (st[19] == 1 && st[17] == LETTER_D) || st[19] == 2 {
      w := OnlineWantDown;
    } else if st[19] == 1 || st[19] == 3 {
      w := Online;
    } else {
      w := Offline;
    }
  }
}
