/** libunix/subgetopt.c: options one at a time, with a cursor that stays between the calls. */
module Subgetopt {
  import opened Bytes

  const DASH: byte := 45
  const COLON: byte := 58
  const QUESTION: byte := 63
  const DONE: int := -1

  // ---- what the option string says ---------------------------------------------------------

  datatype Kind = Unknown | Plain | Valued

  /** The first entry of the option string for c decides. */
  function KindOf(opts: Text, c: byte): Kind {
    if opts == [] then Unknown
    else if opts[0] == c then (if |opts| > 1 && opts[1] == COLON then Valued else Plain)
    else KindOf(opts[Entry(opts)..], c)
  }

  /** The length of the first entry. */
  function Entry(opts: Text): (n: nat)
    requires opts != []
    ensures 1 <= n <= |opts|
  {
    if |opts| > 1 && opts[1] == COLON then 2 else 1
  }

  /** An option string as its author means it. */
  function Table(entries: seq<(byte, bool)>): Text {
    if entries == [] then []
    else [entries[0].0] + (if entries[0].1 then [':' as int] else []) + Table(entries[1..])
  }

  /** The scan reads a written option string back: the kind is that of the first entry for c. */
  lemma {:induction false} TableReadsBack(entries: seq<(byte, bool)>, c: byte)
    requires forall e :: e in entries ==> e.0 != ':' as int
    ensures KindOf(Table(entries), c) == Unknown <==> forall i :: 0 <= i < |entries| ==> entries[i].0 != c
    ensures forall i :: 0 <= i < |entries| && entries[i].0 == c && (forall j :: 0 <= j < i ==> entries[j].0 != c) ==>
      KindOf(Table(entries), c) == if entries[i].1 then Valued else Plain
  {
    if entries != [] {
      var rest, t := entries[1..], Table(entries);
      var front: Text := [entries[0].0] + if entries[0].1 then [COLON] else [];
      assert t == front + Table(rest);
      TableHead(rest);
      assert t[0] == entries[0].0 && Entry(t) == |front| && t[|front|..] == Table(rest);
      assert (|t| > 1 && t[1] == COLON) == entries[0].1;
      TableReadsBack(rest, c);
      assert forall i :: 1 <= i < |entries| ==> entries[i] == rest[i - 1];
      assert forall i :: 0 <= i < |rest| ==> rest[i] == entries[i + 1];
    }
  }

  lemma {:induction false} TableHead(entries: seq<(byte, bool)>)
    requires forall e :: e in entries ==> e.0 != COLON
    ensures |Table(entries)| > 0 ==> Table(entries)[0] != COLON
  {
    if entries != [] {
      assert Table(entries)[0] == entries[0].0;
      assert entries[0] in entries;
    }
  }

  // ---- the parser --------------------------------------------------------------------------

  /** What a call finds: an option, with its argument if it takes one, or a letter that is not an
      option or whose argument is missing. */
  datatype Item = Option(c: byte, arg: Maybe) | Problem(c: byte)

  datatype Parsed = Parsed(items: seq<Item>, ind: nat)

  function Push(i: Item, p: Parsed): Parsed {
    Parsed([i] + p.items, p.ind)
  }

  /** The command line from word i on. */
  function Parse(argv: seq<Maybe>, opts: Text, i: nat): Parsed
    decreases |argv| - i, 1, 0
  {
    if i >= |argv| || argv[i] == None then Parsed([], i)
    else
      var w := argv[i].text;
      if w == [] || w[0] != DASH || w == [DASH] then Parsed([], i)
      else if w[1] == DASH then Parsed([], i + 1)
      else ParseWord(argv, opts, i, 1)
  }

  /** The letters of word i from position k on, and the rest of the command line. */
  function ParseWord(argv: seq<Maybe>, opts: Text, i: nat, k: nat): Parsed
    requires i < |argv| && argv[i].Some? && k <= |argv[i].text|
    decreases |argv| - i, 0, |argv[i].text| - k
  {
    var w := argv[i].text;
    if k == |w| then Parse(argv, opts, i + 1)
    else match KindOf(opts, w[k])
      case Unknown => Push(Problem(w[k]), ParseWord(argv, opts, i, k + 1))
      case Plain => Push(Option(w[k], None), ParseWord(argv, opts, i, k + 1))
      case Valued =>
        if k + 1 < |w| then Push(Option(w[k], Some(w[k + 1..])), Parse(argv, opts, i + 1))
        else if i + 1 < |argv| && argv[i + 1].Some? then
          Push(Option(w[k], Some(argv[i + 1].text)), Parse(argv, opts, i + 2))
        else Parsed([Problem(w[k])], i + 1)
  }

  // ---- writing a command line --------------------------------------------------------------

  /** The words for one option, or for a letter that is none. An empty argument needs a word of its own. */
  function Written(o: Item): seq<Maybe> {
    var word: Text := ['-' as int, o.c];
    if o.Problem? || o.arg == None then [Some(word)]
    else if o.arg.text == [] then [Some(word), Some([])]
    else [Some(word + o.arg.text)]
  }

  function WrittenAll(os: seq<Item>): seq<Maybe> {
    if os == [] then [] else Written(os[0]) + WrittenAll(os[1..])
  }

  /** An option as the option string allows it, or a letter that it does not know. */
  predicate Proper(opts: Text, o: Item) {
    o.c != '-' as int &&
    KindOf(opts, o.c) == if o.Problem? then Unknown else if o.arg == None then Plain else Valued
  }

  /** Written options, and unknown letters, read back in order, and parsing goes on behind them, whatever
      that finds. */
  lemma {:induction false} OptionsReadBack(before: seq<Maybe>, os: seq<Item>, rest: seq<Maybe>, opts: Text)
    requires forall o :: o in os ==> Proper(opts, o)
    ensures var argv := before + WrittenAll(os) + rest;
      var p := Parse(argv, opts, |before| + |WrittenAll(os)|);
      Parse(argv, opts, |before|) == Parsed(os + p.items, p.ind)
    decreases |os|
  {
    hide Parse, ParseWord, Proper, Written;
    var argv := before + WrittenAll(os) + rest;
    if os == [] {
      var p := Parse(argv, opts, |before|);
      assert [] + p.items == p.items;
    } else {
      var o, words := os[0], Written(os[0]);
      assert o in os;
      var before' := before + words;
      assert WrittenAll(os) == words + WrittenAll(os[1..]);
      assert argv == before' + WrittenAll(os[1..]) + rest;
      assert argv[|before|..|before'|] == words;
      OptionsReadBack(before', os[1..], rest, opts);
      OneReadsBack(argv, opts, |before|, o);
      var p := Parse(argv, opts, |before| + |WrittenAll(os)|);
      assert |before'| + |WrittenAll(os[1..])| == |before| + |WrittenAll(os)|;
      assert [o] + (os[1..] + p.items) == os + p.items;
    }
  }

  lemma {:induction false} OneReadsBack(argv: seq<Maybe>, opts: Text, i: nat, o: Item)
    requires Proper(opts, o)
    requires i + |Written(o)| <= |argv| && argv[i..i + |Written(o)|] == Written(o)
    ensures Parse(argv, opts, i) == Push(o, Parse(argv, opts, i + |Written(o)|))
  {
    assert argv[i] == argv[i..i + |Written(o)|][0];
    var w := argv[i].text;
    assert w[0] == DASH && w[1] == o.c && |w| >= 2;
    assert Parse(argv, opts, i) == ParseWord(argv, opts, i, 1);
    if o.Problem? || o.arg == None {
      assert ParseWord(argv, opts, i, 2) == Parse(argv, opts, i + 1);
    } else if o.arg.text == [] {
      assert argv[i + 1] == argv[i..i + 2][1];
    } else {
      assert w[2..] == o.arg.text;
    }
  }

  /** Nothing is found exactly at the end, at a word that does not start with '-' or is just "-", and at a word
      that starts with "--"; only the last is passed. */
  lemma ParseStops(argv: seq<Maybe>, opts: Text, i: nat)
    ensures var stop := i >= |argv| || argv[i] == None || argv[i].text == [] ||
                        argv[i].text[0] != '-' as int || argv[i].text == ['-' as int];
            var pass := !stop && argv[i].text[1] == '-' as int;
            && (Parse(argv, opts, i).items == [] <==> stop || pass)
            && (stop || pass ==> Parse(argv, opts, i).ind == if pass then i + 1 else i)
  {
  }

  /** An option at the end of the command line whose argument is missing is a problem. */
  lemma MissingArgument(before: seq<Maybe>, c: byte, opts: Text)
    requires c != '-' as int && KindOf(opts, c) == Valued
    ensures Parse(before + [Some(['-' as int, c])], opts, |before|) == Parsed([Problem(c)], |before| + 1)
  {
    var argv := before + [Some(['-' as int, c])];
    assert argv[|before|] == Some(['-' as int, c]);
    assert Parse(argv, opts, |before|) == ParseWord(argv, opts, |before|, 1);
  }

  /** Letters that take no argument may share a word: a run of them in front of the rest of a word
      means what it means in a word of its own. */
  lemma {:induction false} LettersGroup(argv: seq<Maybe>, opts: Text, i: nat, k: nat, m: nat)
    requires i < |argv| && argv[i].Some? && k <= m <= |argv[i].text|
    requires forall x :: k <= x < m ==> KindOf(opts, argv[i].text[x]) == Plain
    ensures var p := ParseWord(argv, opts, i, m);
      var letters := seq(m - k, x requires 0 <= x < m - k => Option(argv[i].text[k + x], None));
      ParseWord(argv, opts, i, k) == Parsed(letters + p.items, p.ind)
    decreases m - k
  {
    var w, p := argv[i].text, ParseWord(argv, opts, i, m);
    var all := seq(m - k, x requires 0 <= x < m - k => Option(w[k + x], None));
    if k < m {
      LettersGroup(argv, opts, i, k + 1, m);
      var tail := seq(m - k - 1, x requires 0 <= x < m - k - 1 => Option(w[k + 1 + x], None));
      assert all == [Option(w[k], None)] + tail;
      assert all + p.items == [Option(w[k], None)] + (tail + p.items);
    } else {
      assert all + p.items == p.items;
    }
  }

  // ---- the program -------------------------------------------------------------------------

  /** The loop over the option string. */
  method Scan(opts: Text, c: byte) returns (k: Kind)
    requires 0 !in opts && c != 0
    ensures k == KindOf(opts, c)
  {
    var s := 0;
    while At(opts, s) != 0
      invariant s <= |opts| && KindOf(opts, c) == KindOf(opts[s..], c)
      decreases |opts| - s
    {
      if c == At(opts, s) {
        return if At(opts, s + 1) == COLON then Valued else Plain;
      }
      ghost var n := Entry(opts[s..]);
      assert opts[s..][n..] == opts[s + n..];
      s := s + 1;
      if At(opts, s) == COLON {
        s := s + 1;
      }
    }
    return Unknown;
  }

  class Cursor {
    var optind: nat
    var optpos: nat
    var optarg: Maybe
    var optproblem: byte
    const argc: nat
    const argv: seq<Maybe>       // argc elements and a null pointer
    const opts: Text

    ghost predicate Valid()
      reads this
    {
      && |argv| == argc + 1 && argv[argc] == None
      && (forall i :: 0 <= i < argc && argv[i].Some? ==> 0 !in argv[i].text)
      && 0 !in opts
      && (optpos > 0 ==> optind < argc && argv[optind].Some? && optpos <= |argv[optind].text|)
    }

    /** What the calls still to come will find. */
    ghost function Rest(): Parsed
      reads this
      requires Valid()
    {
      if optpos > 0 then ParseWord(argv, opts, optind, optpos) else Parse(argv, opts, optind)
    }

    ghost function Letters(): nat
      reads this
      requires Valid()
    {
      if optpos > 0 then |argv[optind].text| - optpos
      else if optind < argc && argv[optind].Some? then |argv[optind].text| + 1
      else 0
    }

    constructor (args: seq<Text>, opts: Text)
      requires forall a :: a in args ==> 0 !in a
      requires 0 !in opts
      ensures Valid() && this.opts == opts && argc == |args|
      ensures argv == seq(|args|, i requires 0 <= i < |args| => Some(args[i])) + [None]
      ensures optind == 1 && optpos == 0 && Rest() == Parse(argv, opts, 1)
    {
      optind, optpos, optarg, optproblem := 1, 0, None, 0;
      this.opts, argc := opts, |args|;
      argv := seq(|args|, i requires 0 <= i < |args| => Some(args[i])) + [None];
    }

    /** subgetopt. Each call takes the first item off what is left. When it reports a problem, the
        word it stands at tells the two causes apart, as sgetopt's message needs. */
    method Next() returns (r: int, ghost item: Item)
      requires Valid()
      modifies this
      ensures Valid()
      ensures r == DONE ==> old(Rest()) == Parsed([], optind) && optpos == 0 && optarg == None
      ensures r == -1 || 0 <= r < 256
      ensures old(Rest()).items == [] ==> r == -1
      ensures r != DONE ==> old(Rest()) == Push(item, Rest()) && Seen(item, r, optarg, optproblem)
      ensures r != DONE && KindOf(opts, QUESTION) == Unknown ==> (r == QUESTION <==> item.Problem?)
      ensures r != DONE && item.Problem? ==>
        (optind < argc && argv[optind] != None <==> KindOf(opts, optproblem) == Unknown)
      ensures r != DONE ==> old(optind) <= optind <= argc
      ensures r != DONE ==> optind == old(optind) ==> Letters() < old(Letters())
    {
      optarg, item := None, Problem(0);
      ghost var rest := Rest();
      r := DONE;
      if optind >= argc || argv[optind] == None {
        return;
      }
      assert optpos > 0 && optpos < |argv[optind].text| ==> argv[optind].text[optpos] in argv[optind].text;
      if optpos > 0 && At(argv[optind].text, optpos) == 0 {
        assert rest == Parse(argv, opts, optind + 1);
        optind := optind + 1;
        optpos := 0;
        if optind >= argc || argv[optind] == None {
          return;
        }
      }
      assert rest == Rest();
      if optpos == 0 {
        if At(argv[optind].text, 0) != DASH {
          return;
        }
        optpos := optpos + 1;
        var c := At(argv[optind].text, 1);
        if c == DASH || c == 0 {
          if c != 0 {
            optind := optind + 1;
          }
          optpos := 0;
          return;
        }
      }
      assert rest == Rest();
      r, item := Letter();
    }

    /** The rest of a call, when the cursor stands at a letter. */
    method Letter() returns (r: int, ghost item: Item)
      requires Valid() && optpos > 0 && optpos < |argv[optind].text| && optarg == None
      modifies this
      ensures Valid() && r != DONE
      ensures old(Rest()) == Push(item, Rest()) && Seen(item, r, optarg, optproblem)
      ensures item.Option? ==> KindOf(opts, item.c) != Unknown
      ensures item.Problem? ==>
        (optind < argc && argv[optind] != None <==> KindOf(opts, optproblem) == Unknown)
      ensures old(optind) <= optind <= argc
      ensures optind == old(optind) ==> Letters() < old(Letters())
    {
      var w := argv[optind].text;
      var c := At(w, optpos);
      optpos := optpos + 1;
      assert c in w;
      var kind := Scan(opts, c);
      if kind == Valued {
        optarg := Some(w[optpos..]);
        optind := optind + 1;
        optpos := 0;
        if optarg.text == [] {
          optarg := match argv[optind] case None => None case Some(v) => Some(v);
          if optind >= argc || optarg == None {
            optproblem := c;
            return QUESTION, Problem(c);
          }
          optind := optind + 1;
        }
        return c, Option(c, optarg);
      }
      if kind == Plain {
        return c, Option(c, None);
      }
      optproblem := c;
      return QUESTION, Problem(c);
    }

    /** The loop every program runs. No option string of runit has '?' for an option. */
    method Drive() returns (items: seq<Item>)
      requires Valid() && KindOf(opts, QUESTION) == Unknown
      modifies this
      ensures Valid()
      ensures old(Rest()) == Parsed(items, optind)
    {
      items := [];
      while true
        invariant Valid() && old(Rest()) == Parsed(items + Rest().items, Rest().ind)
        decreases argc - optind, Letters()
      {
        ghost var item;
        var r;
        r, item := Next();
        if r == DONE {
          assert items + [] == items;
          return;
        }
        var i := if r == QUESTION then Problem(optproblem) else Option(r, optarg);
        assert i == item;
        assert items + ([i] + Rest().items) == (items + [i]) + Rest().items;
        items := items + [i];
      }
    }
  }

  /** How an item shows in the result and the globals of a call. */
  predicate Seen(i: Item, r: int, optarg: Maybe, optproblem: byte) {
    match i
    case Option(c, arg) => r == c && optarg == arg
    case Problem(c) => r == '?' as int && optproblem == c && optarg == None
  }
}
