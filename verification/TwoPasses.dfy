/** The two passes of a program: counting the options of an argument vector, then storing them. */
module TwoPasses {
  import opened Basics
  import opened OptionLookup
  import opened ArgumentParsing
  import opened Workhorse
  import opened ArgumentVector
  import opened ParseAgreement
  import opened SecondParse
  import opened Rereading
  import opened CheckFunctions
  import opened OptionParser

  /** Nothing limits the number of options, and no message is printed. */
  function Quiet(gnu: bool, usage: seq<Descriptor>, minAbbr: int, singleMinus: bool): Setup {
    Setup(gnu, usage, singleMinus, false, minAbbr, -1)
  }

  /** What the options are then. */
  function AllOptions(gnu: bool, usage: seq<Descriptor>, toks: seq<string>, minAbbr: int, singleMinus: bool): Parsed {
    Parse(Quiet(gnu, usage, minAbbr, singleMinus), toks, 0)
  }

  /** With a given limit, the first options up to the limit are found, and an error if there are more. */
  lemma LimitedOptions(gnu: bool, usage: seq<Descriptor>, toks: seq<string>, minAbbr: int, singleMinus: bool,
                       messages: bool, limit: nat)
    requires IgnoreMessages(usage)
    ensures var p := Parse(Setup(gnu, usage, singleMinus, messages, minAbbr, limit), toks, 0);
            var q := AllOptions(gnu, usage, toks, minAbbr, singleMinus);
            && p.opts == q.opts[..Min(limit, |q.opts|)]
            && p.ok == (q.ok && |q.opts| <= limit)
            && (|q.opts| <= limit ==> p == q)
  {
    ParseCut(Setup(gnu, usage, singleMinus, messages, minAbbr, limit), toks, 0);
    hide IgnoreMessages, Parse;
    var q := AllOptions(gnu, usage, toks, minAbbr, singleMinus);
    assert q.opts[..|q.opts|] == q.opts;
  }

  // ---------- The arguments of a permuted vector ----------

  lemma {:induction false} TokensAre(a: seq<CString>, argc: int, toks: seq<string>)
    requires |toks| <= |a| && (argc >= 0 ==> |toks| <= argc)
    requires forall i :: 0 <= i < |toks| ==> a[i] == Str(toks[i])
    requires |toks| == |a| || |toks| == argc || a[|toks|].Null?
    ensures Tokens(a, argc) == toks
    decreases |a|
  {
    if toks != [] {
      TokensAre(a[1..], if argc > 0 then argc - 1 else argc, toks[1..]);
    }
  }

  lemma {:induction false} SelectTexts(a: seq<CString>, toks: seq<string>, marks: seq<bool>, want: bool)
    requires |a| == |toks| == |marks| && forall i :: 0 <= i < |a| ==> a[i] == Str(toks[i])
    ensures |Select(a, marks, want)| == |Select(toks, marks, want)|
    ensures forall i :: 0 <= i < |Select(a, marks, want)| ==>
              Select(a, marks, want)[i] == Str(Select(toks, marks, want)[i])
  {
    if a != [] {
      SelectTexts(a[1..], toks[1..], marks[1..], want);
    }
  }

  /** The permuted vector has the permuted arguments. */
  lemma PackedTokens(was: seq<CString>, argc: int, marks: seq<bool>)
    requires Bounded(was, argc) && |marks| == |Tokens(was, argc)|
    ensures Tokens(Packed(was, marks), argc) == Permuted(Tokens(was, argc), marks, [])
    ensures Bounded(Packed(was, marks), argc) && |Packed(was, marks)| == |was|
  {
    var toks := Tokens(was, argc);
    PackedRest(was, marks);
    SelectTexts(was[..|toks|], toks, marks, true);
    SelectTexts(was[..|toks|], toks, marks, false);
    SelectLength(toks, marks, true);
    hide Select, Tokens;
    var all := Permuted(toks, marks, []);
    assert |all| == |toks|;
    TokensAre(Packed(was, marks), argc, all);
  }

  lemma UsedFirst(marks: seq<bool>, used: nat)
    requires used <= |marks| && marks == Repeat(true, used) + Repeat(false, |marks| - used)
    ensures MarkedPrefix(marks)
  {
  }

  /** In GNU mode, if no option is disturbed, the permuted vector has the same options and stays as it is. */
  lemma PackedAgain(usage: seq<Descriptor>, was: seq<CString>, argc: int, minAbbr: int, singleMinus: bool)
    requires Bounded(was, argc) && Undisturbed(Quiet(true, usage, minAbbr, singleMinus))
    ensures var p := AllOptions(true, usage, Tokens(was, argc), minAbbr, singleMinus);
            var now := Packed(was, p.marks);
            var r := AllOptions(true, usage, Tokens(now, argc), minAbbr, singleMinus);
            && Bounded(now, argc) && r.opts == p.opts && r.ok == p.ok && Packed(now, r.marks) == now
  {
    var setup := Quiet(true, usage, minAbbr, singleMinus);
    var toks := Tokens(was, argc);
    var p := Parse(setup, toks, 0);
    assert |p.marks| == |toks|;
    ParsedAgain(setup, toks, [], 0);
    PackedTokens(was, argc, p.marks);
    hide Undisturbed, Permuted, Packed, Bounded;
    var now := Packed(was, p.marks);
    var r := Parse(setup, Tokens(now, argc), 0);
    UsedFirst(r.marks, Used(toks, p.marks));
    PrefixStays(now, r.marks, argc);
  }

  /** The vector that a parse in GNU mode leaves has the options of the vector it was given. */
  ghost predicate PassesAgree(setup: Setup, was: seq<CString>, argc: int) {
    var toks := Tokens(was, argc);
    |toks| <= |was| &&
    var p := Parse(setup, toks, 0); var r := Parse(setup, Tokens(Packed(was, p.marks), argc), 0);
    r.opts == p.opts && r.ok == p.ok
  }

  lemma PassesPermute(setup: Setup, was: seq<CString>, argc: int)
    requires Bounded(was, argc)
    ensures PassesAgree(setup, was, argc) <==> SameAgain(setup, Tokens(was, argc))
  {
    PackedTokens(was, argc, Parse(setup, Tokens(was, argc), 0).marks);
    hide Parse, Tokens, Permuted, Packed, Bounded;
  }

  /** In GNU mode the two passes agree on all vectors if and only if no option is disturbed. */
  lemma PassesAgreeExactly(usage: seq<Descriptor>, minAbbr: int, singleMinus: bool)
    ensures var setup := Quiet(true, usage, minAbbr, singleMinus);
            (forall was, argc :: Bounded(was, argc) ==> PassesAgree(setup, was, argc)) <==> Undisturbed(setup)
  {
    var setup := Quiet(true, usage, minAbbr, singleMinus);
    SameAgainExactly(setup);
    hide Undisturbed, SameAgain, PassesAgree, Bounded;
    if Undisturbed(setup) {
      forall was, argc | Bounded(was, argc) ensures PassesAgree(setup, was, argc) {
        PassesPermute(setup, was, argc);
        assert SameAgain(setup, Tokens(was, argc));
      }
    }
    if forall was, argc :: Bounded(was, argc) ==> PassesAgree(setup, was, argc) {
      forall toks ensures SameAgain(setup, toks) {
        var was := VectorOf(toks);
        PassesPermute(setup, was, |toks|);
      }
    }
  }

  lemma VectorOf(toks: seq<string>) returns (was: seq<CString>)
    ensures Bounded(was, |toks|) && Tokens(was, |toks|) == toks
  {
    was := seq(|toks|, i requires 0 <= i < |toks| => Str(toks[i]));
    TokensAre(was, |toks|, toks);
  }

  lemma PrefixStays(now: seq<CString>, marks: seq<bool>, argc: int)
    requires |marks| == |Tokens(now, argc)| && MarkedPrefix(marks)
    ensures Packed(now, marks) == now
  {
    MarkedPrefixStays(now[..|marks|], marks);
    assert now == now[..|marks|] + now[|marks|..];
  }

  // ---------- The passes ----------

  /** The vector that the counting pass leaves, which gives up at the option after INT_MAX - 1. */
  function LeftByCounting(gnu: bool, usage: seq<Descriptor>, was: seq<CString>, argc: int, minAbbr: int,
                          singleMinus: bool): seq<CString>
    requires |Tokens(was, argc)| <= |was|
  {
    Packed(was, Parse(Quiet(gnu, usage, minAbbr, singleMinus).(limit := INT_MAX - 1), Tokens(was, argc), 0).marks)
  }

  lemma LeftByCountingMeans(gnu: bool, usage: seq<Descriptor>, was: seq<CString>, argc: int, minAbbr: int,
                            singleMinus: bool)
    requires Bounded(was, argc) && IgnoreMessages(usage)
    ensures var now := LeftByCounting(gnu, usage, was, argc, minAbbr, singleMinus);
            var all := AllOptions(gnu, usage, Tokens(was, argc), minAbbr, singleMinus);
            && Bounded(now, argc) && |now| == |was|
            && (|all.opts| < INT_MAX ==> now == Packed(was, all.marks))
            && (!gnu ==> now == was && Packed(was, all.marks) == was)
  {
    var setup := Quiet(gnu, usage, minAbbr, singleMinus).(limit := INT_MAX - 1);
    LimitedOptions(gnu, usage, Tokens(was, argc), minAbbr, singleMinus, false, INT_MAX - 1);
    PackedTokens(was, argc, Parse(setup, Tokens(was, argc), 0).marks);
    if !gnu {
      PosixStays(setup, was, argc);
      PosixStays(Quiet(gnu, usage, minAbbr, singleMinus), was, argc);
    }
    hide Parse, Packed, Bounded, IgnoreMessages;
  }

  /** The counting pass. */
  method Measure(gnu: bool, usage: seq<Descriptor>, args: array<CString>, argc: int, minAbbr: int, singleMinus: bool)
    returns (slots: nat, room: nat)
    requires Bounded(args[..], argc) && IgnoreMessages(usage)
    modifies args
    ensures slots == SlotsFor(usage, 1)
    ensures var all := AllOptions(gnu, usage, Tokens(old(args[..]), argc), minAbbr, singleMinus);
            && room == 1 + Min(INT_MAX - 1, |all.opts|)
            && args[..] == LeftByCounting(gnu, usage, old(args[..]), argc, minAbbr, singleMinus)
  {
    LimitedOptions(gnu, usage, Tokens(args[..], argc), minAbbr, singleMinus, false, INT_MAX - 1);
    hide Parse, Packed, Bounded, IgnoreMessages, Tokens;
    var stats := new Stats();
    stats.Add(gnu, usage, args, argc, minAbbr, singleMinus);
    slots, room := stats.optionsMax, stats.bufferMax;
  }

  /** What the storing pass finds in the vector that the counting pass leaves. */
  lemma StoredOptions(gnu: bool, usage: seq<Descriptor>, was: seq<CString>, now: seq<CString>, argc: int,
                      minAbbr: int, singleMinus: bool)
    requires Bounded(was, argc) && IgnoreMessages(usage)
    requires gnu ==> Undisturbed(Quiet(gnu, usage, minAbbr, singleMinus))
    requires now == LeftByCounting(gnu, usage, was, argc, minAbbr, singleMinus)
    ensures var all := AllOptions(gnu, usage, Tokens(was, argc), minAbbr, singleMinus);
            var p := Parse(Setup(gnu, usage, singleMinus, true, minAbbr, INT_MAX), Tokens(now, argc), 0);
            var again := AllOptions(gnu, usage, Tokens(now, argc), minAbbr, singleMinus);
            && p.opts == again.opts[..Min(INT_MAX, |again.opts|)] && p.ok == (again.ok && |again.opts| <= INT_MAX)
            && (!gnu || |all.opts| < INT_MAX ==>
                  again.opts == all.opts && again.ok == all.ok && Packed(now, p.marks) == now)
  {
    LimitedOptions(gnu, usage, Tokens(now, argc), minAbbr, singleMinus, true, INT_MAX);
    LeftByCountingMeans(gnu, usage, was, argc, minAbbr, singleMinus);
    if gnu {
      PackedAgain(usage, was, argc, minAbbr, singleMinus);
    } else {
      PosixStays(Setup(gnu, usage, singleMinus, true, minAbbr, INT_MAX), was, argc);
    }
    hide Parse, Packed, Bounded, IgnoreMessages, Undisturbed, LeftByCounting;
  }

  /** However often the vector has been permuted, the buffer that was counted has room. */
  lemma Enough(setup: Setup, toks: seq<string>, room: nat)
    requires setup.limit == INT_MAX && room == INT_MAX
    ensures |Parse(setup, toks, 0).opts| <= room
  {
    ParseWithin(setup, toks, 0);
  }

  /**
   * The two passes: count the options, then store them in arrays of that size. The counts agree
   * exactly when the number of options leaves room for the sentinel in a signed integer; the arrays
   * are large enough in any case. In GNU mode the counting pass permutes the vector, and the passes
   * still agree if no option is disturbed.
   */
  method MeasureThenStore(gnu: bool, usage: seq<Descriptor>, args: array<CString>, argc: int,
                          minAbbr: int, singleMinus: bool)
    returns (room: nat, parser: Parser)
    requires Bounded(args[..], argc) && IgnoreMessages(usage)
    requires gnu ==> Undisturbed(Quiet(gnu, usage, minAbbr, singleMinus))
    modifies args
    ensures fresh(parser) && parser.Valid()
    ensures |parser.options| == SlotsFor(usage, 1) && |parser.buffer| == room
    ensures var now := LeftByCounting(gnu, usage, old(args[..]), argc, minAbbr, singleMinus);
            var again := AllOptions(gnu, usage, Tokens(now, argc), minAbbr, singleMinus);
            && parser.stored == again.opts[..Min(INT_MAX, |again.opts|)]
            && parser.err == !(again.ok && |again.opts| <= INT_MAX)
    ensures var all := AllOptions(gnu, usage, Tokens(old(args[..]), argc), minAbbr, singleMinus);
            !gnu || |all.opts| < INT_MAX ==>
              && parser.stored == all.opts[..Min(INT_MAX, |all.opts|)]
              && parser.err == !(all.ok && |all.opts| <= INT_MAX)
              && (|parser.stored| == room - 1 <==> |all.opts| < INT_MAX)
              && args[..] == if gnu then Packed(old(args[..]), all.marks) else old(args[..])
  {
    ghost var was := args[..];
    ghost var all := AllOptions(gnu, usage, Tokens(was, argc), minAbbr, singleMinus);
    var slots;
    slots, room := Measure(gnu, usage, args, argc, minAbbr, singleMinus);
    ghost var now := args[..];
    ghost var setup := Setup(gnu, usage, singleMinus, true, minAbbr, INT_MAX);
    LeftByCountingMeans(gnu, usage, was, argc, minAbbr, singleMinus);
    StoredOptions(gnu, usage, was, now, argc, minAbbr, singleMinus);
    if |all.opts| >= INT_MAX {
      Enough(setup, Tokens(now, argc), room);
    }
    hide Parse, Packed, Bounded, IgnoreMessages, Undisturbed, Tokens, LeftByCounting;
    parser := new Parser(usage, slots, room);
    assert parser.SetupFor(gnu, minAbbr, singleMinus, -1) == setup;
    parser.Parse(gnu, args, argc, minAbbr, singleMinus, -1);
  }

  // ---------- Passes that differ ----------

  /** Takes the next argument only if that looks like an option. */
  function TakesDashed(option: Opt, messages: bool): ArgStatus {
    match option.arg
    case Just(a) => if a != "" && a[0] == '-' then ArgOk else ArgNone
    case Nothing => ArgNone
  }

  const FICKLE := [Descriptor(0, 0, "a", "all", TakesDashed), Descriptor(1, 0, "b", "both", NoArgument)]

  lemma FindsBoth(done: nat)
    ensures var setup := Setup(true, FICKLE, false, false, 0, -1);
            && Token(setup, "-a", Just("x"), done) == Group([Opt(0, "a", 1, Nothing)], false, true)
            && Token(setup, "-b", Nothing, done) == Group([Opt(1, "b", 1, Nothing)], false, true)
            && Token(setup, "-a", Just("-b"), done) == Group([Opt(0, "a", 1, Just("-b"))], true, true)
  {
    var setup := Setup(true, FICKLE, false, false, 0, -1);
    assert "-a"[1..] == "a" && "-b"[1..] == "b";
    assert FICKLE[1..][0] == FICKLE[1];
    assert ShortIndex(FICKLE, 'a') == 0 && ShortIndex(FICKLE[1..], 'b') == 0 && ShortIndex(FICKLE, 'b') == 1;
    assert ShortGroup(setup, "-a", 2, Just("x"), done + 1) == Group([], false, true);
    assert ShortGroup(setup, "-b", 2, Nothing, done + 1) == Group([], false, true);
  }

  lemma CountingMoves(setup: Setup)
    requires setup == Setup(true, FICKLE, false, false, 0, -1)
    ensures FirstMove(setup, ["-a", "x", "-b"], 0) == Go([Opt(0, "a", 1, Nothing)], true, 1)
    ensures FirstMove(setup, ["x", "-b"], 1) == Go([], false, 1)
    ensures FirstMove(setup, ["-b"], 1) == Go([Opt(1, "b", 1, Nothing)], true, 1)
    ensures FirstMove(setup, [], 2) == Stop(Parsed([], [], true, 0))
  {
    FindsBoth(0);
    FindsBoth(1);
    hide Token;
  }

  lemma CountedOptions()
    ensures var p := AllOptions(true, FICKLE, ["-a", "x", "-b"], 0, false);
            p.ok && |p.opts| == 2 && p.marks == [true, false, true]
  {
    var setup, toks, more, last := Setup(true, FICKLE, false, false, 0, -1), ["-a", "x", "-b"], ["x", "-b"], ["-b"];
    hide FirstMove, Parse;
    CountingMoves(setup);
    assert toks[1..] == more && more[1..] == last && last[1..] == [];
    ParseMoves(setup, toks, 0);
    ParseMoves(setup, more, 1);
    ParseMoves(setup, last, 1);
    ParseMoves(setup, [], 2);
  }

  lemma StoredOption()
    ensures var r := AllOptions(true, FICKLE, ["-a", "-b", "x"], 0, false); r.ok && |r.opts| == 1
  {
    var setup, toks, last := Setup(true, FICKLE, false, false, 0, -1), ["-a", "-b", "x"], ["x"];
    FindsBoth(0);
    assert toks[2..] == last && last[1..] == [];
    hide Token, Parse;
    ParseMoves(setup, toks, 0);
    ParseMoves(setup, last, 1);
    ParseMoves(setup, [], 1);
  }

  lemma SelectThree(x: string, y: string, z: string, want: bool)
    ensures Select([x, y, z], [true, false, true], want) == if want then [x, z] else [y]
  {
    assert [x, y, z][1..] == [y, z] && [y, z][1..] == [z] && [z][1..] == [];
    assert [true, false, true][1..] == [false, true] && [false, true][1..] == [true] && [true][1..] == [];
    assert Select([z], [true], want) == if want then [z] else [];
    assert Select([y, z], [false, true], want) == if want then [z] else [y];
  }

  lemma FickleOrder(toks: seq<string>, marks: seq<bool>)
    requires toks == ["-a", "x", "-b"] && marks == [true, false, true]
    ensures Permuted(toks, marks, []) == ["-a", "-b", "x"]
  {
    hide Select;
    SelectThree("-a", "x", "-b", true);
    SelectThree("-a", "x", "-b", false);
  }

  /** An option that is disturbed: two options are counted and one is stored. */
  lemma PassesDiffer() returns (was: seq<CString>)
    ensures Bounded(was, 3) && IgnoreMessages(FICKLE)
    ensures var p := AllOptions(true, FICKLE, Tokens(was, 3), 0, false);
            var r := AllOptions(true, FICKLE, Tokens(Packed(was, p.marks), 3), 0, false);
            p.ok && r.ok && |p.opts| == 2 && |r.opts| == 1
  {
    was := [Str("-a"), Str("x"), Str("-b")];
    var toks := ["-a", "x", "-b"];
    TokensAre(was, 3, toks);
    assert Bounded(was, 3) && IgnoreMessages(FICKLE);
    hide Parse, Token, Tokens, Permuted, Packed, Bounded, IgnoreMessages;
    CountedOptions();
    StoredOption();
    var marks := [true, false, true];
    FickleOrder(toks, marks);
    PackedTokens(was, 3, marks);
  }

  const NEEDY := [Descriptor(0, 0, "f", "file", RequiredArgument)]

  /**
   * A parse in GNU mode that gives up at a limit may part an option from its argument: with no room
   * for the option it leaves a vector in which -f is followed by another word.
   */
  lemma CutShort()
    ensures var toks := ["x", "-f", "y"];
            var p := Parse(Quiet(true, NEEDY, 0, false).(limit := 0), toks, 0);
            var now := Permuted(toks, p.marks, []);
            && !p.ok && now == ["-f", "x", "y"]
            && AllOptions(true, NEEDY, toks, 0, false).opts == [Opt(0, "f", 1, Just("y"))]
            && AllOptions(true, NEEDY, now, 0, false).opts == [Opt(0, "f", 1, Just("x"))]
  {
    var quiet, toks, more, now := Quiet(true, NEEDY, 0, false), ["x", "-f", "y"], ["-f", "y"], ["-f", "x", "y"];
    var cut := quiet.(limit := 0);
    assert toks[1..] == more && more[2..] == [] && now[2..] == ["y"] && ["y"][1..] == [];
    hide FirstMove, Parse, Select;
    NeedyMoves(quiet);
    NeedyMoves(cut);
    ParseMoves(cut, toks, 0);
    ParseMoves(cut, more, 0);
    ParseMoves(quiet, toks, 0);
    ParseMoves(quiet, more, 0);
    ParseMoves(quiet, now, 0);
    ParseMoves(quiet, ["y"], 1);
    ParseMoves(quiet, [], 1);
    assert Parse(cut, toks, 0).marks == [false, true, false];
    SelectMiddle("x", "-f", "y", true);
    SelectMiddle("x", "-f", "y", false);
  }

  lemma NeedyMoves(setup: Setup)
    requires setup.gnu && setup.usage == NEEDY && !setup.singleMinus
    ensures FirstMove(setup, ["x", "-f", "y"], 0) == Go([], false, 1)
    ensures FirstMove(setup, ["-f", "y"], 0) ==
            if Accepts(setup, 0) then Go([Opt(0, "f", 1, Just("y"))], true, 2)
            else Stop(Parsed([], [true, false], false, 1))
    ensures Accepts(setup, 0) ==>
              FirstMove(setup, ["-f", "x", "y"], 0) == Go([Opt(0, "f", 1, Just("x"))], true, 2)
    ensures FirstMove(setup, ["y"], 1) == Go([], false, 1)
    ensures FirstMove(setup, [], 1) == Stop(Parsed([], [], true, 0))
  {
    FindsNeedy(setup, "x");
    FindsNeedy(setup, "y");
    hide Token;
    assert [true] + Repeat(false, 1) == [true, false];
  }

  lemma FindsNeedy(setup: Setup, arg: string)
    requires setup.usage == NEEDY && !setup.singleMinus
    ensures Token(setup, "-f", Just(arg), 0) ==
            if Accepts(setup, 0) then Group([Opt(0, "f", 1, Just(arg))], true, true) else Group([], true, false)
  {
    assert "-f"[1..] == "f" && ShortIndex(NEEDY, 'f') == 0;
  }

  lemma SelectMiddle(x: string, y: string, z: string, want: bool)
    ensures Select([x, y, z], [false, true, false], want) == if want then [y] else [x, z]
  {
    assert [x, y, z][1..] == [y, z] && [y, z][1..] == [z] && [z][1..] == [];
    assert [false, true, false][1..] == [true, false] && [true, false][1..] == [false] && [false][1..] == [];
    assert Select([z], [false], want) == if want then [] else [z];
    assert Select([y, z], [true, false], want) == if want then [y] else [z];
  }
}
