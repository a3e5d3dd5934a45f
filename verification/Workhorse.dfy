/** The parser core, which permutes the argument vector in place while it finds the options. */
module Workhorse {
  import opened Basics
  import opened OptionLookup
  import opened ArgumentParsing

  /** An element of the argument vector. */
  datatype CString = Null | Str(text: string)

  /** The arguments before the first null pointer, at most numargs of them unless that is negative. */
  function Tokens(a: seq<CString>, numargs: int): (toks: seq<string>)
    ensures |toks| <= |a| && (numargs >= 0 ==> |toks| <= numargs)
    ensures forall i :: 0 <= i < |toks| ==> a[i] == Str(toks[i])
    ensures |toks| == |a| || |toks| == numargs || a[|toks|].Null?
  {
    if a == [] || numargs == 0 || a[0].Null? then []
    else [a[0].text] + Tokens(a[1..], if numargs > 0 then numargs - 1 else numargs)
  }

  /** numargs does not exceed the vector, or a null pointer ends it. */
  ghost predicate Bounded(a: seq<CString>, numargs: int) {
    |Tokens(a, numargs)| < |a| || |Tokens(a, numargs)| == numargs
  }

  /** The vector with its first |marks| elements partitioned. */
  function Packed(a: seq<CString>, marks: seq<bool>): seq<CString>
    requires |marks| <= |a|
  {
    Partition(a[..|marks|], marks) + a[|marks|..]
  }

  /** a with element base moved in front of the count elements before it. */
  function Shifted(a: seq<CString>, base: nat, count: nat): seq<CString>
    requires count <= base < |a|
  {
    a[..base - count] + [a[base]] + a[base - count..base] + a[base + 1..]
  }

  method Shift(args: array<CString>, base: nat, count: nat)
    requires count <= base < args.Length
    modifies args
    ensures args[..] == Shifted(old(args[..]), base, count)
  {
    ghost var was := args[..];
    var i: int := 0;
    while i > 0 - count
      invariant 0 - count <= i <= 0
      invariant args[base + i] == was[base]
      invariant forall k :: 0 <= k < args.Length && (k < base + i || k > base) ==> args[k] == was[k]
      invariant forall k :: base + i < k <= base ==> args[k] == was[k - 1]
    {
      var temp := args[base + i];
      args[base + i] := args[base + i - 1];
      args[base + i - 1] := temp;
      i := i - 1;
    }
    ShiftedIs(args[..], was, base, count);
  }

  lemma ShiftedIs(now: seq<CString>, was: seq<CString>, base: nat, count: nat)
    requires count <= base < |was| == |now| && now[base - count] == was[base]
    requires forall k :: 0 <= k < |now| && (k < base - count || k > base) ==> now[k] == was[k]
    requires forall k :: base - count < k <= base ==> now[k] == was[k - 1]
    ensures now == Shifted(was, base, count)
  {
  }

  // ---------- One argument ----------

  method FindShort(usage: seq<Descriptor>, c: char) returns (idx: nat)
    ensures idx == ShortIndex(usage, c)
  {
    idx := 0;
    while idx != |usage| && c !in usage[idx].shortopt
      invariant idx <= |usage| && idx + ShortIndex(usage[idx..], c) == ShortIndex(usage, c)
    {
      idx := idx + 1;
    }
  }

  method FindDummy(usage: seq<Descriptor>) returns (idx: nat)
    ensures idx == DummyIndex(usage)
  {
    idx := 0;
    while idx != |usage| && (usage[idx].shortopt != "" || usage[idx].longopt != "")
      invariant idx <= |usage| && idx + DummyIndex(usage[idx..]) == DummyIndex(usage)
    {
      idx := idx + 1;
    }
  }

  method FindAssign(text: string) returns (n: nat)
    ensures n == AssignAt(text)
  {
    n := 0;
    while n != |text| && text[n] != '='
      invariant n <= |text| && n + AssignAt(text[n..]) == AssignAt(text)
    {
      n := n + 1;
    }
  }

  method CheckOption(setup: Setup, found: nat, name: string, optarg: Maybe<string>) returns (v: Verdict)
    requires name != "" && found <= |setup.usage|
    ensures v == Judge(setup, found, name, optarg)
    ensures v.Dropped? <==> found == |setup.usage| && forall i :: 0 <= i < |setup.usage| ==> !IsDummy(setup.usage[i])
    ensures v.Accepted? ==> v.opt.desc < |setup.usage| && v.opt.name == name && v.opt.arg in {Nothing, optarg}
    ensures v.Accepted? ==> if found < |setup.usage| then v.opt.desc == found else IsDummy(setup.usage[v.opt.desc])
    ensures v.Accepted? && v.stops ==>
              v.opt.arg == optarg && setup.usage[v.opt.desc].check(v.opt, setup.printErrors) == ArgOk
    ensures v.Accepted? && !v.stops ==> v.opt.arg == Nothing
    ensures v.Illegal? && found < |setup.usage| ==>
              setup.usage[found].check(Opt(found, name, NameLength(name), optarg), setup.printErrors) == ArgIllegal
  {
    DummyIndexMeans(setup.usage);
    var idx := found;
    if idx == |setup.usage| {
      idx := FindDummy(setup.usage);
    }
    if idx == |setup.usage| {
      return Dropped;
    }
    var option := Opt(idx, name, NameLength(name), optarg);
    match setup.usage[idx].check(option, setup.printErrors) {
      case ArgIllegal => return Illegal;
      case ArgOk => return Accepted(option, true);
      case ArgIgnore => return Accepted(option.(arg := Nothing), false);
      case ArgNone => return Accepted(option.(arg := Nothing), false);
    }
  }

  /** The argument after the current one, if there is one. */
  function NextString(a: seq<CString>, base: nat, haveMore: bool): Maybe<string> {
    if haveMore && base + 1 < |a| && a[base + 1].Str? then Just(a[base + 1].text) else Nothing
  }

  function Prefixed(opts: seq<Opt>, g: Group): Group {
    g.(opts := opts + g.opts)
  }

  lemma PrefixedAppend(opts: seq<Opt>, opt: Opt, g: Group)
    ensures Prefixed(opts + [opt], g) == Prefixed(opts, g.(opts := [opt] + g.opts))
  {
    assert opts + [opt] + g.opts == opts + ([opt] + g.opts);
  }

  /** Where the loop over one argument stands: at which character, and what it still tries. */
  datatype Cursor = Cursor(param: nat, handleShort: bool, tryLong: bool)

  /** The next option: its descriptor, its argument, whether that is a separate one; or the end. */
  datatype Found = End | Option(idx: nat, optarg: Maybe<string>, separate: bool, to: Cursor)

  function TextOf(tok: string): string
    requires !IsNonOption(tok)
  {
    if tok[1] == '-' then tok[2..] else tok[1..]
  }

  predicate TriesLong(at: Cursor) {
    !at.handleShort || at.tryLong
  }

  /** What the two halves of the loop body find, the long option first. */
  function Locate(setup: Setup, tok: string, next: Maybe<string>, at: Cursor): (f: Found)
    requires !IsNonOption(tok) && at.param < |tok|
    ensures f.Option? ==> f.idx <= |setup.usage| && f.to.param < |tok|
    ensures f.Option? && f.to.handleShort ==> f.to.param > at.param
  {
    var idx := if TriesLong(at) then LongIndex(setup.usage, TextOf(tok), setup.minAbbr) else |setup.usage|;
    if TriesLong(at) && (!at.handleShort || idx < |setup.usage|) then
      var n := AssignAt(TextOf(tok));
      var separate := n == |TextOf(tok)|;
      Option(idx, if separate then next else Just(TextOf(tok)[n + 1..]), separate, Cursor(at.param, false, false))
    else if at.param + 1 == |tok| then End
    else
      var p := at.param + 1;
      var separate := p + 1 == |tok|;
      Option(ShortIndex(setup.usage, tok[p]), if separate then next else Just(tok[p + 1..]), separate,
             Cursor(p, true, false))
  }

  /** The loop over one argument, round by round; opts are the options found so far. */
  function Loop(setup: Setup, tok: string, next: Maybe<string>, at: Cursor, done: nat, opts: seq<Opt>): Group
    requires !IsNonOption(tok) && at.param < |tok|
    decreases |tok| - at.param
  {
    match Locate(setup, tok, next, at)
    case End => Group(opts, false, true)
    case Option(idx, optarg, separate, to) =>
      match Judge(setup, idx, tok[to.param..], optarg)
      case Dropped => if to.handleShort then Loop(setup, tok, next, to, done, opts) else Group(opts, false, true)
      case Illegal => Group(opts, false, false)
      case Accepted(opt, stops) =>
        var took := stops && separate && optarg.Just?;
        if !Accepts(setup, done + |opts|) then Group(opts, took, false)
        else if stops || !to.handleShort then Group(opts + [opt], took, true)
        else Loop(setup, tok, next, to, done, opts + [opt])
  }

  method FindOption(setup: Setup, tok: string, next: Maybe<string>, at: Cursor) returns (f: Found)
    requires !IsNonOption(tok) && at.param < |tok|
    ensures f == Locate(setup, tok, next, at)
  {
    var to := at;
    var idx := 0;
    if !at.handleShort || at.tryLong {
      var text := TextOf(tok);
      idx := FindLong(setup.usage, text, setup.minAbbr);
      to := Cursor(to.param, to.handleShort && idx == |setup.usage|, false);
      var n := FindAssign(text);
      if !to.handleShort {
        var separate := n == |text|;
        return Option(idx, if separate then next else Just(text[n + 1..]), separate, to);
      }
    }
    to := Cursor(to.param + 1, true, false);
    if to.param == |tok| {
      return End;
    }
    idx := FindShort(setup.usage, tok[to.param]);
    var separate := to.param + 1 == |tok|;
    return Option(idx, if separate then next else Just(tok[to.param + 1..]), separate, to);
  }

  method ScanArgument(setup: Setup, tok: string, next: Maybe<string>, start: Cursor, done: nat) returns (g: Group)
    requires !IsNonOption(tok) && start.param < |tok|
    ensures g == Loop(setup, tok, next, start, done, [])
  {
    var at, opts := start, [];
    while true
      invariant at.param < |tok|
      invariant Loop(setup, tok, next, at, done, opts) == Loop(setup, tok, next, start, done, [])
      decreases |tok| - at.param
    {
      var f := FindOption(setup, tok, next, at);
      if f.End? {
        return Group(opts, false, true);
      }
      var v := CheckOption(setup, f.idx, tok[f.to.param..], f.optarg);
      var goOn := f.to.handleShort;
      match v {
        case Dropped =>
          if !goOn {
            return Group(opts, false, true);
          }
        case Illegal =>
          return Group(opts, false, false);
        case Accepted(opt, stops) =>
          var took := stops && f.separate && f.optarg.Just?;
          if !Accepts(setup, done + |opts|) {
            return Group(opts, took, false);
          }
          opts := opts + [opt];
          if stops || !goOn {
            return Group(opts, took, true);
          }
      }
      at := f.to;
    }
  }

  lemma {:induction false} LoopIsShortGroup(
      setup: Setup, tok: string, next: Maybe<string>, at: Cursor, done: nat, opts: seq<Opt>)
    requires !IsNonOption(tok) && at.param < |tok| && at.handleShort
    requires at.tryLong ==> LongIndex(setup.usage, TextOf(tok), setup.minAbbr) == |setup.usage|
    ensures Loop(setup, tok, next, at, done, opts) ==
            Prefixed(opts, ShortGroup(setup, tok, at.param + 1, next, done + |opts|))
    decreases |tok| - at.param
  {
    hide LongIndex, ShortIndex, AssignAt, Accepts, Judge;
    if at.param + 1 < |tok| {
      var to := Cursor(at.param + 1, true, false);
      var f := Locate(setup, tok, next, at);
      match Judge(setup, f.idx, tok[to.param..], f.optarg) {
        case Dropped =>
          LoopIsShortGroup(setup, tok, next, to, done, opts);
        case Illegal =>
        case Accepted(opt, stops) =>
          if Accepts(setup, done + |opts|) && !stops {
            LoopIsShortGroup(setup, tok, next, to, done, opts + [opt]);
            PrefixedAppend(opts, opt, ShortGroup(setup, tok, to.param + 1, next, done + |opts| + 1));
          }
      }
    }
  }

  lemma LoopIsLong(setup: Setup, tok: string, next: Maybe<string>, done: nat)
    requires !IsNonOption(tok)
    requires tok[1] == '-' || (setup.singleMinus && LongIndex(setup.usage, TextOf(tok), setup.minAbbr) < |setup.usage|)
    ensures Loop(setup, tok, next, Cursor(0, tok[1] != '-', setup.singleMinus), done, []) ==
            LongOption(setup, tok, TextOf(tok), LongIndex(setup.usage, TextOf(tok), setup.minAbbr), next, done)
  {
    hide LongIndex, Judge, AssignAt;
    assert tok[0..] == tok;
  }

  /** The loop over one argument finds what the argument means. */
  lemma LoopIsToken(setup: Setup, tok: string, next: Maybe<string>, done: nat)
    requires !IsNonOption(tok)
    ensures Loop(setup, tok, next, Cursor(0, tok[1] != '-', setup.singleMinus), done, []) ==
            Token(setup, tok, next, done)
  {
    var start := Cursor(0, tok[1] != '-', setup.singleMinus);
    var idx := LongIndex(setup.usage, TextOf(tok), setup.minAbbr);
    hide Loop, ShortGroup, LongOption, LongIndex;
    if tok[1] != '-' && !(setup.singleMinus && idx < |setup.usage|) {
      LoopIsShortGroup(setup, tok, next, start, done, []);
    } else {
      LoopIsLong(setup, tok, next, done);
    }
  }

  /** Parsing the argument at args[base]. A separate option argument moves args on by one. */
  method ParseArgument(setup: Setup, args: array<CString>, base: nat, nonops: nat, haveMore: bool, done: nat)
    returns (g: Group)
    requires nonops <= base < args.Length && args[base].Str? && !IsNonOption(args[base].text)
    requires haveMore ==> base + 1 < args.Length
    modifies args
    ensures g == Token(setup, old(args[base].text), NextString(old(args[..]), base, haveMore), done)
    ensures args[..] == if g.tookNext then Shifted(old(args[..]), base, nonops) else old(args[..])
  {
    var next := if haveMore && args[base + 1].Str? then Just(args[base + 1].text) else Nothing;
    assert next == NextString(args[..], base, haveMore);
    var tok := args[base].text;
    LoopIsToken(setup, tok, next, done);
    g := ScanArgument(setup, tok, next, Cursor(0, tok[1] != '-', setup.singleMinus), done);
    if g.tookNext {
      Shift(args, base, nonops);
    }
  }

  // ---------- The vector ----------

  /** How many of the first arguments have been passed over as non-options. */
  function Passed(marks: seq<bool>): nat {
    |Select(marks, marks, false)|
  }

  lemma {:induction false} SelectLength<T>(s: seq<T>, marks: seq<bool>, want: bool)
    requires |marks| == |s|
    ensures |Select(s, marks, want)| == |Select(marks, marks, want)| <= |marks|
    ensures |Select(s, marks, true)| + |Select(s, marks, false)| == |marks|
  {
    if s != [] {
      SelectLength(s[1..], marks[1..], want);
    }
  }

  lemma SelectAppend<T>(s: seq<T>, x: T, marks: seq<bool>, b: bool, want: bool)
    requires |marks| == |s|
    ensures Select(s + [x], marks + [b], want) == Select(s, marks, want) + if b == want then [x] else []
  {
    SelectConcat(s, [x], marks, [b], want);
    assert [x][1..] == [] && [b][1..] == [];
  }

  /** Leaving an argument where it is passes over it. */
  lemma PassOver(was: seq<CString>, marks: seq<bool>)
    requires |marks| < |was|
    ensures Packed(was, marks + [false]) == Packed(was, marks)
    ensures Passed(marks + [false]) == Passed(marks) + 1
  {
    var k := |marks|;
    assert was[..k + 1] == was[..k] + [was[k]];
    SelectAppend(was[..k], was[k], marks, false, true);
    SelectAppend(was[..k], was[k], marks, false, false);
    SelectAppend(marks, false, marks, false, false);
    assert was[k..] == [was[k]] + was[k + 1..];
  }

  /** Shifting an argument in front of the non-options uses it up. */
  lemma UseUp(was: seq<CString>, marks: seq<bool>)
    requires |marks| < |was|
    ensures Passed(marks) <= |marks| && |Packed(was, marks)| == |was|
    ensures Packed(was, marks)[|marks|] == was[|marks|]
    ensures Packed(was, marks + [true]) == Shifted(Packed(was, marks), |marks|, Passed(marks))
    ensures Passed(marks + [true]) == Passed(marks)
  {
    var k := |marks|;
    assert was[..k + 1] == was[..k] + [was[k]];
    SelectLength(was[..k], marks, false);
    SelectLength(was[..k], marks, true);
    SelectAppend(was[..k], was[k], marks, true, true);
    SelectAppend(was[..k], was[k], marks, true, false);
    SelectAppend(marks, true, marks, true, false);
    assert was[k..] == [was[k]] + was[k + 1..];
    var c, n := Select(was[..k], marks, true), Select(was[..k], marks, false);
    assert Packed(was, marks) == c + n + [was[k]] + was[k + 1..];
    assert Packed(was, marks + [true]) == c + [was[k]] + n + was[k + 1..];
  }

  lemma PackedRest(was: seq<CString>, marks: seq<bool>)
    requires |marks| <= |was|
    ensures |Packed(was, marks)| == |was|
    ensures forall k :: |marks| <= k < |was| ==> Packed(was, marks)[k] == was[k]
  {
    SelectLength(was[..|marks|], marks, false);
  }

  lemma AfterTwice(opts: seq<Opt>, marks: seq<bool>, more: seq<Opt>, used: seq<bool>, rest: Parsed)
    ensures After(opts + more, marks + used, rest) == After(opts, marks, After(more, used, rest))
  {
    assert opts + more + rest.opts == opts + (more + rest.opts);
    assert marks + used + rest.marks == marks + (used + rest.marks);
  }

  lemma {:induction false} PackedFalse(was: seq<CString>, marks: seq<bool>, n: nat)
    requires |marks| + n <= |was|
    ensures Packed(was, marks + Repeat(false, n)) == Packed(was, marks)
    ensures Passed(marks + Repeat(false, n)) == Passed(marks) + n
    decreases n
  {
    if n == 0 {
      assert marks + Repeat(false, 0) == marks;
    } else {
      PackedFalse(was, marks + [false], n - 1);
      PassOver(was, marks);
      assert marks + Repeat(false, n) == marks + [false] + Repeat(false, n - 1);
    }
  }

  /** The vector, its first arguments dealt with according to marks. */
  ghost predicate Dealt(now: seq<CString>, was: seq<CString>, toks: seq<string>, marks: seq<bool>, nonops: nat) {
    && |marks| <= |toks| <= |was|
    && (forall i :: 0 <= i < |toks| ==> was[i] == Str(toks[i]))
    && now == Packed(was, marks) && nonops == Passed(marks)
  }

  lemma DealtNext(now: seq<CString>, was: seq<CString>, toks: seq<string>, marks: seq<bool>, nonops: nat)
    requires Dealt(now, was, toks, marks, nonops) && |marks| < |toks|
    ensures nonops <= |marks| < |now| == |was|
    ensures forall k :: |marks| <= k < |was| ==> now[k] == was[k]
    ensures Dealt(now, was, toks, marks + [false], nonops + 1)
    ensures Dealt(Shifted(now, |marks|, nonops), was, toks, marks + [true], nonops)
  {
    PackedRest(was, marks);
    PassOver(was, marks);
    UseUp(was, marks);
  }

  lemma DealtRest(now: seq<CString>, was: seq<CString>, toks: seq<string>, marks: seq<bool>, nonops: nat, n: nat)
    requires Dealt(now, was, toks, marks, nonops) && |marks| + n <= |toks|
    ensures Dealt(now, was, toks, marks + Repeat(false, n), nonops + n)
  {
    PackedFalse(was, marks, n);
  }

  /** One round of the loop over the vector, for an argument that looks like an option. */
  method DealWithOption(setup: Setup, args: array<CString>, base: nat, nonops: nat, haveMore: bool, done: nat,
                        ghost was: seq<CString>, ghost toks: seq<string>, ghost marks: seq<bool>)
    returns (g: Group)
    requires Dealt(args[..], was, toks, marks, nonops) && base == |marks| < |toks|
    requires !IsNonOption(toks[base])
    requires haveMore ==> base + 1 < args.Length
    requires NextString(was, base, haveMore) == Next(toks[base..])
    modifies args
    ensures g == Token(setup, toks[base], Next(toks[base..]), done)
    ensures g.tookNext ==> base + 1 < |toks|
    ensures g.ok ==> Dealt(args[..], was, toks, marks + Repeat(true, if g.tookNext then 2 else 1), nonops)
    ensures !g.ok ==> args[..] == Packed(was, marks + ([g.tookNext] + Repeat(false, |toks| - base - 1)))
  {
    hide Dealt, Token, Packed, Shifted;
    DealtNext(args[..], was, toks, marks, nonops);
    assert args[..][base] == was[base];
    assert NextString(args[..], base, haveMore) == NextString(was, base, haveMore);
    g := ParseArgument(setup, args, base, nonops, haveMore, done);
    if g.ok {
      if g.tookNext {
        DealtNext(args[..], was, toks, marks + [true], nonops);
        Shift(args, base + 1, nonops);
        assert marks + [true] + [true] == marks + Repeat(true, 2);
      } else {
        Shift(args, base, nonops);
        assert marks + [true] == marks + Repeat(true, 1);
      }
    } else {
      FailedMarks(args[..], was, toks, marks, if g.tookNext then nonops else nonops + 1, g.tookNext);
    }
  }

  lemma FailedMarks(now: seq<CString>, was: seq<CString>, toks: seq<string>, marks: seq<bool>, nonops: nat, took: bool)
    requires |marks| < |toks| && Dealt(now, was, toks, marks + [took], nonops)
    ensures now == Packed(was, marks + ([took] + Repeat(false, |toks| - |marks| - 1)))
  {
    var left := |toks| - |marks| - 1;
    DealtRest(now, was, toks, marks + [took], nonops, left);
    assert marks + ([took] + Repeat(false, left)) == marks + [took] + Repeat(false, left);
  }

  /** The "--" is used up, and the arguments after it stay. */
  method EndOptions(args: array<CString>, base: nat, nonops: nat,
                    ghost was: seq<CString>, ghost toks: seq<string>, ghost marks: seq<bool>)
    requires Dealt(args[..], was, toks, marks, nonops) && base == |marks| < |toks|
    modifies args
    ensures var left := |toks| - base - 1;
            Dealt(args[..], was, toks, marks + ([true] + Repeat(false, left)), nonops + left)
  {
    ghost var left := |toks| - base - 1;
    DealtNext(args[..], was, toks, marks, nonops);
    Shift(args, base, nonops);
    DealtRest(args[..], was, toks, marks + [true], nonops, left);
    assert marks + ([true] + Repeat(false, left)) == marks + [true] + Repeat(false, left);
  }

  /** How much the caller's count exceeds the arguments, as long as some were not looked at. */
  function Excess(numargs: int, toks: nat, left: nat): nat {
    if left > 0 && numargs > toks then numargs - toks else 0
  }

  /** The next argument of the vector, as the parse of the remaining arguments sees it. */
  lemma NextAgrees(was: seq<CString>, toks: seq<string>, argc: int, base: nat)
    requires toks == Tokens(was, argc) && Bounded(was, argc) && base < |toks|
    ensures var haveMore := (if argc < 0 then argc else argc - base) != 1;
            && (haveMore ==> base + 1 < |was|)
            && NextString(was, base, haveMore) == Next(toks[base..])
  {
    assert toks[base..][0] == toks[base];
    if base + 1 < |toks| {
      assert toks[base..][1] == toks[base + 1];
    }
  }

  /** The loop over the vector; marks and opts are what the rounds so far have yielded. */
  function ParseFrom(setup: Setup, toks: seq<string>, marks: seq<bool>, opts: seq<Opt>): Parsed
    requires |marks| <= |toks|
    decreases |toks| - |marks|
  {
    match FirstMove(setup, toks[|marks|..], |opts|)
    case Stop(last) => After(opts, marks, last)
    case Go(more, used, k) => ParseFrom(setup, toks, marks + Repeat(used, k), opts + more)
  }

  lemma {:induction false} ParseFromIsParse(setup: Setup, toks: seq<string>, marks: seq<bool>, opts: seq<Opt>)
    requires |marks| <= |toks|
    ensures ParseFrom(setup, toks, marks, opts) == After(opts, marks, Parse(setup, toks[|marks|..], |opts|))
    decreases |toks| - |marks|
  {
    hide FirstMove, After;
    var toks' := toks[|marks|..];
    var m := FirstMove(setup, toks', |opts|);
    if m.Go? {
      var marks', opts' := marks + Repeat(m.used, m.k), opts + m.opts;
      ParseFromIsParse(setup, toks, marks', opts');
      assert toks'[m.k..] == toks[|marks'|..];
      AfterTwice(opts, marks, m.opts, Repeat(m.used, m.k), Parse(setup, toks'[m.k..], |opts| + |m.opts|));
    }
  }

  lemma WholeParse(setup: Setup, toks: seq<string>)
    ensures ParseFrom(setup, toks, [], []) == Parse(setup, toks, 0)
  {
    var p := Parse(setup, toks, 0);
    ParseFromIsParse(setup, toks, [], []);
    assert toks[0..] == toks && [] + p.opts == p.opts && [] + p.marks == p.marks;
  }

  /** With no argument left the loop yields what it has found. */
  lemma ParseFromEnd(setup: Setup, toks: seq<string>, marks: seq<bool>, opts: seq<Opt>)
    requires |marks| == |toks|
    ensures ParseFrom(setup, toks, marks, opts) == Parsed(opts, marks, true, 0)
  {
    assert toks[|marks|..] == [] && opts + [] == opts && marks + [] == marks;
  }

  lemma MoveOfNonOption(setup: Setup, toks: seq<string>, base: nat, done: nat)
    requires base < |toks| && IsNonOption(toks[base])
    ensures FirstMove(setup, toks[base..], done) ==
            if setup.gnu then Go([], false, 1)
            else Stop(Parsed([], Repeat(false, |toks| - base), true, |toks| - base))
  {
  }

  lemma MoveOfTerminator(setup: Setup, toks: seq<string>, base: nat, done: nat)
    requires base < |toks| && toks[base] == "--"
    ensures FirstMove(setup, toks[base..], done) ==
            Stop(Parsed([], [true] + Repeat(false, |toks| - base - 1), true, |toks| - base - 1))
  {
  }

  lemma MoveOfOption(setup: Setup, toks: seq<string>, base: nat, done: nat)
    requires base < |toks| && !IsNonOption(toks[base]) && toks[base] != "--"
    ensures var g := Token(setup, toks[base], Next(toks[base..]), done);
            FirstMove(setup, toks[base..], done) ==
            if g.ok then Go(g.opts, true, if g.tookNext then 2 else 1)
            else Stop(Parsed(g.opts, [g.tookNext] + Repeat(false, |toks| - base - 1), false, |toks| - base - 1))
  {
    assert toks[base..][0] == toks[base];
  }

  lemma HeadStays(now: seq<CString>, was: seq<CString>, toks: seq<string>, marks: seq<bool>, nonops: nat)
    requires Dealt(now, was, toks, marks, nonops) && |marks| < |toks|
    ensures nonops <= |marks| < |now| == |was| && now[|marks|] == Str(toks[|marks|])
    ensures now == Packed(was, marks) && nonops == Passed(marks)
  {
    AllDealt(now, was, toks, marks, nonops);
  }

  /** One round of the loop over the vector. */
  method DealWithArgument(setup: Setup, args: array<CString>, argc: int, base: nat, nonops: nat, done: nat,
                          ghost was: seq<CString>, ghost toks: seq<string>, ghost marks: seq<bool>)
    returns (stop: bool, ok: bool, opts: seq<Opt>, newBase: nat, newNonops: nat, ghost newMarks: seq<bool>)
    requires Dealt(args[..], was, toks, marks, nonops) && base == |marks| < |toks|
    requires toks == Tokens(was, argc) && Bounded(was, argc)
    modifies args
    ensures match FirstMove(setup, toks[base..], done)
            case Go(more, used, k) =>
              && !stop && ok && opts == more && newMarks == marks + Repeat(used, k) && newBase == base + k
              && Dealt(args[..], was, toks, newMarks, newNonops)
            case Stop(last) =>
              && stop && ok == last.ok && opts == last.opts && newMarks == marks + last.marks
              && (if ok then Dealt(args[..], was, toks, newMarks, newNonops + last.left)
                             && newBase + last.left == |toks|
                  else args[..] == Packed(was, newMarks))
  {
    hide Dealt, Packed, Passed, Token, FirstMove, Bounded;
    stop, ok, opts, newBase, newNonops := false, true, [], base + 1, nonops;
    HeadStays(args[..], was, toks, marks, nonops);
    var param := args[base].text;
    ghost var left := |toks| - base - 1;
    if IsNonOption(param) {
      MoveOfNonOption(setup, toks, base, done);
      if setup.gnu {
        DealtRest(args[..], was, toks, marks, nonops, 1);
        newNonops := nonops + 1;
        newMarks := marks + Repeat(false, 1);
      } else {
        DealtRest(args[..], was, toks, marks, nonops, left + 1);
        stop, newBase := true, base;
        newMarks := marks + Repeat(false, left + 1);
      }
    } else if param == "--" {
      MoveOfTerminator(setup, toks, base, done);
      EndOptions(args, base, nonops, was, toks, marks);
      stop := true;
      newMarks := marks + ([true] + Repeat(false, left));
    } else {
      MoveOfOption(setup, toks, base, done);
      NextAgrees(was, toks, argc, base);
      var haveMore := (if argc < 0 then argc else argc - base) != 1;
      var g := DealWithOption(setup, args, base, nonops, haveMore, done, was, toks, marks);
      opts, stop, ok := g.opts, !g.ok, g.ok;
      if g.ok {
        newBase := if g.tookNext then base + 2 else base + 1;
        newMarks := marks + Repeat(true, newBase - base);
      } else {
        newMarks := marks + ([g.tookNext] + Repeat(false, left));
      }
    }
  }

  /** One round again, in terms of what the whole loop yields. */
  method DoArgument(setup: Setup, args: array<CString>, argc: int, base: nat, nonops: nat, opts: seq<Opt>,
                    ghost was: seq<CString>, ghost toks: seq<string>, ghost marks: seq<bool>)
    returns (going: bool, ok: bool, newOpts: seq<Opt>, newBase: nat, newNonops: nat,
             ghost newMarks: seq<bool>, ghost left: nat)
    requires Dealt(args[..], was, toks, marks, nonops) && base == |marks| < |toks|
    requires toks == Tokens(was, argc) && Bounded(was, argc)
    modifies args
    ensures ok ==> newBase >= base && newBase + left == |newMarks|
    ensures ok ==> Dealt(args[..], was, toks, newMarks, newNonops + left)
    ensures going ==> ok && left == 0 && newBase > base
    ensures going ==> ParseFrom(setup, toks, newMarks, newOpts) == ParseFrom(setup, toks, marks, opts)
    ensures !going ==> |newMarks| == |toks| && args[..] == Packed(was, newMarks)
    ensures !going ==> var p := ParseFrom(setup, toks, marks, opts);
              p == Parsed(newOpts, newMarks, ok, p.left) && (ok ==> p.left == left)
  {
    var stop, more;
    stop, ok, more, newBase, newNonops, newMarks :=
      DealWithArgument(setup, args, argc, base, nonops, |opts|, was, toks, marks);
    going, newOpts := !stop, opts + more;
    left := if stop && ok then |toks| - newBase else 0;
  }

  lemma {:induction false} SelectWithin<T>(s: seq<T>, marks: seq<bool>, want: bool)
    requires |marks| == |s|
    ensures forall x :: x in Select(s, marks, want) ==> x in s
  {
    if s != [] {
      SelectWithin(s[1..], marks[1..], want);
    }
  }

  /** The arguments stay arguments, and what follows them stays as it was. */
  lemma StillArguments(now: seq<CString>, was: seq<CString>, toks: seq<string>, marks: seq<bool>, nonops: nat)
    requires Dealt(now, was, toks, marks, nonops) && |marks| == |toks|
    ensures |now| == |was|
    ensures forall i :: 0 <= i < |toks| ==> now[i].Str?
    ensures |toks| < |was| ==> now[|toks|] == was[|toks|]
  {
    PackedRest(was, marks);
    SelectWithin(was[..|toks|], marks, true);
    SelectWithin(was[..|toks|], marks, false);
    SelectLength(was[..|toks|], marks, false);
    forall i | 0 <= i < |toks| ensures now[i].Str? {
      assert now[i] == Partition(was[..|toks|], marks)[i];
      assert now[i] in was[..|toks|];
    }
  }

  /** The number of arguments not looked at, which have to be counted if it is not known. */
  method CountRest(args: array<CString>, argc: int, known: int, base: nat, ghost nonops: nat, ghost left: nat,
                   ghost was: seq<CString>, ghost toks: seq<string>, ghost marks: seq<bool>)
    returns (n: nat)
    requires toks == Tokens(was, argc) && Bounded(was, argc)
    requires Dealt(args[..], was, toks, marks, nonops) && |marks| == |toks| == base + left
    requires known == if argc < 0 then argc else argc - base
    ensures n == left + Excess(argc, |toks|, left)
  {
    StillArguments(args[..], was, toks, marks, nonops);
    assert forall i :: 0 <= i < |toks| ==> args[..][i].Str?;
    var numargs := known;
    if numargs > 0 && args[base] == Null {
      numargs := 0;
    }
    if numargs < 0 {
      numargs := 0;
      while args[base + numargs] != Null
        invariant 0 <= numargs <= left
        decreases left - numargs
      {
        numargs := numargs + 1;
      }
    }
    return numargs;
  }

  /** Nothing has been dealt with yet. */
  lemma NothingDealt(was: seq<CString>, toks: seq<string>, argc: int)
    requires toks == Tokens(was, argc)
    ensures Dealt(was, was, toks, [], 0)
  {
    assert was[..0] == [] && was[0..] == was;
  }

  /** Once all arguments have been dealt with, the vector is packed. */
  lemma AllDealt(now: seq<CString>, was: seq<CString>, toks: seq<string>, marks: seq<bool>, nonops: nat)
    requires Dealt(now, was, toks, marks, nonops)
    ensures |marks| <= |toks| && |now| == |was| && now == Packed(was, marks) && nonops == Passed(marks) <= |marks|
    ensures forall k :: |marks| <= k < |was| ==> now[k] == was[k]
  {
    PackedRest(was, marks);
    SelectLength(marks, marks, false);
  }

  /** What the loop keeps in numargs: the arguments left, or the negative value it was given. */
  function Remaining(argc: int, base: nat): int {
    if argc < 0 then argc else argc - base
  }

  lemma WhileRemaining(was: seq<CString>, toks: seq<string>, argc: int, base: nat)
    requires toks == Tokens(was, argc) && Bounded(was, argc) && base <= |toks|
    ensures Remaining(argc, base) == 0 ==> base == |toks|
    ensures Remaining(argc, base) != 0 ==> base < |was| && (base < |toks| <==> was[base] != Null)
  {
  }

  /** What holds between two rounds of the loop; all is what the whole loop yields. */
  ghost predicate Between(setup: Setup, now: seq<CString>, was: seq<CString>, toks: seq<string>, all: Parsed,
                          going: bool, ok: bool, opts: seq<Opt>, marks: seq<bool>, base: nat, nonops: nat, left: nat)
  {
    && |marks| <= |toks| <= |was|
    && (ok ==> Dealt(now, was, toks, marks, nonops + left) && base + left == |marks|)
    && (going ==> ok && left == 0 && ParseFrom(setup, toks, marks, opts) == all)
    && (!going ==> |marks| == |toks| && opts == all.opts && marks == all.marks && ok == all.ok)
    && (!going ==> if ok then left == all.left else now == Packed(was, marks))
  }

  lemma BetweenMeans(setup: Setup, now: seq<CString>, was: seq<CString>, toks: seq<string>, all: Parsed,
                     opts: seq<Opt>, marks: seq<bool>, base: nat, nonops: nat, left: nat)
    requires Between(setup, now, was, toks, all, true, true, opts, marks, base, nonops, left)
    ensures base == |marks| <= |toks| && |now| == |was|
    ensures forall k :: base <= k < |was| ==> now[k] == was[k]
  {
    hide ParseFrom;
    AllDealt(now, was, toks, marks, nonops + left);
  }

  /** When no argument is left the loop has yielded all. */
  lemma NoneLeft(setup: Setup, now: seq<CString>, was: seq<CString>, toks: seq<string>, all: Parsed,
                 opts: seq<Opt>, marks: seq<bool>, base: nat, nonops: nat, left: nat)
    requires Between(setup, now, was, toks, all, true, true, opts, marks, base, nonops, left) && base == |toks|
    ensures Between(setup, now, was, toks, all, false, true, opts, marks, base, nonops, left)
  {
    hide ParseFrom, Dealt, Packed;
    ParseFromEnd(setup, toks, marks, opts);
  }

  method NextRound(setup: Setup, args: array<CString>, argc: int, base: nat, nonops: nat, opts: seq<Opt>,
                   numargs: int, ghost was: seq<CString>, ghost toks: seq<string>, ghost all: Parsed,
                   ghost marks: seq<bool>)
    returns (going: bool, ok: bool, newOpts: seq<Opt>, newBase: nat, newNonops: nat, newNumargs: int,
             ghost newMarks: seq<bool>, ghost left: nat)
    requires toks == Tokens(was, argc) && Bounded(was, argc) && base < |toks|
    requires numargs == Remaining(argc, base) != 0
    requires Between(setup, args[..], was, toks, all, true, true, opts, marks, base, nonops, 0)
    modifies args
    ensures Between(setup, args[..], was, toks, all, going, ok, newOpts, newMarks, newBase, newNonops, left)
    ensures going ==> newBase > base
    ensures ok ==> newNumargs == Remaining(argc, newBase)
  {
    hide ParseFrom, Dealt, Packed, Tokens, Bounded;
    going, ok, newOpts, newBase, newNonops, newMarks, left :=
      DoArgument(setup, args, argc, base, nonops, opts, was, toks, marks);
    newNumargs := numargs;
    if ok {
      WithinTokens(args[..], was, toks, newMarks, newNonops + left);
      newNumargs := if numargs > 0 then numargs - (newBase - base) else numargs;
    }
  }

  lemma WithinTokens(now: seq<CString>, was: seq<CString>, toks: seq<string>, marks: seq<bool>, nonops: nat)
    requires Dealt(now, was, toks, marks, nonops)
    ensures |marks| <= |toks|
  {
  }

  /** The loop over the vector; left counts the arguments that are passed over without a look. */
  method ParseLoop(setup: Setup, args: array<CString>, argc: int, ghost toks: seq<string>)
    returns (ok: bool, opts: seq<Opt>, numargs: int, base: nat, nonops: nat, ghost marks: seq<bool>, ghost left: nat)
    requires toks == Tokens(args[..], argc) && Bounded(args[..], argc)
    modifies args
    ensures Between(setup, args[..], old(args[..]), toks, ParseFrom(setup, toks, [], []), false, ok,
                    opts, marks, base, nonops, left)
    ensures ok ==> numargs == Remaining(argc, base)
  {
    ghost var was := args[..];
    NothingDealt(was, toks, argc);
    ghost var all := ParseFrom(setup, toks, [], []);
    hide ParseFrom, Packed, Passed, Dealt, Tokens, Bounded;
    ok, opts, numargs, base, nonops, marks, left := true, [], argc, 0, 0, [], 0;
    var going := true;
    assert Between(setup, args[..], was, toks, all, going, ok, opts, marks, base, nonops, left);
    assert numargs == Remaining(argc, base);
    hide Between, Remaining;
    GoingOn(setup, args[..], was, toks, argc, all, ok, opts, marks, base, nonops, left);
    while going && numargs != 0 && args[base] != Null
      invariant Between(setup, args[..], was, toks, all, going, ok, opts, marks, base, nonops, left)
      invariant ok ==> numargs == Remaining(argc, base)
      invariant going ==> ok && left == 0 && base <= |toks| && (numargs == 0 ==> base == |toks|)
      invariant going && numargs != 0 ==> base < args.Length && (base < |toks| <==> args[base] != Null)
      decreases going, |toks| - base
    {
      going, ok, opts, base, nonops, numargs, marks, left :=
        NextRound(setup, args, argc, base, nonops, opts, numargs, was, toks, all, marks);
      if going {
        GoingOn(setup, args[..], was, toks, argc, all, ok, opts, marks, base, nonops, left);
      }
    }
    if going {
      NoneLeft(setup, args[..], was, toks, all, opts, marks, base, nonops, left);
    }
  }

  /** In the middle of the loop the next argument, if there is one, is where it was. */
  lemma GoingOn(setup: Setup, now: seq<CString>, was: seq<CString>, toks: seq<string>, argc: int, all: Parsed, ok: bool,
                opts: seq<Opt>, marks: seq<bool>, base: nat, nonops: nat, left: nat)
    requires Between(setup, now, was, toks, all, true, ok, opts, marks, base, nonops, left)
    requires toks == Tokens(was, argc) && Bounded(was, argc)
    ensures ok && left == 0 && base <= |toks| && |now| == |was|
    ensures Remaining(argc, base) == 0 ==> base == |toks|
    ensures Remaining(argc, base) != 0 ==> base < |now| && (base < |toks| <==> now[base] != Null)
  {
    hide ParseFrom;
    BetweenMeans(setup, now, was, toks, all, opts, marks, base, nonops, left);
    WhileRemaining(was, toks, argc, base);
  }

  /**
   * The parser core: finds the options and packs everything they use up to the front of the
   * vector, the non-options behind it. The action finished gets the latter.
   */
  method ParseArguments(setup: Setup, args: array<CString>, argc: int)
    returns (ok: bool, opts: seq<Opt>, nonCount: int, nonBase: nat)
    requires Bounded(args[..], argc)
    modifies args
    ensures var toks := Tokens(old(args[..]), argc);
            var p := Parse(setup, toks, 0);
            && ok == p.ok && opts == p.opts
            && args[..] == Packed(old(args[..]), p.marks)
            && (ok ==> nonBase == |toks| - Passed(p.marks))
            && (ok ==> nonCount == Passed(p.marks) + Excess(argc, |toks|, p.left))
  {
    ghost var was := args[..];
    ghost var toks := Tokens(was, argc);
    WholeParse(setup, toks);
    hide Parse, ParseFrom, Dealt, Packed, Passed, Bounded;
    var numargs, base, nonops;
    ghost var marks, left;
    ok, opts, numargs, base, nonops, marks, left := ParseLoop(setup, args, argc, toks);
    if !ok {
      return false, opts, 0, 0;
    }
    var rest := CountRest(args, argc, numargs, base, nonops + left, left, was, toks, marks);
    AllDealt(args[..], was, toks, marks, nonops + left);
    return true, opts, rest + nonops, base - nonops;
  }
}
