/** Parsing a vector again that a parse in GNU mode has permuted. */
module SecondParse {
  import opened Basics
  import opened OptionLookup
  import opened ArgumentParsing

  // ---------- Words and their neighbours ----------

  predicate IsOption(w: string) {
    !IsNonOption(w) && w != "--"
  }

  /** The word is read without using up the argument after it. */
  predicate LeavesAlone(setup: Setup, w: string, next: Maybe<string>)
    requires IsOption(w)
  {
    Token(setup, w, next, 0).ok && !Token(setup, w, next, 0).tookNext
  }

  ghost predicate CanFail(setup: Setup, w: string) {
    IsOption(w) && exists next :: !Token(setup, w, next, 0).ok
  }

  ghost predicate CanBeUsed(setup: Setup, w: string) {
    w == "--" || (IsOption(w) && exists next :: Token(setup, w, next, 0).ok)
  }

  /** A permutation may put the word other where next was: a non-option passed over, or what follows one. */
  ghost predicate Replaces(setup: Setup, next: Maybe<string>, other: string) {
    if IsNonOption(other) then next.Nothing? || IsNonOption(next.value) || CanFail(setup, next.value)
    else next.Just? && IsNonOption(next.value) && CanBeUsed(setup, other)
  }

  /** An option that leaves the next argument alone is read the same with any that a permutation puts there. */
  ghost predicate Undisturbed(setup: Setup) {
    forall w, next, other :: IsOption(w) && LeavesAlone(setup, w, next) && Replaces(setup, next, other) ==>
                               Token(setup, w, Just(other), 0) == Token(setup, w, next, 0)
  }

  // ---------- Check functions that a permutation does not confuse ----------

  /** Nothing is attached to the name of the option, so its argument can only be the next one. */
  predicate IsSeparate(o: Opt) {
    |o.name| == o.nameLen
  }

  predicate Leaves(status: ArgStatus) {
    status in {ArgNone, ArgIgnore}
  }

  /** An option that accepts one neighbour without taking it leaves all alone; none counts as a neighbour. */
  predicate SteadyAt(check: (Opt, bool) -> ArgStatus, o: Opt, a: string, b: string) {
    var alone, with := check(o.(arg := Nothing), false), check(o.(arg := Just(a)), false);
    (Leaves(with) ==> Leaves(check(o.(arg := Just(b)), false))) && (alone != ArgIllegal ==> Leaves(with))
  }

  ghost predicate Steady(usage: seq<Descriptor>) {
    forall d, o, a, b :: 0 <= d < |usage| && IsSeparate(o) ==> SteadyAt(usage[d].check, o, a, b)
  }

  /** Another next argument makes no difference to an option that leaves it alone. */
  lemma JudgeSteady(setup: Setup, idx: nat, name: string, next: Maybe<string>, other: string)
    requires Steady(setup.usage) && !setup.printErrors && name != "" && idx <= |setup.usage|
    requires |name| == NameLength(name)
    ensures match Judge(setup, idx, name, next)
            case Dropped => Judge(setup, idx, name, Just(other)) == Dropped
            case Illegal => true
            case Accepted(opt, stops) =>
              (stops && next.Just?) || Judge(setup, idx, name, Just(other)) == Accepted(opt, false)
  {
    var d := if idx < |setup.usage| then idx else DummyIndex(setup.usage);
    if d < |setup.usage| {
      var o := Opt(d, name, NameLength(name), next);
      var a := if next.Just? then next.value else other;
      assert SteadyAt(setup.usage[d].check, o, a, other);
      assert o.(arg := next) == o && o.(arg := Just(other)) == Opt(d, name, NameLength(name), Just(other));
    }
  }

  lemma {:induction false} GroupSteady(setup: Setup, tok: string, p: nat, next: Maybe<string>, other: string, done: nat)
    requires Steady(setup.usage) && !setup.printErrors && setup.limit < 0 && p <= |tok|
    requires ShortGroup(setup, tok, p, next, done).ok && !ShortGroup(setup, tok, p, next, done).tookNext
    ensures ShortGroup(setup, tok, p, Just(other), done) == ShortGroup(setup, tok, p, next, done)
    decreases |tok| - p
  {
    if p < |tok| {
      var idx := ShortIndex(setup.usage, tok[p]);
      if p + 1 == |tok| {
        assert tok[p..] == [tok[p]] && [tok[p]][1..] == [];
        JudgeSteady(setup, idx, tok[p..], next, other);
      }
      hide Steady;
      var optarg := if p + 1 == |tok| then next else Just(tok[p + 1..]);
      match Judge(setup, idx, tok[p..], optarg) {
        case Dropped => GroupSteady(setup, tok, p + 1, next, other, done);
        case Illegal =>
        case Accepted(opt, stops) =>
          if !stops {
            GroupSteady(setup, tok, p + 1, next, other, done + 1);
          }
      }
    }
  }

  /** An option without an equals sign in its text is all name. */
  lemma AllName(tok: string, text: string)
    requires |tok| >= 2 && tok[0] == '-' && text == (if tok[1] == '-' then tok[2..] else tok[1..])
    requires AssignAt(text) == |text|
    ensures NameLength(tok) == |tok|
  {
    AssignAtMeans(text);
    AssignAtMeans(tok[1..]);
    if tok[1] == '-' {
      assert tok[1..][1..] == text;
    }
  }

  lemma LongSteady(setup: Setup, tok: string, text: string, idx: nat, next: Maybe<string>, other: string, done: nat)
    requires Steady(setup.usage) && !setup.printErrors && setup.limit < 0 && idx <= |setup.usage|
    requires |tok| >= 2 && tok[0] == '-' && text == (if tok[1] == '-' then tok[2..] else tok[1..])
    requires LongOption(setup, tok, text, idx, next, done).ok && !LongOption(setup, tok, text, idx, next, done).tookNext
    ensures LongOption(setup, tok, text, idx, Just(other), done) == LongOption(setup, tok, text, idx, next, done)
  {
    if AssignAt(text) == |text| {
      AllName(tok, text);
      JudgeSteady(setup, idx, tok, next, other);
    }
  }

  /** If all check functions are steady, no option is disturbed, however options are named. */
  lemma SteadyIsUndisturbed(setup: Setup)
    requires Steady(setup.usage) && !setup.printErrors && setup.limit < 0
    ensures Undisturbed(setup)
  {
    forall w, next, other | IsOption(w) && LeavesAlone(setup, w, next)
      ensures Token(setup, w, Just(other), 0) == Token(setup, w, next, 0)
    {
      TokenSteady(setup, w, next, other);
    }
  }

  lemma TokenSteady(setup: Setup, tok: string, next: Maybe<string>, other: string)
    requires Steady(setup.usage) && !setup.printErrors && setup.limit < 0
    requires IsOption(tok) && LeavesAlone(setup, tok, next)
    ensures Token(setup, tok, Just(other), 0) == Token(setup, tok, next, 0)
  {
    var text := if tok[1] == '-' then tok[2..] else tok[1..];
    var idx := LongIndex(setup.usage, text, setup.minAbbr);
    hide Steady, LongOption, ShortGroup, LongIndex;
    if tok[1] == '-' || (setup.singleMinus && idx < |setup.usage|) {
      LongSteady(setup, tok, text, idx, next, other, 0);
    } else {
      GroupSteady(setup, tok, 1, next, other, 0);
    }
  }

  // ---------- Reading without a limit ----------

  /** The options of the vector are not limited, and no option is disturbed. */
  ghost predicate Plain(setup: Setup) {
    setup.gnu && setup.limit < 0 && Undisturbed(setup)
  }

  /** Without a limit it does not matter how many options came before. */
  lemma {:induction false} GroupAnywhere(setup: Setup, tok: string, p: nat, next: Maybe<string>, m: nat, n: nat)
    requires setup.limit < 0 && p <= |tok|
    ensures ShortGroup(setup, tok, p, next, m) == ShortGroup(setup, tok, p, next, n)
    decreases |tok| - p
  {
    hide Judge, ShortIndex;
    if p < |tok| {
      GroupAnywhere(setup, tok, p + 1, next, m, n);
      GroupAnywhere(setup, tok, p + 1, next, m + 1, n + 1);
    }
  }

  lemma TokenAnywhere(setup: Setup, tok: string, next: Maybe<string>, done: nat)
    requires setup.limit < 0 && !IsNonOption(tok)
    ensures Token(setup, tok, next, done) == Token(setup, tok, next, 0)
  {
    hide ShortGroup, LongIndex, Judge;
    GroupAnywhere(setup, tok, 1, next, done, 0);
  }

  /** Without a limit an option that fails has not used up the next argument. */
  lemma {:induction false} GroupFails(setup: Setup, tok: string, p: nat, next: Maybe<string>, done: nat)
    requires setup.limit < 0 && p <= |tok|
    ensures !ShortGroup(setup, tok, p, next, done).ok ==> !ShortGroup(setup, tok, p, next, done).tookNext
    decreases |tok| - p
  {
    if p < |tok| {
      GroupFails(setup, tok, p + 1, next, done);
      GroupFails(setup, tok, p + 1, next, done + 1);
    }
  }

  lemma TokenFails(setup: Setup, tok: string, next: Maybe<string>, done: nat)
    requires setup.limit < 0 && !IsNonOption(tok)
    ensures !Token(setup, tok, next, done).ok ==> !Token(setup, tok, next, done).tookNext
  {
    GroupFails(setup, tok, 1, next, done);
  }

  // ---------- Parsing the permuted arguments ----------

  predicate AllNonOptions(xs: seq<string>) {
    forall i :: 0 <= i < |xs| ==> IsNonOption(xs[i])
  }

  lemma PassesOver(setup: Setup, toks: seq<string>, done: nat)
    requires setup.gnu && toks != [] && IsNonOption(toks[0])
    ensures Parse(setup, toks, done) == After([], Repeat(false, 1), Parse(setup, toks[1..], done))
    ensures FirstMove(setup, toks, done) == Go([], false, 1)
  {
    ParseMoves(setup, toks, done);
    hide Parse;
  }

  /** Non-options in front are passed over. */
  lemma {:induction false} SkipNonOptions(setup: Setup, xs: seq<string>, ys: seq<string>, done: nat)
    requires setup.gnu && AllNonOptions(xs)
    ensures Parse(setup, xs + ys, done) == After([], Repeat(false, |xs|), Parse(setup, ys, done))
    decreases |xs|
  {
    hide Parse, FirstMove;
    if xs == [] {
      assert xs + ys == ys;
      var p := Parse(setup, ys, done);
      assert [] + p.opts == p.opts && Repeat(false, 0) + p.marks == p.marks;
    } else {
      assert (xs + ys)[1..] == xs[1..] + ys;
      SkipNonOptions(setup, xs[1..], ys, done);
      PassesOver(setup, xs + ys, done);
      var p := Parse(setup, ys, done);
      assert Repeat(false, 1) + (Repeat(false, |xs| - 1) + p.marks) == Repeat(false, |xs|) + p.marks;
    }
  }

  /** What is used up first, then the non-options xs that came before, then the other non-options. */
  function Permuted(toks: seq<string>, marks: seq<bool>, xs: seq<string>): seq<string>
    requires |marks| == |toks|
  {
    Select(toks, marks, true) + xs + Select(toks, marks, false)
  }

  /** The same options, with everything used up in front. */
  predicate Again(p: Parsed, r: Parsed, used: nat) {
    r.opts == p.opts && r.ok == p.ok && used <= |r.marks|
    && r.marks == Repeat(true, used) + Repeat(false, |r.marks| - used)
  }

  function Used(toks: seq<string>, marks: seq<bool>): nat
    requires |marks| == |toks|
  {
    |Select(toks, marks, true)|
  }

  /** The arguments are read the same when they have been permuted, with xs in front of their non-options. */
  predicate ReadAgain(setup: Setup, toks: seq<string>, xs: seq<string>, done: nat) {
    var p := Parse(setup, toks, done);
    Again(p, Parse(setup, Permuted(toks, p.marks, xs), done), Used(toks, p.marks))
  }

  lemma SelectSplit(toks: seq<string>, k: nat, used: bool, rest: seq<bool>, want: bool)
    requires |toks| == k + |rest|
    ensures Select(toks, Repeat(used, k) + rest, want) ==
            (if used == want then toks[..k] else []) + Select(toks[k..], rest, want)
  {
    SelectConcat(toks[..k], toks[k..], Repeat(used, k), rest, want);
    SelectUniform(toks[..k], Repeat(used, k), used, want);
    assert toks == toks[..k] + toks[k..];
  }

  /** The arguments start with next, or with a word that a permutation may put there. */
  ghost predicate Neighbours(setup: Setup, next: Maybe<string>, tail: seq<string>) {
    if tail == [] then next.Nothing? else next == Just(tail[0]) || Replaces(setup, next, tail[0])
  }

  /** In front of other arguments an option does what it did, if its neighbour is no worse. */
  lemma MoveAgain(setup: Setup, toks: seq<string>, k: nat, tail: seq<string>, done: nat)
    requires Plain(setup) && toks != [] && IsOption(toks[0])
    requires FirstMove(setup, toks, done).Go? && FirstMove(setup, toks, done).k == k
    requires k == 1 ==> Neighbours(setup, Next(toks), tail)
    ensures FirstMove(setup, toks[..k] + tail, done) == FirstMove(setup, toks, done)
  {
    var all := toks[..k] + tail;
    assert all[0] == toks[0];
    if k == 1 {
      TokenAnywhere(setup, toks[0], Next(toks), done);
      TokenAnywhere(setup, toks[0], Next(all), done);
      hide Token, Replaces;
      assert LeavesAlone(setup, toks[0], Next(toks));
      assert Token(setup, toks[0], Next(all), 0) == Token(setup, toks[0], Next(toks), 0);
    } else {
      assert all[1] == toks[1];
    }
  }

  function First(toks: seq<string>): Maybe<string> {
    if toks == [] then Nothing else Just(toks[0])
  }

  /** What is used up first can be used. */
  lemma {:induction false} FirstUsed(setup: Setup, toks: seq<string>, done: nat)
    requires setup.gnu && setup.limit < 0
    ensures var used := Select(toks, Parse(setup, toks, done).marks, true);
            used != [] ==> CanBeUsed(setup, used[0])
    decreases |toks|
  {
    var p := Parse(setup, toks, done);
    if toks == [] || toks[0] == "--" {
      return;
    }
    ParseMoves(setup, toks, done);
    hide Parse;
    if IsNonOption(toks[0]) {
      FirstUsed(setup, toks[1..], done);
      assert p.marks[1..] == Parse(setup, toks[1..], done).marks;
    } else if FirstMove(setup, toks, done).Go? {
      TokenAnywhere(setup, toks[0], Next(toks), done);
      hide Token;
      assert p.marks[0];
    } else {
      NothingUsed(setup, toks, done);
      SelectUniform(toks, p.marks, false, true);
    }
  }

  /** The permuted arguments start as those that were permuted, or with a word that may replace the first. */
  lemma NeighbourAfter(setup: Setup, toks: seq<string>, xs: seq<string>, done: nat)
    requires setup.gnu && setup.limit < 0 && AllNonOptions(xs)
    ensures Neighbours(setup, First(toks), Permuted(toks, Parse(setup, toks, done).marks, xs))
  {
    var p := Parse(setup, toks, done);
    if toks == [] {
      return;
    }
    if p.marks[0] {
      assert Select(toks, p.marks, true)[0] == toks[0];
      return;
    }
    assert Select(toks, p.marks, false)[0] == toks[0];
    FirstUsed(setup, toks, done);
    ParseMoves(setup, toks, done);
    hide Parse, Select;
    if !IsNonOption(toks[0]) {
      NothingUsed(setup, toks, done);
      SelectUniform(toks, p.marks, false, true);
      TokenAnywhere(setup, toks[0], Next(toks), done);
      hide Token;
      assert CanFail(setup, toks[0]);
    }
  }

  lemma PermutedSplit(toks: seq<string>, k: nat, used: bool, rest: seq<bool>, xs: seq<string>)
    requires |toks| == k + |rest|
    ensures var marks, tail := Repeat(used, k) + rest, toks[k..];
            if used
            then Permuted(toks, marks, xs) == toks[..k] + Permuted(tail, rest, xs)
                 && Used(toks, marks) == k + Used(tail, rest)
            else Permuted(toks, marks, xs) == Permuted(tail, rest, xs + toks[..k])
                 && Used(toks, marks) == Used(tail, rest)
  {
    SelectSplit(toks, k, used, rest, true);
    SelectSplit(toks, k, used, rest, false);
    hide Select;
  }

  lemma EndedAgain(setup: Setup, toks: seq<string>, xs: seq<string>, done: nat)
    requires toks != [] && toks[0] == "--"
    ensures ReadAgain(setup, toks, xs, done)
  {
    var p, rest := Parse(setup, toks, done), Repeat(false, |toks| - 1);
    Terminated(setup, toks, done);
    assert p.marks == Repeat(true, 1) + rest;
    PermutedSplit(toks, 1, true, rest, xs);
    SelectUniform(toks[1..], rest, false, true);
    SelectUniform(toks[1..], rest, false, false);
    Terminated(setup, Permuted(toks, p.marks, xs), done);
    hide Parse, Permuted, Select;
    var n := |Permuted(toks, p.marks, xs)| - 1;
    assert Repeat(true, 1) + Repeat(false, n) == [true] + Repeat(false, n);
  }

  lemma Terminated(setup: Setup, toks: seq<string>, done: nat)
    requires toks != [] && toks[0] == "--"
    ensures Parse(setup, toks, done) == Parsed([], [true] + Repeat(false, |toks| - 1), true, |toks| - 1)
  {
  }

  /** At the end of the arguments, or at an option that fails, nothing more is used up. */
  lemma NothingUsed(setup: Setup, toks: seq<string>, done: nat)
    requires setup.gnu && setup.limit < 0 && FirstMove(setup, toks, done).Stop? && (toks != [] ==> toks[0] != "--")
    ensures Parse(setup, toks, done).marks == Repeat(false, |toks|)
  {
    if toks != [] {
      TokenFails(setup, toks[0], Next(toks), done);
      hide Token;
    }
  }

  lemma LastMoveAgain(setup: Setup, toks: seq<string>, xs: seq<string>, done: nat)
    requires Plain(setup) && AllNonOptions(xs) && FirstMove(setup, toks, done).Stop?
    ensures ReadAgain(setup, toks, xs, done)
  {
    hide FirstMove, Parse, Select, Undisturbed;
    if toks != [] && toks[0] == "--" {
      EndedAgain(setup, toks, xs, done);
    } else {
      var p := Parse(setup, toks, done);
      NothingUsed(setup, toks, done);
      SelectUniform(toks, p.marks, false, true);
      SelectUniform(toks, p.marks, false, false);
      assert Permuted(toks, p.marks, xs) == xs + toks;
      SkipNonOptions(setup, xs, toks, done);
      assert [] + p.opts == p.opts;
      assert Repeat(false, |xs|) + p.marks == Repeat(true, 0) + Repeat(false, |xs| + |toks|);
    }
  }

  /** Parsed again, the permuted arguments yield the same options, and nothing moves any more. */
  lemma {:induction false} ParsedAgain(setup: Setup, toks: seq<string>, xs: seq<string>, done: nat)
    requires Plain(setup) && AllNonOptions(xs)
    ensures ReadAgain(setup, toks, xs, done)
    decreases |toks|
  {
    var m := FirstMove(setup, toks, done);
    if m.Stop? {
      LastMoveAgain(setup, toks, xs, done);
      return;
    }
    hide Plain, ReadAgain, FirstMove, Parse;
    var n := done + |m.opts|;
    if IsNonOption(toks[0]) {
      assert AllNonOptions(xs + [toks[0]]);
      ParsedAgain(setup, toks[1..], xs + [toks[0]], done);
      PassedAgain(setup, toks, xs, done);
    } else {
      ParsedAgain(setup, toks[m.k..], xs, n);
      TakenAgain(setup, toks, xs, done, m);
    }
  }

  /** A non-option joins those that came before. */
  lemma PassedAgain(setup: Setup, toks: seq<string>, xs: seq<string>, done: nat)
    requires Plain(setup) && toks != [] && IsNonOption(toks[0])
    requires ReadAgain(setup, toks[1..], xs + [toks[0]], done)
    ensures FirstMove(setup, toks, done) == Go([], false, 1)
    ensures ReadAgain(setup, toks, xs, done)
  {
    var rest := Parse(setup, toks[1..], done);
    ParseMoves(setup, toks, done);
    PermutedSplit(toks, 1, false, rest.marks, xs);
    assert toks[..1] == [toks[0]];
    hide Permuted, Used, Parse;
    assert [] + rest.opts == rest.opts;
  }

  /** An option, with its argument if it has one, comes first again. */
  lemma TakenAgain(setup: Setup, toks: seq<string>, xs: seq<string>, done: nat, m: Move)
    requires Plain(setup) && AllNonOptions(xs) && toks != [] && !IsNonOption(toks[0])
    requires m == FirstMove(setup, toks, done) && m.Go?
    requires ReadAgain(setup, toks[m.k..], xs, done + |m.opts|)
    ensures ReadAgain(setup, toks, xs, done)
  {
    hide Again, FirstMove, Permuted, Used, Parse, Neighbours, AllNonOptions, Undisturbed;
    var n := done + |m.opts|;
    var rest := Parse(setup, toks[m.k..], n);
    var tail := Permuted(toks[m.k..], rest.marks, xs);
    if m.k == 1 {
      NeighbourAfter(setup, toks[1..], xs, n);
    }
    TakenMoves(setup, toks, tail, done, m);
    var p := Parse(setup, toks, done);
    assert p.marks == Repeat(true, m.k) + rest.marks;
    PermutedSplit(toks, m.k, true, rest.marks, xs);
    hide After, Repeat;
    AfterAgain(m.opts, m.k, rest, Parse(setup, tail, n), Used(toks[m.k..], rest.marks));
  }

  lemma TakenMoves(setup: Setup, toks: seq<string>, tail: seq<string>, done: nat, m: Move)
    requires Plain(setup) && toks != [] && !IsNonOption(toks[0])
    requires m == FirstMove(setup, toks, done) && m.Go? && (m.k == 1 ==> Neighbours(setup, Next(toks), tail))
    ensures var n := done + |m.opts|;
            && Parse(setup, toks, done) == After(m.opts, Repeat(true, m.k), Parse(setup, toks[m.k..], n))
            && Parse(setup, toks[..m.k] + tail, done) == After(m.opts, Repeat(true, m.k), Parse(setup, tail, n))
  {
    hide Plain, After, FirstMove, Parse;
    NotTerminated(setup, toks, done);
    MoveAgain(setup, toks, m.k, tail, done);
    MoveTaken(setup, toks, done, m);
    MoveTaken(setup, toks[..m.k] + tail, done, m);
    assert (toks[..m.k] + tail)[m.k..] == tail;
  }

  lemma MoveTaken(setup: Setup, toks: seq<string>, done: nat, m: Move)
    requires m == FirstMove(setup, toks, done) && m.Go? && m.used
    ensures Parse(setup, toks, done) == After(m.opts, Repeat(true, m.k), Parse(setup, toks[m.k..], done + |m.opts|))
  {
    hide FirstMove, After, Parse;
    ParseMoves(setup, toks, done);
  }

  lemma NotTerminated(setup: Setup, toks: seq<string>, done: nat)
    requires toks != [] && !IsNonOption(toks[0]) && FirstMove(setup, toks, done).Go?
    ensures toks[0] != "--" && FirstMove(setup, toks, done).used
  {
  }

  lemma AfterAgain(opts: seq<Opt>, k: nat, p: Parsed, r: Parsed, used: nat)
    requires Again(p, r, used)
    ensures Again(After(opts, Repeat(true, k), p), After(opts, Repeat(true, k), r), k + used)
  {
    assert Repeat(true, k) + r.marks == Repeat(true, k + used) + Repeat(false, |r.marks| - used);
  }
}
