/** Command lines written in the conventional forms are parsed as they were meant. */
module CommandLines {
  import opened Basics
  import opened OptionLookup
  import opened ArgumentParsing

  /** The letter of an option without an argument in a group of short options. */
  datatype Flag = Flag(d: nat, c: char)

  /**
   * An option as the user writes it: by name behind one or two dashes, or by letter behind a group of
   * flags; its argument attached or separate.
   */
  datatype Request =
    | LongAttached(minus: string, d: nat, arg: string)
    | LongSeparate(minus: string, d: nat, arg: string)
    | LongFlag(minus: string, d: nat)
    | ShortAttached(flags: seq<Flag>, d: nat, c: char, arg: string)
    | ShortSeparate(flags: seq<Flag>, d: nat, c: char, arg: string)
    | ShortFlag(flags: seq<Flag>, d: nat, c: char)
  {
    predicate Long?() {
      LongAttached? || LongSeparate? || LongFlag?
    }
  }

  function Letters(flags: seq<Flag>): string {
    seq(|flags|, i requires 0 <= i < |flags| => flags[i].c)
  }

  function Words(usage: seq<Descriptor>, r: Request): seq<string>
    requires r.d < |usage|
  {
    var name := if r.Long?() then r.minus + usage[r.d].longopt else "-" + Letters(r.flags) + [r.c];
    match r
    case LongAttached(_, _, arg) => [name + "=" + arg]
    case LongSeparate(_, _, arg) => [name, arg]
    case LongFlag(_, _) => [name]
    case ShortAttached(_, _, _, arg) => [name + arg]
    case ShortSeparate(_, _, _, arg) => [name, arg]
    case ShortFlag(_, _, _) => [name]
  }

  /** The named option, behind the flags. Its name is kept as typed, with what follows it in the word. */
  function Named(usage: seq<Descriptor>, r: Request): Opt
    requires r.d < |usage|
  {
    var word := Words(usage, r)[0];
    Opt(r.d,
        if r.Long?() then word else word[1 + |r.flags|..],
        if r.Long?() then |r.minus| + |usage[r.d].longopt| else 1,
        if r.LongFlag? || r.ShortFlag? then Nothing else Just(r.arg))
  }

  /** The flags from the i-th on. */
  function FlagsFrom(word: string, flags: seq<Flag>, i: nat): seq<Opt>
    requires |flags| < |word|
    decreases |flags| - i
  {
    if i >= |flags| then [] else [Opt(flags[i].d, word[1 + i..], 1, Nothing)] + FlagsFrom(word, flags, i + 1)
  }

  /** The options the user means. */
  function Meant(usage: seq<Descriptor>, r: Request): seq<Opt>
    requires r.d < |usage|
  {
    if r.Long?() then [Named(usage, r)] else FlagsFrom(Words(usage, r)[0], r.flags, 0) + [Named(usage, r)]
  }

  /** The option never has an argument. */
  ghost predicate TakesNone(d: Descriptor, messages: bool) {
    forall o :: d.check(o, messages) == ArgNone
  }

  /** The letter is that of the descriptor, and of none before it. */
  predicate FitsLetter(usage: seq<Descriptor>, d: nat, c: char) {
    d < |usage| && c != '-' && c in usage[d].shortopt && forall j :: 0 <= j < d ==> c !in usage[j].shortopt
  }

  ghost predicate FitsFlags(setup: Setup, flags: seq<Flag>) {
    forall i :: 0 <= i < |flags| ==>
                  && FitsLetter(setup.usage, flags[i].d, flags[i].c)
                  && TakesNone(setup.usage[flags[i].d], setup.printErrors)
  }

  /** The name is that of the descriptor, and of none before it; one dash is enough where that is allowed. */
  predicate FitsName(setup: Setup, minus: string, d: nat) {
    && d < |setup.usage| && setup.usage[d].longopt != ""
    && (minus == "--" || (minus == "-" && setup.singleMinus && setup.usage[d].longopt[0] != '-'))
    && forall j :: 0 <= j < d ==> setup.usage[j].longopt != setup.usage[d].longopt
  }

  /** A group of short options is not the name of a long one. */
  predicate NotLong(setup: Setup, word: string) {
    setup.singleMinus ==> word != "" && LongIndex(setup.usage, word[1..], setup.minAbbr) == |setup.usage|
  }

  /** The request names its descriptors unambiguously, and the named one accepts what it gets. */
  ghost predicate WellMeant(setup: Setup, r: Request) {
    && r.d < |setup.usage|
    && (if r.Long?() then FitsName(setup, r.minus, r.d)
        else FitsFlags(setup, r.flags) && FitsLetter(setup.usage, r.d, r.c) && NotLong(setup, Words(setup.usage, r)[0]))
    && (r.ShortAttached? ==> r.arg != "")
    && if r.LongFlag? || r.ShortFlag?
       then TakesNone(setup.usage[r.d], setup.printErrors)
       else setup.usage[r.d].check(Named(setup.usage, r), setup.printErrors) == ArgOk
  }

  lemma AssignAfter(name: string, text: string)
    requires '=' !in name && name <= text && (|text| == |name| || text[|name|] == '=')
    ensures AssignAt(text) == |name|
  {
    AssignAtMeans(text);
    assert text[..|name|] == name;
    TypedIs(text, |name|);
  }

  lemma LongFound(usage: seq<Descriptor>, d: nat, text: string, min: int)
    requires PlainNames(usage) && d < |usage| && EqualsUpToAssign(usage[d].longopt, text)
    requires forall j :: 0 <= j < d ==> usage[j].longopt != usage[d].longopt
    ensures LongIndex(usage, text, min) == d
  {
    FirstExactMeans(usage, text, 0);
    ExactMeans(usage[d].longopt, text);
    var k := FirstExact(usage, text, 0);
    if k < |usage| {
      ExactMeans(usage[k].longopt, text);
    }
  }

  lemma ShortFound(usage: seq<Descriptor>, d: nat, c: char)
    requires FitsLetter(usage, d, c)
    ensures ShortIndex(usage, c) == d
  {
    ShortIndexMeans(usage, c);
  }

  /** The word of a long option without its dashes, as the parser reads it. */
  function LongText(usage: seq<Descriptor>, r: Request): string
    requires r.d < |usage|
  {
    if r.LongAttached? then usage[r.d].longopt + "=" + r.arg else usage[r.d].longopt
  }

  lemma LongTextFound(setup: Setup, r: Request)
    requires WellMeant(setup, r) && r.Long?() && PlainNames(setup.usage)
    ensures var text, name := LongText(setup.usage, r), setup.usage[r.d].longopt;
            && LongIndex(setup.usage, text, setup.minAbbr) == r.d
            && AssignAt(text) == |name| && AssignAt("-" + text) == 1 + |name|
            && (r.LongAttached? ==> text[|name| + 1..] == r.arg)
  {
    var text, name := LongText(setup.usage, r), setup.usage[r.d].longopt;
    assert EqualsUpToAssign(name, text);
    LongFound(setup.usage, r.d, text, setup.minAbbr);
    AssignAfter(name, text);
    AssignAfter("-" + name, "-" + text);
  }

  lemma LongMove(setup: Setup, r: Request, next: Maybe<string>, done: nat)
    requires WellMeant(setup, r) && r.Long?() && PlainNames(setup.usage) && setup.limit < 0
    requires r.LongSeparate? ==> next == Just(r.arg)
    ensures !IsNonOption(Words(setup.usage, r)[0]) && Words(setup.usage, r)[0] != "--"
    ensures Token(setup, Words(setup.usage, r)[0], next, done) ==
            Group([Named(setup.usage, r)], r.LongSeparate?, true)
  {
    LongTextFound(setup, r);
    LongWord(setup, r);
    LongJudged(setup, r);
    LongRead(setup, r, next, done);
    hide LongIndex, AssignAt, PlainNames, Judge, WellMeant, LongText, Named, Words, LongOption;
  }

  lemma LongRead(setup: Setup, r: Request, next: Maybe<string>, done: nat)
    requires WellMeant(setup, r) && r.Long?() && PlainNames(setup.usage) && setup.limit < 0
    requires r.LongSeparate? ==> next == Just(r.arg)
    ensures var word := Words(setup.usage, r)[0];
            && word != ""
            && LongOption(setup, word, LongText(setup.usage, r), r.d, next, done) ==
               Group([Named(setup.usage, r)], r.LongSeparate?, true)
  {
    hide LongIndex, AssignAt, PlainNames, Judge;
    LongTextFound(setup, r);
    LongJudged(setup, r);
    LongEnd(setup, r);
    hide WellMeant, LongText, Named, Words;
  }

  /** Where the name ends: before the attached argument, or with the word. */
  lemma LongEnd(setup: Setup, r: Request)
    requires r.Long?() && FitsName(setup, r.minus, r.d)
    ensures (|LongText(setup.usage, r)| == |setup.usage[r.d].longopt|) == !r.LongAttached?
  {
  }

  lemma LongJudged(setup: Setup, r: Request)
    requires WellMeant(setup, r) && r.Long?() && PlainNames(setup.usage)
    ensures Words(setup.usage, r)[0] != ""
    ensures forall next :: r.LongFlag? || next == Just(r.arg) ==>
              Judge(setup, r.d, Words(setup.usage, r)[0], next) == Accepted(Named(setup.usage, r), !r.LongFlag?)
  {
    LongNameLength(setup, r);
    hide NameLength, Words, FitsName;
  }

  lemma LongNameLength(setup: Setup, r: Request)
    requires WellMeant(setup, r) && r.Long?() && PlainNames(setup.usage)
    ensures var word := Words(setup.usage, r)[0];
            word != "" && NameLength(word) == |r.minus| + |setup.usage[r.d].longopt|
  {
    LongTextFound(setup, r);
    LongWord(setup, r);
    hide LongIndex, AssignAt, PlainNames, LongText, Words;
  }

  lemma LongWord(setup: Setup, r: Request)
    requires r.Long?() && FitsName(setup, r.minus, r.d)
    ensures var word, text := Words(setup.usage, r)[0], LongText(setup.usage, r);
            && word == r.minus + text && word[|r.minus|..] == text && text != ""
            && word[1..] == if r.minus == "--" then "-" + text else text
    ensures r.minus == "-" ==> LongText(setup.usage, r)[0] != '-'
  {
  }

  /** The group from a flag on: the flags that are left, then the last option. */
  lemma {:induction false} GroupMeant(setup: Setup, word: string, flags: seq<Flag>, i: nat, p: nat, last: Group,
                                      next: Maybe<string>, done: nat)
    requires FitsFlags(setup, flags) && setup.limit < 0 && i <= |flags|
    requires 1 + |flags| == p < |word| && forall k :: 0 <= k < |flags| ==> word[1 + k] == flags[k].c
    requires forall n: nat :: ShortGroup(setup, word, p, next, n) == last
    ensures ShortGroup(setup, word, 1 + i, next, done) == last.(opts := FlagsFrom(word, flags, i) + last.opts)
    decreases |flags| - i
  {
    hide FitsFlags, ShortGroup;
    if i < |flags| {
      FlagMeant(setup, word, flags, i, next, done);
      GroupMeant(setup, word, flags, i + 1, p, last, next, done + 1);
      var f := Opt(flags[i].d, word[1 + i..], 1, Nothing);
      var more := FlagsFrom(word, flags, i + 1);
      assert [f] + (more + last.opts) == [f] + more + last.opts;
    } else {
      assert [] + last.opts == last.opts;
    }
  }

  lemma ShortWord(usage: seq<Descriptor>, r: Request)
    requires r.d < |usage| && !r.Long?()
    ensures var word := Words(usage, r)[0];
            && |word| > 1 + |r.flags| && word[0] == '-' && word[1 + |r.flags|] == r.c
            && forall i :: 0 <= i < |r.flags| ==> word[1 + i] == r.flags[i].c
  {
    var letters, word := Letters(r.flags), Words(usage, r)[0];
    var head := "-" + letters;
    var arg := if r.ShortAttached? then r.arg else "";
    assert word == head + [r.c] + arg;
    hide Words;
    assert |head| == 1 + |r.flags| && forall i :: 0 <= i < |r.flags| ==> head[1 + i] == letters[i];
    assert word[..|head|] == head;
    assert forall i :: 0 <= i < |head| ==> word[i] == word[..|head|][i];
  }

  /** A flag of a group is found, and the group goes on behind it. */
  lemma FlagMeant(setup: Setup, word: string, flags: seq<Flag>, i: nat, next: Maybe<string>, done: nat)
    requires FitsFlags(setup, flags) && setup.limit < 0
    requires i < |flags| && |flags| + 1 < |word| && word[1 + i] == flags[i].c
    ensures var rest := ShortGroup(setup, word, 2 + i, next, done + 1);
            ShortGroup(setup, word, 1 + i, next, done) ==
            rest.(opts := [Opt(flags[i].d, word[1 + i..], 1, Nothing)] + rest.opts)
  {
    ShortFound(setup.usage, flags[i].d, flags[i].c);
    hide ShortIndex;
  }

  lemma LastMeant(setup: Setup, r: Request, next: Maybe<string>, done: nat)
    requires WellMeant(setup, r) && !r.Long?() && setup.limit < 0
    requires r.ShortSeparate? ==> next == Just(r.arg)
    ensures var word, p := Words(setup.usage, r)[0], 1 + |r.flags|;
            && p < |word|
            && ShortGroup(setup, word, p, next, done) == Group([Named(setup.usage, r)], r.ShortSeparate?, true)
  {
    var word, p := Words(setup.usage, r)[0], 1 + |r.flags|;
    LastJudged(setup, r);
    hide Judge, WellMeant, Named, ShortIndex;
    if !r.ShortAttached? {
      assert |word| == p + 1 && ShortGroup(setup, word, p + 1, next, done + 1) == Group([], false, true);
    }
  }

  lemma LastJudged(setup: Setup, r: Request)
    requires WellMeant(setup, r) && !r.Long?()
    ensures var word, p := Words(setup.usage, r)[0], 1 + |r.flags|;
            && p < |word| && ShortIndex(setup.usage, word[p]) == r.d
            && (r.ShortAttached? ==> p + 1 < |word| && word[p + 1..] == r.arg)
            && forall next :: r.ShortFlag? || next == Just(r.arg) ==>
                 Judge(setup, r.d, word[p..], next) == Accepted(Named(setup.usage, r), !r.ShortFlag?)
  {
    ShortFound(setup.usage, r.d, r.c);
    ShortWord(setup.usage, r);
    hide ShortIndex;
  }

  lemma ShortMove(setup: Setup, r: Request, next: Maybe<string>, done: nat)
    requires r.d < |setup.usage| && WellMeant(setup, r) && !r.Long?() && setup.limit < 0
    requires r.ShortSeparate? ==> next == Just(r.arg)
    ensures !IsNonOption(Words(setup.usage, r)[0]) && Words(setup.usage, r)[0] != "--"
    ensures Token(setup, Words(setup.usage, r)[0], next, done) == Group(Meant(setup.usage, r), r.ShortSeparate?, true)
  {
    hide WellMeant, ShortGroup, LongIndex, Named, FlagsFrom, FitsFlags;
    var word := Words(setup.usage, r)[0];
    hide Words;
    var last := Group([Named(setup.usage, r)], r.ShortSeparate?, true);
    ShortBegins(setup, r);
    var p := 1 + |r.flags|;
    forall n: nat ensures ShortGroup(setup, word, p, next, n) == last {
      LastMeant(setup, r, next, n);
    }
    GroupMeant(setup, word, r.flags, 0, p, last, next, done);
  }

  lemma ShortBegins(setup: Setup, r: Request)
    requires WellMeant(setup, r) && !r.Long?()
    ensures var word := Words(setup.usage, r)[0];
            && |word| > 1 + |r.flags| && word[0] == '-' && word[1] != '-' && FitsFlags(setup, r.flags)
            && (forall i :: 0 <= i < |r.flags| ==> word[1 + i] == r.flags[i].c)
            && (setup.singleMinus ==> LongIndex(setup.usage, word[1..], setup.minAbbr) == |setup.usage|)
  {
    ShortWord(setup.usage, r);
    hide LongIndex, Words;
    assert r.flags != [] ==> FitsLetter(setup.usage, r.flags[0].d, r.flags[0].c);
  }

  function AllWords(usage: seq<Descriptor>, rs: seq<Request>): seq<string>
    requires forall i :: 0 <= i < |rs| ==> rs[i].d < |usage|
  {
    if rs == [] then [] else Words(usage, rs[0]) + AllWords(usage, rs[1..])
  }

  function AllMeant(usage: seq<Descriptor>, rs: seq<Request>): seq<Opt>
    requires forall i :: 0 <= i < |rs| ==> rs[i].d < |usage|
  {
    if rs == [] then [] else Meant(usage, rs[0]) + AllMeant(usage, rs[1..])
  }

  lemma RequestMove(setup: Setup, r: Request, tail: seq<string>, done: nat)
    requires WellMeant(setup, r) && PlainNames(setup.usage) && setup.limit < 0
    ensures var words, opts := Words(setup.usage, r), Meant(setup.usage, r);
            Parse(setup, words + tail, done) ==
            After(opts, Repeat(true, |words|), Parse(setup, tail, done + |opts|))
  {
    hide Token, PlainNames, Named, FlagsFrom, Parse;
    var words := Words(setup.usage, r);
    var toks := words + tail;
    if r.Long?() {
      LongMove(setup, r, Next(toks), done);
    } else {
      ShortMove(setup, r, Next(toks), done);
    }
    hide WellMeant;
    assert FirstMove(setup, toks, done) == Go(Meant(setup.usage, r), true, |words|);
    assert toks[|words|..] == tail;
    hide FirstMove;
    ParseMoves(setup, toks, done);
  }

  lemma AfterMore(all: Parsed, first: seq<Opt>, n: nat, tail: Parsed, opts: seq<Opt>, m: nat, p: Parsed)
    requires all == After(first, Repeat(true, n), tail) && tail == After(opts, Repeat(true, m), p)
    ensures all == After(first + opts, Repeat(true, n + m), p)
  {
    assert first + (opts + p.opts) == first + opts + p.opts;
    assert Repeat(true, n) + (Repeat(true, m) + p.marks) == Repeat(true, n + m) + p.marks;
  }

  lemma AfterNothing(p: Parsed)
    ensures After([], Repeat(true, 0), p) == p
  {
    assert [] + p.opts == p.opts && Repeat(true, 0) + p.marks == p.marks;
  }

  /**
   * The options written first on a command line are found as meant, in their order and with their
   * arguments, in either mode; what follows is parsed as if they were not there.
   */
  lemma {:induction false} ParsedAsMeant(setup: Setup, rs: seq<Request>, rest: seq<string>, done: nat, end: nat)
    requires PlainNames(setup.usage) && setup.limit < 0
    requires forall i :: 0 <= i < |rs| ==> rs[i].d < |setup.usage| && WellMeant(setup, rs[i])
    requires end == done + |AllMeant(setup.usage, rs)|
    ensures var words := AllWords(setup.usage, rs);
            Parse(setup, words + rest, done) ==
            After(AllMeant(setup.usage, rs), Repeat(true, |words|), Parse(setup, rest, end))
    decreases |rs|
  {
    hide Parse, Words, Meant, WellMeant, PlainNames;
    var words := AllWords(setup.usage, rs);
    var p := Parse(setup, rest, end);
    if rs == [] {
      assert words + rest == rest;
      AfterNothing(p);
    } else {
      var first, more := Words(setup.usage, rs[0]), AllWords(setup.usage, rs[1..]);
      var toks := first + (more + rest);
      assert toks == words + rest;
      var opts := Meant(setup.usage, rs[0]);
      var tail := Parse(setup, more + rest, done + |opts|);
      assert tail == After(AllMeant(setup.usage, rs[1..]), Repeat(true, |more|), p) by {
        ParsedAsMeant(setup, rs[1..], rest, done + |opts|, end);
      }
      RequestMove(setup, rs[0], more + rest, done);
      AfterMore(Parse(setup, toks, done), opts, |first|, tail, AllMeant(setup.usage, rs[1..]), |more|, p);
    }
  }
}
