/** What the command line parser makes of a list of argument strings. */
module ArgumentParsing {
  import opened Basics
  import opened OptionLookup

  /** The parameters of a parse; limit is how many options the action accepts (negative: all). */
  datatype Setup = Setup(
    gnu: bool, usage: seq<Descriptor>, singleMinus: bool, printErrors: bool, minAbbr: int, limit: int)

  // ---------- One option ----------

  /** The first descriptor with the short option character, or the terminator. */
  function ShortIndex(usage: seq<Descriptor>, c: char): (k: nat)
    ensures k <= |usage|
  {
    if usage == [] || c in usage[0].shortopt then 0 else 1 + ShortIndex(usage[1..], c)
  }

  lemma {:induction false} ShortIndexMeans(usage: seq<Descriptor>, c: char)
    ensures forall j :: 0 <= j < ShortIndex(usage, c) ==> c !in usage[j].shortopt
    ensures ShortIndex(usage, c) < |usage| ==> c in usage[ShortIndex(usage, c)].shortopt
  {
    if usage != [] && c !in usage[0].shortopt {
      ShortIndexMeans(usage[1..], c);
    }
  }

  predicate IsDummy(d: Descriptor) {
    d.shortopt == "" && d.longopt == ""
  }

  /** The first dummy descriptor, which collects unknown options, or the terminator. */
  function DummyIndex(usage: seq<Descriptor>): (k: nat)
    ensures k <= |usage|
  {
    if usage == [] || IsDummy(usage[0]) then 0 else 1 + DummyIndex(usage[1..])
  }

  lemma {:induction false} DummyIndexMeans(usage: seq<Descriptor>)
    ensures forall j :: 0 <= j < DummyIndex(usage) ==> !IsDummy(usage[j])
    ensures DummyIndex(usage) < |usage| ==> IsDummy(usage[DummyIndex(usage)])
  {
    if usage != [] && !IsDummy(usage[0]) {
      DummyIndexMeans(usage[1..]);
    }
  }

  /** Where the first '=' is, or the end. */
  function AssignAt(text: string): (n: nat)
    ensures n <= |text|
  {
    if text == "" || text[0] == '=' then 0 else 1 + AssignAt(text[1..])
  }

  /** The text before that place is the typed name. */
  lemma {:induction false} AssignAtMeans(text: string)
    ensures text[..AssignAt(text)] == Typed(text)
    ensures AssignAt(text) < |text| ==> text[AssignAt(text)] == '='
  {
    if text != "" && text[0] != '=' {
      AssignAtMeans(text[1..]);
    }
  }

  /** The length of an option's name: one character, or up to '=' for a long option. */
  function NameLength(name: string): (n: nat)
    requires name != ""
    ensures 1 <= n <= |name|
  {
    if name[0] != '-' then 1 else 1 + AssignAt(name[1..])
  }

  /** An option that was dropped, illegal, or accepted; stops says that it took its argument. */
  datatype Verdict = Dropped | Illegal | Accepted(opt: Opt, stops: bool)

  /** Asking the descriptor, or the dummy when the option is unknown, to check the argument. */
  function Judge(setup: Setup, idx: nat, name: string, optarg: Maybe<string>): Verdict
    requires name != "" && idx <= |setup.usage|
  {
    var d := if idx < |setup.usage| then idx else DummyIndex(setup.usage);
    if d == |setup.usage| then Dropped
    else
      var opt := Opt(d, name, NameLength(name), optarg);
      match setup.usage[d].check(opt, setup.printErrors)
      case ArgIllegal => Illegal
      case ArgOk => Accepted(opt, true)
      case ArgIgnore => Accepted(opt.(arg := Nothing), false)
      case ArgNone => Accepted(opt.(arg := Nothing), false)
  }

  predicate Accepts(setup: Setup, done: nat) {
    setup.limit < 0 || done < setup.limit
  }

  // ---------- One argument ----------

  /** The options found in one argument, whether the next one was used up, and whether to go on. */
  datatype Group = Group(opts: seq<Opt>, tookNext: bool, ok: bool)

  /** The characters of a short option group from position p on. */
  function ShortGroup(setup: Setup, tok: string, p: nat, next: Maybe<string>, done: nat): (g: Group)
    ensures g.tookNext ==> next.Just?
    requires p <= |tok|
    decreases |tok| - p
  {
    if p == |tok| then Group([], false, true)
    else
      var separate := p + 1 == |tok|;
      var optarg := if separate then next else Just(tok[p + 1..]);
      match Judge(setup, ShortIndex(setup.usage, tok[p]), tok[p..], optarg)
      case Dropped => ShortGroup(setup, tok, p + 1, next, done)
      case Illegal => Group([], false, false)
      case Accepted(opt, stops) =>
        var took := stops && separate && next.Just?;
        if !Accepts(setup, done) then Group([], took, false)
        else if stops then Group([opt], took, true)
        else
          var rest := ShortGroup(setup, tok, p + 1, next, done + 1);
          rest.(opts := [opt] + rest.opts)
  }

  /** A long option with its attached argument, or the next argument. */
  function LongOption(setup: Setup, tok: string, text: string, idx: nat, next: Maybe<string>, done: nat): (g: Group)
    ensures g.tookNext ==> next.Just?
    requires tok != "" && idx <= |setup.usage|
  {
    var n := AssignAt(text);
    var attached := n < |text|;
    match Judge(setup, idx, tok, if attached then Just(text[n + 1..]) else next)
    case Dropped => Group([], false, true)
    case Illegal => Group([], false, false)
    case Accepted(opt, stops) =>
      var took := stops && !attached && next.Just?;
      if Accepts(setup, done) then Group([opt], took, true) else Group([], took, false)
  }

  predicate IsNonOption(tok: string) {
    |tok| < 2 || tok[0] != '-'
  }

  /** An argument that looks like an option; done options were parsed before it. */
  function Token(setup: Setup, tok: string, next: Maybe<string>, done: nat): (g: Group)
    ensures g.tookNext ==> next.Just?
    requires !IsNonOption(tok)
  {
    if tok[1] == '-' then
      LongOption(setup, tok, tok[2..], LongIndex(setup.usage, tok[2..], setup.minAbbr), next, done)
    else
      var idx := LongIndex(setup.usage, tok[1..], setup.minAbbr);
      if setup.singleMinus && idx < |setup.usage| then LongOption(setup, tok, tok[1..], idx, next, done)
      else ShortGroup(setup, tok, 1, next, done)
  }

  // ---------- The argument list ----------

  /**
   * The options in order; which arguments were used up; whether no fatal error occurred; how many
   * arguments were not looked at.
   */
  datatype Parsed = Parsed(opts: seq<Opt>, marks: seq<bool>, ok: bool, left: nat)

  function Repeat(b: bool, n: nat): (s: seq<bool>)
    ensures |s| == n && forall i :: 0 <= i < n ==> s[i] == b
  {
    seq(n, i => b)
  }

  function After(opts: seq<Opt>, marks: seq<bool>, rest: Parsed): Parsed {
    rest.(opts := opts + rest.opts, marks := marks + rest.marks)
  }

  /** What becomes of the first argument: the parse ends, or k arguments are done with. */
  datatype Move = Stop(last: Parsed) | Go(opts: seq<Opt>, used: bool, k: nat)

  function FirstMove(setup: Setup, toks: seq<string>, done: nat): (m: Move)
    ensures m.Stop? ==> |m.last.marks| == |toks|
    ensures m.Go? ==> 1 <= m.k <= |toks|
  {
    if toks == [] then Stop(Parsed([], [], true, 0))
    else if IsNonOption(toks[0]) then
      if setup.gnu then Go([], false, 1) else Stop(Parsed([], Repeat(false, |toks|), true, |toks|))
    else if toks[0] == "--" then Stop(Parsed([], [true] + Repeat(false, |toks| - 1), true, |toks| - 1))
    else
      var g := Token(setup, toks[0], Next(toks), done);
      if g.ok then Go(g.opts, true, if g.tookNext then 2 else 1)
      else Stop(Parsed(g.opts, [g.tookNext] + Repeat(false, |toks| - 1), false, |toks| - 1))
  }

  function Parse(setup: Setup, toks: seq<string>, done: nat): (r: Parsed)
    ensures |r.marks| == |toks|
    decreases |toks|
  {
    match FirstMove(setup, toks, done)
    case Stop(last) => last
    case Go(opts, used, k) => After(opts, Repeat(used, k), Parse(setup, toks[k..], done + |opts|))
  }

  function Next(toks: seq<string>): Maybe<string> {
    if |toks| > 1 then Just(toks[1]) else Nothing
  }

  /** The elements of s that carry the wanted mark, in their order. */
  function Select<T>(s: seq<T>, marks: seq<bool>, want: bool): seq<T>
    requires |marks| == |s|
  {
    if s == [] then [] else (if marks[0] == want then [s[0]] else []) + Select(s[1..], marks[1..], want)
  }

  /** The marked elements first, the others after them, both in their order. */
  function Partition<T>(s: seq<T>, marks: seq<bool>): seq<T>
    requires |marks| == |s|
  {
    Select(s, marks, true) + Select(s, marks, false)
  }

  lemma ParseMoves(setup: Setup, toks: seq<string>, done: nat)
    ensures Parse(setup, toks, done) ==
            match FirstMove(setup, toks, done)
            case Stop(last) => last
            case Go(opts, used, k) => After(opts, Repeat(used, k), Parse(setup, toks[k..], done + |opts|))
  {
    hide FirstMove, After;
  }

  // ---------- Properties ----------

  lemma {:induction false} SelectConcat<T>(s: seq<T>, t: seq<T>, m: seq<bool>, n: seq<bool>, want: bool)
    requires |m| == |s| && |n| == |t|
    ensures Select(s + t, m + n, want) == Select(s, m, want) + Select(t, n, want)
  {
    if s == [] {
      assert s + t == t && m + n == n;
    } else {
      assert (s + t)[0] == s[0] && (m + n)[0] == m[0];
      assert (s + t)[1..] == s[1..] + t && (m + n)[1..] == m[1..] + n;
      SelectConcat(s[1..], t, m[1..], n, want);
    }
  }

  lemma {:induction false} SelectUniform<T>(s: seq<T>, m: seq<bool>, b: bool, want: bool)
    requires |m| == |s| && forall i :: 0 <= i < |m| ==> m[i] == b
    ensures Select(s, m, want) == if b == want then s else []
  {
    if s != [] {
      SelectUniform(s[1..], m[1..], b, want);
    }
  }

  /** The partition is a permutation. */
  lemma {:induction false} PartitionPermutes<T>(s: seq<T>, marks: seq<bool>)
    requires |marks| == |s|
    ensures multiset(Partition(s, marks)) == multiset(s)
  {
    if s != [] {
      PartitionPermutes(s[1..], marks[1..]);
      assert s == [s[0]] + s[1..];
    }
  }

  /** The position of the "--" that ended the options, or the length. */
  predicate Terminator(toks: seq<string>, marks: seq<bool>, t: nat)
    requires |marks| == |toks|
  {
    t <= |toks| && (t < |toks| ==> toks[t] == "--" && marks[t] && forall j :: t < j < |toks| ==> !marks[j])
  }

  /** Used up are the options, and after an option its separate argument; nothing else. */
  predicate OptionsMarked(toks: seq<string>, marks: seq<bool>, t: nat)
    requires |marks| == |toks| && t <= |toks|
  {
    && (forall i :: 0 <= i < t && !marks[i] ==> IsNonOption(toks[i]))
    && (forall i :: 0 <= i < t && marks[i] && IsNonOption(toks[i]) ==>
          i > 0 && marks[i - 1] && !IsNonOption(toks[i - 1]))
  }

  lemma ExtendMarks(toks: seq<string>, used: bool, k: nat, rest: seq<bool>, t: nat)
    requires 1 <= k <= 2 && |toks| == k + |rest| && (k == 2 ==> used)
    requires used != IsNonOption(toks[0])
    requires Terminator(toks[k..], rest, t) && OptionsMarked(toks[k..], rest, t)
    ensures Terminator(toks, Repeat(used, k) + rest, t + k) && OptionsMarked(toks, Repeat(used, k) + rest, t + k)
  {
    var marks := Repeat(used, k) + rest;
    assert forall i :: k <= i < |toks| ==> toks[i] == toks[k..][i - k] && marks[i] == rest[i - k];
    assert t > 0 && rest[0] ==> !IsNonOption(toks[k..][0]);
  }

  lemma MoveInGnuMode(setup: Setup, toks: seq<string>, done: nat)
    requires setup.gnu
    ensures match FirstMove(setup, toks, done)
            case Stop(last) => last.ok ==> Terminator(toks, last.marks, 0)
            case Go(_, used, k) => used != IsNonOption(toks[0]) && k <= 2 && (k == 2 ==> used)
  {
  }

  /** In GNU mode exactly the options, their separate arguments and the first "--" are used up. */
  lemma {:induction false} GnuMarks(setup: Setup, toks: seq<string>, done: nat)
    requires setup.gnu && Parse(setup, toks, done).ok
    ensures exists t ::
      && Terminator(toks, Parse(setup, toks, done).marks, t)
      && OptionsMarked(toks, Parse(setup, toks, done).marks, t)
    decreases |toks|
  {
    var m := FirstMove(setup, toks, done);
    MoveInGnuMode(setup, toks, done);
    if m.Stop? {
      assert OptionsMarked(toks, m.last.marks, 0);
    } else {
      var rest := Parse(setup, toks[m.k..], done + |m.opts|);
      GnuMarks(setup, toks[m.k..], done + |m.opts|);
      var t :| Terminator(toks[m.k..], rest.marks, t) && OptionsMarked(toks[m.k..], rest.marks, t);
      ExtendMarks(toks, m.used, m.k, rest.marks, t);
    }
  }

  /** The marked elements come first. */
  predicate MarkedPrefix(marks: seq<bool>) {
    forall i, j :: 0 <= i < j < |marks| && marks[j] ==> marks[i]
  }

  /** Then partitioning changes nothing. */
  lemma {:induction false} MarkedPrefixStays<T>(s: seq<T>, marks: seq<bool>)
    requires |marks| == |s| && MarkedPrefix(marks)
    ensures Partition(s, marks) == s
  {
    if s != [] {
      if marks[0] {
        MarkedPrefixStays(s[1..], marks[1..]);
        assert s == [s[0]] + Partition(s[1..], marks[1..]);
      } else {
        assert forall i :: 0 <= i < |marks| ==> !marks[i];
        SelectUniform(s, marks, false, true);
        SelectUniform(s, marks, false, false);
      }
    }
  }

  /** Without GNU mode what is used up is a prefix, so nothing moves. */
  lemma {:induction false} PosixMarks(setup: Setup, toks: seq<string>, done: nat)
    requires !setup.gnu
    ensures MarkedPrefix(Parse(setup, toks, done).marks)
    decreases |toks|
  {
    hide FirstMove, Parse, MarkedPrefix;
    var m := FirstMove(setup, toks, done);
    PosixMove(setup, toks, done);
    ParseMoves(setup, toks, done);
    if m.Go? {
      PosixMarks(setup, toks[m.k..], done + |m.opts|);
      LongerPrefix(m.k, Parse(setup, toks[m.k..], done + |m.opts|).marks);
    }
  }

  lemma LongerPrefix(k: nat, marks: seq<bool>)
    requires MarkedPrefix(marks)
    ensures MarkedPrefix(Repeat(true, k) + marks)
  {
    var all := Repeat(true, k) + marks;
    assert forall i :: k <= i < |all| ==> all[i] == marks[i - k];
  }

  lemma PosixMove(setup: Setup, toks: seq<string>, done: nat)
    requires !setup.gnu
    ensures var m := FirstMove(setup, toks, done);
            if m.Go? then m.used else MarkedPrefix(m.last.marks)
  {
    hide Token;
  }
}
