/** Parses that differ only in messages and in how many options their actions accept. */
module ParseAgreement {
  import opened Basics
  import opened OptionLookup
  import opened ArgumentParsing

  /** The check functions decide the same whether or not they print a message. */
  ghost predicate IgnoreMessages(usage: seq<Descriptor>) {
    forall d, o :: 0 <= d < |usage| ==> usage[d].check(o, true) == usage[d].check(o, false)
  }

  /** The same parse, with an action that accepts everything. */
  function Unlimited(setup: Setup): Setup {
    setup.(limit := -1, printErrors := false)
  }

  lemma SameVerdict(setup: Setup, idx: nat, name: string, optarg: Maybe<string>)
    requires IgnoreMessages(setup.usage) && name != "" && idx <= |setup.usage|
    ensures Judge(setup, idx, name, optarg) == Judge(Unlimited(setup), idx, name, optarg)
  {
  }

  /** g is h, unless the action refused an option of h; done options came before. */
  predicate CutAt(g: Group, h: Group, limit: int, done: nat) {
    if limit < 0 || done + |h.opts| <= limit then g == h
    else !g.ok && done <= limit && g.opts == h.opts[..limit - done]
  }

  lemma FirstKept(opt: Opt, g: Group, h: Group, limit: int, done: nat)
    requires CutAt(g, h, limit, done + 1) && (limit < 0 || done < limit)
    ensures CutAt(g.(opts := [opt] + g.opts), h.(opts := [opt] + h.opts), limit, done)
  {
    if limit >= 0 && done + 1 + |h.opts| > limit {
      assert ([opt] + h.opts)[..limit - done] == [opt] + h.opts[..limit - done - 1];
    }
  }

  lemma {:induction false} ShortGroupCut(setup: Setup, tok: string, p: nat, next: Maybe<string>, done: nat)
    requires IgnoreMessages(setup.usage) && p <= |tok| && (setup.limit < 0 || done <= setup.limit)
    ensures CutAt(ShortGroup(setup, tok, p, next, done), ShortGroup(Unlimited(setup), tok, p, next, done),
                  setup.limit, done)
    decreases |tok| - p
  {
    hide Judge, ShortIndex;
    if p < |tok| {
      var optarg := if p + 1 == |tok| then next else Just(tok[p + 1..]);
      var idx := ShortIndex(setup.usage, tok[p]);
      SameVerdict(setup, idx, tok[p..], optarg);
      match Judge(setup, idx, tok[p..], optarg) {
        case Dropped =>
          ShortGroupCut(setup, tok, p + 1, next, done);
        case Illegal =>
        case Accepted(opt, stops) =>
          if Accepts(setup, done) && !stops {
            ShortGroupCut(setup, tok, p + 1, next, done + 1);
            FirstKept(opt, ShortGroup(setup, tok, p + 1, next, done + 1),
                      ShortGroup(Unlimited(setup), tok, p + 1, next, done + 1), setup.limit, done);
          }
      }
    }
  }

  lemma LongOptionCut(setup: Setup, tok: string, text: string, idx: nat, next: Maybe<string>, done: nat)
    requires IgnoreMessages(setup.usage) && tok != "" && idx <= |setup.usage|
    requires setup.limit < 0 || done <= setup.limit
    ensures CutAt(LongOption(setup, tok, text, idx, next, done),
                  LongOption(Unlimited(setup), tok, text, idx, next, done), setup.limit, done)
  {
    var n := AssignAt(text);
    SameVerdict(setup, idx, tok, if n < |text| then Just(text[n + 1..]) else next);
  }

  lemma TokenCut(setup: Setup, tok: string, next: Maybe<string>, done: nat)
    requires IgnoreMessages(setup.usage) && !IsNonOption(tok) && (setup.limit < 0 || done <= setup.limit)
    ensures CutAt(Token(setup, tok, next, done), Token(Unlimited(setup), tok, next, done), setup.limit, done)
  {
    var text := if tok[1] == '-' then tok[2..] else tok[1..];
    LongOptionCut(setup, tok, text, LongIndex(setup.usage, text, setup.minAbbr), next, done);
    ShortGroupCut(setup, tok, 1, next, done);
  }

  function OptsOf(m: Move): seq<Opt> {
    match m
    case Stop(last) => last.opts
    case Go(opts, _, _) => opts
  }

  lemma MoveCut(setup: Setup, toks: seq<string>, done: nat)
    requires IgnoreMessages(setup.usage) && (setup.limit < 0 || done <= setup.limit)
    ensures var m, n := FirstMove(setup, toks, done), FirstMove(Unlimited(setup), toks, done);
            if setup.limit < 0 || done + |OptsOf(n)| <= setup.limit then m == n
            else m.Stop? && !m.last.ok && OptsOf(m) == OptsOf(n)[..setup.limit - done]
  {
    if toks != [] && !IsNonOption(toks[0]) && toks[0] != "--" {
      TokenCut(setup, toks[0], Next(toks), done);
    }
  }

  /** p is q, unless the action refused an option of q; done options came before. */
  predicate ParseCutAt(p: Parsed, q: Parsed, limit: int, done: nat) {
    if limit < 0 || done + |q.opts| <= limit then p == q
    else !p.ok && done <= limit && p.opts == q.opts[..limit - done]
  }

  lemma CutLater(opts: seq<Opt>, marks: seq<bool>, p: Parsed, q: Parsed, limit: int, done: nat)
    requires limit < 0 || done + |opts| <= limit
    requires ParseCutAt(p, q, limit, done + |opts|)
    ensures ParseCutAt(After(opts, marks, p), After(opts, marks, q), limit, done)
  {
    if limit >= 0 && done + |opts| + |q.opts| > limit {
      assert (opts + q.opts)[..limit - done] == opts + q.opts[..limit - done - |opts|];
    }
  }

  lemma CutHere(p: Parsed, opts: seq<Opt>, marks: seq<bool>, q: Parsed, limit: int, done: nat)
    requires 0 <= limit < done + |opts| && done <= limit
    requires !p.ok && p.opts == opts[..limit - done]
    ensures ParseCutAt(p, After(opts, marks, q), limit, done)
  {
    assert (opts + q.opts)[..limit - done] == opts[..limit - done];
  }

  /**
   * The options a parse yields are those of the unlimited silent parse, as many as its action
   * accepts; if that is all of them, the two parses do not differ at all.
   */
  lemma {:induction false} ParseCut(setup: Setup, toks: seq<string>, done: nat)
    requires IgnoreMessages(setup.usage) && (setup.limit < 0 || done <= setup.limit)
    ensures ParseCutAt(Parse(setup, toks, done), Parse(Unlimited(setup), toks, done), setup.limit, done)
    decreases |toks|
  {
    hide FirstMove, Parse, After, IgnoreMessages, ParseCutAt;
    var m := FirstMove(Unlimited(setup), toks, done);
    var more := done + |OptsOf(m)|;
    if m.Go? && (setup.limit < 0 || more <= setup.limit) {
      GoesOn(setup, toks, done, m);
      ParseCut(setup, toks[m.k..], more);
      CutLater(m.opts, Repeat(m.used, m.k), Parse(setup, toks[m.k..], more),
               Parse(Unlimited(setup), toks[m.k..], more), setup.limit, done);
    } else {
      EndsHere(setup, toks, done, m);
    }
  }

  /** The action accepts the options of the move: both parses go on behind it. */
  lemma GoesOn(setup: Setup, toks: seq<string>, done: nat, m: Move)
    requires IgnoreMessages(setup.usage) && m == FirstMove(Unlimited(setup), toks, done) && m.Go?
    requires setup.limit < 0 || done + |m.opts| <= setup.limit
    ensures |OptsOf(m)| == |m.opts|
    ensures var marks, more := Repeat(m.used, m.k), done + |m.opts|;
            && Parse(setup, toks, done) == After(m.opts, marks, Parse(setup, toks[m.k..], more))
            && Parse(Unlimited(setup), toks, done) == After(m.opts, marks, Parse(Unlimited(setup), toks[m.k..], more))
  {
    hide FirstMove, Parse, After, IgnoreMessages;
    MoveCut(setup, toks, done);
    ParseMoves(setup, toks, done);
    ParseMoves(Unlimited(setup), toks, done);
  }

  /** The last move, or the action refuses one of its options. */
  lemma EndsHere(setup: Setup, toks: seq<string>, done: nat, m: Move)
    requires IgnoreMessages(setup.usage) && (setup.limit < 0 || done <= setup.limit)
    requires m == FirstMove(Unlimited(setup), toks, done)
    requires m.Go? ==> 0 <= setup.limit < done + |OptsOf(m)|
    ensures ParseCutAt(Parse(setup, toks, done), Parse(Unlimited(setup), toks, done), setup.limit, done)
  {
    hide FirstMove, Parse, After, IgnoreMessages;
    MoveCut(setup, toks, done);
    ParseMoves(setup, toks, done);
    ParseMoves(Unlimited(setup), toks, done);
    if m.Go? {
      var rest := Parse(Unlimited(setup), toks[m.k..], done + |m.opts|);
      hide ParseCutAt;
      CutHere(Parse(setup, toks, done), m.opts, Repeat(m.used, m.k), rest, setup.limit, done);
    }
  }

  // ---------- Every option has a descriptor ----------

  predicate Described(usage: seq<Descriptor>, opts: seq<Opt>) {
    forall n :: 0 <= n < |opts| ==> opts[n].desc < |usage|
  }

  lemma {:induction false} ShortGroupDescribed(setup: Setup, tok: string, p: nat, next: Maybe<string>, done: nat)
    requires p <= |tok|
    ensures Described(setup.usage, ShortGroup(setup, tok, p, next, done).opts)
    decreases |tok| - p
  {
    if p < |tok| {
      ShortGroupDescribed(setup, tok, p + 1, next, done);
      ShortGroupDescribed(setup, tok, p + 1, next, done + 1);
    }
  }

  lemma LongDescribed(setup: Setup, tok: string, text: string, idx: nat, next: Maybe<string>, done: nat)
    requires tok != "" && idx <= |setup.usage|
    ensures Described(setup.usage, LongOption(setup, tok, text, idx, next, done).opts)
  {
  }

  lemma MoveDescribed(setup: Setup, toks: seq<string>, done: nat)
    ensures Described(setup.usage, OptsOf(FirstMove(setup, toks, done)))
  {
    if toks != [] && !IsNonOption(toks[0]) && toks[0] != "--" {
      var tok := toks[0];
      var text := if tok[1] == '-' then tok[2..] else tok[1..];
      ShortGroupDescribed(setup, tok, 1, Next(toks), done);
      LongDescribed(setup, tok, text, LongIndex(setup.usage, text, setup.minAbbr), Next(toks), done);
      hide ShortGroup, LongOption, Described;
      assert Described(setup.usage, Token(setup, tok, Next(toks), done).opts);
    } else {
      assert OptsOf(FirstMove(setup, toks, done)) == [];
    }
  }

  lemma {:induction false} ParseDescribed(setup: Setup, toks: seq<string>, done: nat)
    ensures Described(setup.usage, Parse(setup, toks, done).opts)
    decreases |toks|
  {
    MoveDescribed(setup, toks, done);
    var m := FirstMove(setup, toks, done);
    hide FirstMove;
    if m.Go? {
      ParseDescribed(setup, toks[m.k..], done + |m.opts|);
    }
  }

  // ---------- No more options than the action accepts ----------

  lemma {:induction false} ShortGroupWithin(setup: Setup, tok: string, p: nat, next: Maybe<string>, done: nat)
    requires p <= |tok| && done <= setup.limit
    ensures done + |ShortGroup(setup, tok, p, next, done).opts| <= setup.limit
    decreases |tok| - p
  {
    if p < |tok| {
      ShortGroupWithin(setup, tok, p + 1, next, done);
      if done < setup.limit {
        ShortGroupWithin(setup, tok, p + 1, next, done + 1);
      }
    }
  }

  lemma MoveWithin(setup: Setup, toks: seq<string>, done: nat)
    requires done <= setup.limit
    ensures done + |OptsOf(FirstMove(setup, toks, done))| <= setup.limit
  {
    if toks != [] && !IsNonOption(toks[0]) && toks[0] != "--" {
      ShortGroupWithin(setup, toks[0], 1, Next(toks), done);
      hide ShortGroup, LongIndex, AssignAt;
      assert done + |Token(setup, toks[0], Next(toks), done).opts| <= setup.limit;
    }
  }

  lemma {:induction false} ParseWithin(setup: Setup, toks: seq<string>, done: nat)
    requires done <= setup.limit
    ensures done + |Parse(setup, toks, done).opts| <= setup.limit
    decreases |toks|
  {
    hide FirstMove, Parse;
    MoveWithin(setup, toks, done);
    ParseMoves(setup, toks, done);
    var m := FirstMove(setup, toks, done);
    if m.Go? {
      ParseWithin(setup, toks[m.k..], done + |m.opts|);
    }
  }
}
