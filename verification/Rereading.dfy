/** When all permuted vectors are read as before: exactly if no option is disturbed. */
module Rereading {
  import opened Basics
  import opened OptionLookup
  import opened ArgumentParsing
  import opened SecondParse

  /** Permuted, the arguments have the same options. */
  predicate SameAgain(setup: Setup, toks: seq<string>) {
    var p := Parse(setup, toks, 0);
    var r := Parse(setup, Permuted(toks, p.marks, []), 0);
    r.opts == p.opts && r.ok == p.ok
  }

  // ---------- What a disturbed option shows ----------

  /** One of the two groups fails early, or has another argument. */
  predicate Apart(g: Group, h: Group) {
    if h.ok then |h.opts| == |g.opts| && h.opts != g.opts else |h.opts| < |g.opts|
  }

  lemma ApartBehind(opt: Opt, g: Group, h: Group)
    requires Apart(g, h)
    ensures Apart(g.(opts := [opt] + g.opts), h.(opts := [opt] + h.opts))
  {
    if h.ok {
      var k :| 0 <= k < |g.opts| && g.opts[k] != h.opts[k];
      assert ([opt] + g.opts)[k + 1] != ([opt] + h.opts)[k + 1];
    }
  }

  lemma {:induction false} GroupApart(setup: Setup, tok: string, p: nat, next: Maybe<string>, other: string, done: nat)
    requires setup.limit < 0 && p <= |tok|
    requires ShortGroup(setup, tok, p, next, done).ok && !ShortGroup(setup, tok, p, next, done).tookNext
    requires ShortGroup(setup, tok, p, Just(other), done) != ShortGroup(setup, tok, p, next, done)
    ensures Apart(ShortGroup(setup, tok, p, next, done), ShortGroup(setup, tok, p, Just(other), done))
    decreases |tok| - p
  {
    if p + 1 == |tok| {
      LastApart(setup, tok, p, next, other, done);
    } else if p + 1 < |tok| {
      hide Judge, ShortIndex;
      match Judge(setup, ShortIndex(setup.usage, tok[p]), tok[p..], Just(tok[p + 1..])) {
        case Dropped => GroupApart(setup, tok, p + 1, next, other, done);
        case Illegal =>
        case Accepted(opt, stops) =>
          if !stops {
            GroupApart(setup, tok, p + 1, next, other, done + 1);
            ApartBehind(opt, ShortGroup(setup, tok, p + 1, next, done + 1),
                        ShortGroup(setup, tok, p + 1, Just(other), done + 1));
          }
      }
    }
  }

  lemma LastApart(setup: Setup, tok: string, p: nat, next: Maybe<string>, other: string, done: nat)
    requires setup.limit < 0 && p + 1 == |tok|
    requires ShortGroup(setup, tok, p, next, done).ok && !ShortGroup(setup, tok, p, next, done).tookNext
    requires ShortGroup(setup, tok, p, Just(other), done) != ShortGroup(setup, tok, p, next, done)
    ensures Apart(ShortGroup(setup, tok, p, next, done), ShortGroup(setup, tok, p, Just(other), done))
  {
    var idx := ShortIndex(setup.usage, tok[p]);
    JudgeApart(setup, idx, tok[p..], next, other);
    hide Judge, ShortIndex;
    var v, u := Judge(setup, idx, tok[p..], next), Judge(setup, idx, tok[p..], Just(other));
    if v.Accepted? && u.Accepted? {
      assert [v.opt] + [] == [v.opt] && [u.opt] + [] == [u.opt];
      assert [v.opt] == [u.opt] <==> v.opt == u.opt;
    }
  }

  /** An option that leaves its neighbour alone has no argument, whatever the check function says. */
  lemma JudgeApart(setup: Setup, idx: nat, name: string, next: Maybe<string>, other: string)
    requires name != "" && idx <= |setup.usage|
    ensures match (Judge(setup, idx, name, next), Judge(setup, idx, name, Just(other)))
            case (Dropped, v) => v.Dropped?
            case (Accepted(o, stops), Accepted(q, _)) =>
              (stops && next.Just?) || (o.arg.Nothing? && (q == o || q.arg == Just(other)))
            case (Accepted(_, _), Illegal) => true
            case (Illegal, _) => true
            case (_, _) => false
    ensures var v := Judge(setup, idx, name, Just(other)); v.Accepted? ==> v.stops == v.opt.arg.Just?
  {
  }

  lemma LongApart(setup: Setup, tok: string, text: string, idx: nat, next: Maybe<string>, other: string, done: nat)
    requires setup.limit < 0 && tok != "" && idx <= |setup.usage|
    requires var g := LongOption(setup, tok, text, idx, next, done);
             g.ok && !g.tookNext && LongOption(setup, tok, text, idx, Just(other), done) != g
    ensures Apart(LongOption(setup, tok, text, idx, next, done), LongOption(setup, tok, text, idx, Just(other), done))
  {
    JudgeApart(setup, idx, tok, next, other);
    hide Judge, AssignAt;
  }

  lemma TokenApart(setup: Setup, w: string, next: Maybe<string>, other: string)
    requires setup.limit < 0 && IsOption(w) && LeavesAlone(setup, w, next)
    requires Token(setup, w, Just(other), 0) != Token(setup, w, next, 0)
    ensures Apart(Token(setup, w, next, 0), Token(setup, w, Just(other), 0))
  {
    var text := if w[1] == '-' then w[2..] else w[1..];
    var idx := LongIndex(setup.usage, text, setup.minAbbr);
    hide LongIndex, ShortGroup, LongOption;
    if w[1] == '-' || (setup.singleMinus && idx < |setup.usage|) {
      LongApart(setup, w, text, idx, next, other, 0);
    } else {
      GroupApart(setup, w, 1, next, other, 0);
    }
  }

  /** The options of the first word come first, and are all if it fails. */
  lemma StartsWith(setup: Setup, toks: seq<string>, g: Group)
    requires setup.limit < 0 && toks != [] && IsOption(toks[0]) && g == Token(setup, toks[0], Next(toks), 0)
    ensures var p := Parse(setup, toks, 0);
            g.opts <= p.opts && (!g.ok ==> p.opts == g.opts)
  {
    ParseMoves(setup, toks, 0);
    hide Token, Parse;
  }

  /** Then the vectors that start with the two readings have different options. */
  lemma TellsApart(g: Group, h: Group, p: seq<Opt>, r: seq<Opt>)
    requires Apart(g, h) && g.opts <= p && h.opts <= r && (!h.ok ==> r == h.opts)
    ensures p != r
  {
  }

  // ---------- Vectors that disturb an option ----------

  /** A non-option in front of the option is put behind it, if nothing behind is used up. */
  lemma PutBehind(setup: Setup, other: string, w: string, tail: seq<string>)
    requires setup.gnu && setup.limit < 0 && IsNonOption(other) && IsOption(w) && LeavesAlone(setup, w, First(tail))
    requires forall n: nat :: Parse(setup, tail, n).marks == Repeat(false, |tail|)
    ensures var toks := [other, w] + tail; var p := Parse(setup, toks, 0);
            && Token(setup, w, First(tail), 0).opts <= p.opts
            && Permuted(toks, p.marks, []) == [w, other] + tail
  {
    hide Token, Parse, Permuted, FirstMove;
    var toks, more := [other, w] + tail, [w] + tail;
    assert toks[1..] == more && more[1..] == tail && Next(more) == First(tail);
    var q := Parse(setup, more, 0);
    var g := Token(setup, w, First(tail), 0);
    StartsWith(setup, more, g);
    PassesOver(setup, toks, 0);
    LeftAlone(setup, more);
    assert [] + q.opts == q.opts;
    PutBehindOrder(other, w, tail);
  }

  lemma PutBehindOrder(other: string, w: string, tail: seq<string>)
    ensures Permuted([other, w] + tail, Repeat(false, 1) + (Repeat(true, 1) + Repeat(false, |tail|)), []) ==
            [w, other] + tail
  {
    hide Permuted;
    var toks, more, rest := [other, w] + tail, [w] + tail, Repeat(false, |tail|);
    assert toks[1..] == more && more[1..] == tail && toks[..1] == [other] && more[..1] == [w];
    PermutedSplit(toks, 1, false, Repeat(true, 1) + rest, []);
    PermutedSplit(more, 1, true, rest, [other]);
    assert [] + [other] == [other] && [w] + ([other] + tail) == [w, other] + tail;
    NoneUsed(tail, [other]);
  }

  lemma NoneUsed(tail: seq<string>, xs: seq<string>)
    ensures Permuted(tail, Repeat(false, |tail|), xs) == xs + tail
  {
    SelectUniform(tail, Repeat(false, |tail|), false, true);
    SelectUniform(tail, Repeat(false, |tail|), false, false);
  }

  /** A non-option behind the option is put behind what follows, if that is used up. */
  lemma PulledUp(setup: Setup, w: string, next: string, tail: seq<string>)
    requires setup.gnu && setup.limit < 0 && IsNonOption(next) && IsOption(w) && LeavesAlone(setup, w, Just(next))
    requires tail != [] && forall n: nat :: Parse(setup, tail, n).marks[0]
    ensures var toks := [w, next] + tail; var p := Parse(setup, toks, 0);
            var all := Permuted(toks, p.marks, []);
            && Token(setup, w, Just(next), 0).opts <= p.opts
            && |all| > 1 && all[0] == w && all[1] == tail[0]
  {
    hide Token, Parse, FirstMove, Permuted;
    var toks, more := [w, next] + tail, [next] + tail;
    assert toks[1..] == more && more[1..] == tail && Next(toks) == Just(next);
    var g := Token(setup, w, Just(next), 0);
    StartsWith(setup, toks, g);
    LeftAlone(setup, toks);
    PassesOver(setup, more, |g.opts|);
    PulledUpOrder(w, next, tail, Parse(setup, tail, |g.opts|).marks);
  }

  /** An option that leaves its neighbour alone is the only word used up. */
  lemma LeftAlone(setup: Setup, toks: seq<string>)
    requires setup.limit < 0 && toks != [] && IsOption(toks[0]) && LeavesAlone(setup, toks[0], Next(toks))
    ensures var g := Token(setup, toks[0], Next(toks), 0);
            Parse(setup, toks, 0) == After(g.opts, Repeat(true, 1), Parse(setup, toks[1..], |g.opts|))
  {
    ParseMoves(setup, toks, 0);
    hide Token, Parse;
  }

  lemma PulledUpOrder(w: string, next: string, tail: seq<string>, marks: seq<bool>)
    requires |marks| == |tail| > 0 && marks[0]
    ensures var all := Permuted([w, next] + tail, Repeat(true, 1) + (Repeat(false, 1) + marks), []);
            |all| > 1 && all[0] == w && all[1] == tail[0]
  {
    var toks, more := [w, next] + tail, [next] + tail;
    assert toks[1..] == more && more[1..] == tail && toks[..1] == [w];
    PermutedSplit(toks, 1, true, Repeat(false, 1) + marks, []);
    PermutedSplit(more, 1, false, marks, []);
    assert Select(tail, marks, true)[0] == tail[0];
    hide Select;
  }

  // ---------- The condition is exact ----------

  /** A vector on which the two passes differ because of a disturbed option. */
  lemma Disturbed(setup: Setup, w: string, next: Maybe<string>, other: string) returns (toks: seq<string>)
    requires setup.gnu && setup.limit < 0 && IsOption(w) && LeavesAlone(setup, w, next)
    requires Replaces(setup, next, other) && Token(setup, w, Just(other), 0) != Token(setup, w, next, 0)
    ensures !SameAgain(setup, toks)
  {
    TokenApart(setup, w, next, other);
    if IsNonOption(other) {
      var tail := Unused(setup, next);
      toks := [other, w] + tail;
      PutBehind(setup, other, w, tail);
    } else {
      var tail := Followed(setup, other);
      toks := [w, next.value] + tail;
      PulledUp(setup, w, next.value, tail);
    }
    var p := Parse(setup, toks, 0);
    var all := Permuted(toks, p.marks, []);
    assert all[0] == w && Next(all) == Just(other);
    var g, h := Token(setup, w, next, 0), Token(setup, w, Just(other), 0);
    StartsWith(setup, all, h);
    hide Parse, Permuted, Token;
    TellsApart(g, h, p.opts, Parse(setup, all, 0).opts);
  }

  /** Arguments of which none is used up. */
  lemma Unused(setup: Setup, next: Maybe<string>) returns (tail: seq<string>)
    requires setup.gnu && setup.limit < 0
    requires next.Just? ==> IsNonOption(next.value) || CanFail(setup, next.value)
    ensures First(tail) == next && forall n: nat :: Parse(setup, tail, n).marks == Repeat(false, |tail|)
  {
    if next.Nothing? {
      tail := [];
    } else if IsNonOption(next.value) {
      tail := [next.value];
      assert tail[1..] == [];
      forall n: nat ensures Parse(setup, tail, n).marks == Repeat(false, 1) {
        SkipNonOptions(setup, tail, [], n);
        assert tail + [] == tail;
      }
    } else {
      var after :| !Token(setup, next.value, after, 0).ok;
      tail := [next.value] + if after.Just? then [after.value] else [];
      forall n: nat ensures Parse(setup, tail, n).marks == Repeat(false, |tail|) {
        TokenAnywhere(setup, next.value, after, n);
        hide Token;
        NothingUsed(setup, tail, n);
      }
    }
  }

  /** Arguments of which the first is used up. */
  lemma Followed(setup: Setup, w: string) returns (tail: seq<string>)
    requires setup.limit < 0 && CanBeUsed(setup, w)
    ensures tail != [] && tail[0] == w && forall n: nat :: Parse(setup, tail, n).marks[0]
  {
    if w == "--" {
      tail := [w];
    } else {
      var next :| Token(setup, w, next, 0).ok;
      tail := [w] + if next.Just? then [next.value] else [];
      assert Next(tail) == next;
      forall n: nat ensures Parse(setup, tail, n).marks[0] {
        TokenAnywhere(setup, w, next, n);
        hide Token;
      }
    }
  }

  /** All permuted vectors have the same options if and only if no option is disturbed. */
  lemma SameAgainExactly(setup: Setup)
    requires setup.gnu && setup.limit < 0
    ensures (forall toks :: SameAgain(setup, toks)) <==> Undisturbed(setup)
  {
    if Undisturbed(setup) {
      forall toks ensures SameAgain(setup, toks) {
        ParsedAgain(setup, toks, [], 0);
      }
    }
    if forall toks :: SameAgain(setup, toks) {
      forall w, next, other | IsOption(w) && LeavesAlone(setup, w, next) && Replaces(setup, next, other)
        ensures Token(setup, w, Just(other), 0) == Token(setup, w, next, 0)
      {
        if Token(setup, w, Just(other), 0) != Token(setup, w, next, 0) {
          var toks := Disturbed(setup, w, next, other);
        }
      }
    }
  }
}
