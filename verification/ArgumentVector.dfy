/** What parsing makes of a whole argument vector. */
module ArgumentVector {
  import opened OptionLookup
  import opened ArgumentParsing
  import opened Workhorse

  /** The arguments used up. */
  function Consumed(was: seq<CString>, marks: seq<bool>): seq<CString>
    requires |marks| <= |was|
  {
    Select(was[..|marks|], marks, true)
  }

  /** The arguments passed on as non-options. */
  function PassedOn(was: seq<CString>, marks: seq<bool>): seq<CString>
    requires |marks| <= |was|
  {
    Select(was[..|marks|], marks, false)
  }

  lemma PackedParts(was: seq<CString>, marks: seq<bool>)
    requires |marks| <= |was|
    ensures Packed(was, marks) == Consumed(was, marks) + PassedOn(was, marks) + was[|marks|..]
    ensures |PassedOn(was, marks)| == Passed(marks) <= |marks|
    ensures |Consumed(was, marks)| == |marks| - Passed(marks)
    ensures multiset(Packed(was, marks)) == multiset(was)
  {
    SelectLength(was[..|marks|], marks, true);
    SelectLength(was[..|marks|], marks, false);
    PartitionPermutes(was[..|marks|], marks);
    assert was == was[..|marks|] + was[|marks|..];
  }

  /**
   * Parsing in GNU mode is a stable partition: the vector is permuted so that the options, their
   * separate arguments and the "--" come first and all non-options behind them, both in their order.
   */
  lemma StablePartition(setup: Setup, was: seq<CString>, argc: int)
    requires setup.gnu && Parse(setup, Tokens(was, argc), 0).ok
    ensures var toks := Tokens(was, argc); var marks := Parse(setup, toks, 0).marks; var now := Packed(was, marks);
            && multiset(now) == multiset(was)
            && now == Consumed(was, marks) + PassedOn(was, marks) + was[|toks|..]
            && |Consumed(was, marks)| + |PassedOn(was, marks)| == |toks|
            && exists t :: Terminator(toks, marks, t) && OptionsMarked(toks, marks, t)
  {
    var toks := Tokens(was, argc);
    var marks := Parse(setup, toks, 0).marks;
    PackedParts(was, marks);
    GnuMarks(setup, toks, 0);
  }

  /** Without GNU mode the vector stays as it is. */
  lemma PosixStays(setup: Setup, was: seq<CString>, argc: int)
    requires !setup.gnu
    ensures Packed(was, Parse(setup, Tokens(was, argc), 0).marks) == was
  {
    var toks := Tokens(was, argc);
    var marks := Parse(setup, toks, 0).marks;
    PosixMarks(setup, toks, 0);
    MarkedPrefixStays(was[..|toks|], marks);
    assert was == was[..|toks|] + was[|toks|..];
  }

  /** The number of non-options that the caller gets to know. */
  function Counted(passed: nat, argc: int, toks: nat, left: nat): nat {
    passed + Excess(argc, toks, left)
  }

  /**
   * A count beyond the arguments is corrected only if the parse looks at all of them. Here it stops
   * at the only argument, and the caller is told of two non-options.
   */
  lemma OverstatedCount(setup: Setup) returns (was: seq<CString>)
    requires !setup.gnu
    ensures was == [Str("x"), Null] && Bounded(was, 2)
    ensures var toks := Tokens(was, 2); var p := Parse(setup, toks, 0);
            && p.ok && p.left == 1 && PassedOn(was, p.marks) == [Str("x")]
            && Counted(|PassedOn(was, p.marks)|, 2, |toks|, p.left) == 2
  {
    was := [Str("x"), Null];
    var toks := Tokens(was, 2);
    assert Tokens(was[1..], 1) == [] && toks == ["x"];
    var marks := Parse(setup, toks, 0).marks;
    assert marks == [false] && was[..1] == [Str("x")];
    SelectUniform(was[..1], marks, false, false);
  }

  lemma TailOfPacked(now: seq<CString>, used: seq<CString>, passed: seq<CString>, rest: seq<CString>)
    requires now == used + passed + rest
    ensures now[|used|..|used| + |passed|] == passed
  {
  }

  /** Parsing of a vector that may be missing: then there are no arguments, whatever the count says. */
  method ParseVector(setup: Setup, args: array?<CString>, argc: int)
    returns (ok: bool, opts: seq<Opt>, nonCount: int, nonBase: nat)
    requires args != null ==> Bounded(args[..], argc)
    modifies args
    ensures args == null ==> ok && opts == [] && nonCount == 0
    ensures args != null && ok ==>
              var was := old(args[..]);
              var p := Parse(setup, Tokens(was, argc), 0);
              var passed := PassedOn(was, p.marks);
              && nonCount == Counted(|passed|, argc, |p.marks|, p.left) && nonBase + |passed| <= args.Length
              && args[nonBase..nonBase + |passed|] == passed
              && (nonCount == |passed| <==> p.left == 0 || argc <= |p.marks|)
    ensures args != null ==> multiset(args[..]) == multiset(old(args[..]))
    ensures args != null && !setup.gnu ==> args[..] == old(args[..])
  {
    if args == null {
      return true, [], 0, 0;
    }
    ghost var was := args[..];
    ghost var p := Parse(setup, Tokens(was, argc), 0);
    VectorParsed(setup, was, argc);
    hide Parse, Tokens, PassedOn, Packed, Passed, Bounded, Excess, Counted;
    ok, opts, nonCount, nonBase := ParseArguments(setup, args, argc);
    assert ok ==> args[..][nonBase..nonBase + |PassedOn(was, p.marks)|] == PassedOn(was, p.marks);
  }

  /** What the contract of ParseArguments says about the vector. */
  lemma VectorParsed(setup: Setup, was: seq<CString>, argc: int)
    ensures var toks := Tokens(was, argc); var p := Parse(setup, toks, 0);
            var base, passed, now := |toks| - Passed(p.marks), PassedOn(was, p.marks), Packed(was, p.marks);
            && 0 <= base && base + |passed| == |p.marks| == |toks| <= |was| == |now|
            && now[base..base + |passed|] == passed && multiset(now) == multiset(was)
            && |passed| + Excess(argc, |toks|, p.left) == Counted(|passed|, argc, |p.marks|, p.left)
            && (Counted(|passed|, argc, |p.marks|, p.left) == |passed| <==> p.left == 0 || argc <= |p.marks|)
            && (!setup.gnu ==> now == was)
  {
    hide Parse, Consumed, PassedOn, Packed, Passed;
    var toks := Tokens(was, argc);
    var p := Parse(setup, toks, 0);
    hide Tokens;
    PackedParts(was, p.marks);
    if !setup.gnu {
      PosixStays(setup, was, argc);
    }
    CountRight(|PassedOn(was, p.marks)|, argc, |p.marks|, p.left);
    hide Counted, Excess;
    TailOfPacked(Packed(was, p.marks), Consumed(was, p.marks), PassedOn(was, p.marks), was[|p.marks|..]);
  }

  /** When the caller gets to know the right number. */
  lemma CountRight(passed: nat, argc: int, toks: nat, left: nat)
    ensures passed + Excess(argc, toks, left) == Counted(passed, argc, toks, left)
    ensures Counted(passed, argc, toks, left) == passed <==> left == 0 || argc <= toks
  {
  }
}
