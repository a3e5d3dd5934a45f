/** Measuring an argument vector, and storing its options in arrays of the measured size. */
module OptionParser {
  import opened Basics
  import opened OptionLookup
  import opened ArgumentParsing
  import opened Workhorse
  import opened ParseAgreement
  import opened OptionLists

  const INT_MAX: nat := 0x7fff_ffff

  /** One more than the greatest index needs, for the sentinel; never less than before. */
  function SlotsFor(usage: seq<Descriptor>, before: nat): (n: nat)
    ensures n >= before
    ensures forall d :: 0 <= d < |usage| ==> usage[d].index + 2 <= n
    ensures n == before || exists d :: 0 <= d < |usage| && n == usage[d].index + 2
  {
    if usage == [] then before else Max(SlotsFor(usage[..|usage| - 1], before), usage[|usage| - 1].index + 2)
  }

  /** The sizes of the arrays the parser needs. */
  class Stats {
    var bufferMax: nat
    var optionsMax: nat

    constructor ()
      ensures bufferMax == 1 && optionsMax == 1
    {
      bufferMax, optionsMax := 1, 1;
    }

    method Add(gnu: bool, usage: seq<Descriptor>, args: array<CString>, argc: int, minAbbr: int, singleMinus: bool)
      requires Bounded(args[..], argc) && 1 <= bufferMax <= INT_MAX && optionsMax >= 1
      modifies this, args
      ensures optionsMax == SlotsFor(usage, old(optionsMax))
      ensures var setup := Setup(gnu, usage, singleMinus, false, minAbbr, INT_MAX - old(bufferMax));
              var p := Parse(setup, Tokens(old(args[..]), argc), 0);
              && bufferMax == old(bufferMax) + |p.opts|
              && args[..] == Packed(old(args[..]), p.marks)
    {
      hide Parse, Packed, Bounded, Tokens;
      ghost var was := optionsMax;
      for i := 0 to |usage|
        invariant optionsMax == SlotsFor(usage[..i], was) && bufferMax == old(bufferMax)
        invariant args[..] == old(args[..])
      {
        assert usage[..i + 1][..i] == usage[..i];
        if usage[i].index + 1 >= optionsMax {
          optionsMax := usage[i].index + 1 + 1;
        }
      }
      assert usage[..|usage|] == usage;
      var setup := Setup(gnu, usage, singleMinus, false, minAbbr, INT_MAX - bufferMax);
      var ok, opts, _, _ := ParseArguments(setup, args, argc);
      bufferMax := bufferMax + |opts|;
    }
  }

  /** The options stored, but no more than the bound if there is one. */
  function UsedBelow(stored: nat, bufmax: int): nat {
    if 0 <= bufmax < stored then bufmax else stored
  }

  /** How many options the storing action accepts: the count has to fit a signed integer. */
  function StoreLimit(stored: nat, bufmax: int): int {
    if bufmax >= 0 then -1 else if stored <= INT_MAX then INT_MAX - stored else 0
  }

  /** The options of a parse have slots for their indices, and do not overflow the counter. */
  lemma OptionsFit(setup: Setup, toks: seq<string>, stored: nat, bufmax: int, slots: nat)
    requires setup.limit == StoreLimit(stored, bufmax) && stored <= INT_MAX
    requires forall d :: 0 <= d < |setup.usage| ==> setup.usage[d].index < slots
    ensures var opts := ArgumentParsing.Parse(setup, toks, 0).opts;
            && (forall n :: 0 <= n < |opts| ==>
                  opts[n].desc < |setup.usage| && setup.usage[opts[n].desc].index < slots)
            && (bufmax < 0 ==> stored + |opts| <= INT_MAX)
  {
    ParseDescribed(setup, toks, 0);
    if bufmax < 0 {
      ParseWithin(setup, toks, 0);
    }
    hide ArgumentParsing.Parse;
    DescribedSlots(setup.usage, ArgumentParsing.Parse(setup, toks, 0).opts, slots);
  }

  lemma DescribedSlots(usage: seq<Descriptor>, opts: seq<Opt>, slots: nat)
    requires Described(usage, opts) && forall d :: 0 <= d < |usage| ==> usage[d].index < slots
    ensures forall n :: 0 <= n < |opts| ==> opts[n].desc < |usage| && usage[opts[n].desc].index < slots
  {
  }

  /** The parser and the two arrays it fills. */
  class Parser {
    const usage: seq<Descriptor>
    const options: seq<Option>
    const buffer: seq<Option>
    var opCount: nat
    var err: bool
    var nonopCount: nat
    var nonopBase: nat
    ghost var stored: seq<Opt>
    ghost var lists: seq<seq<Option>>

    ghost predicate Valid()
      reads this, options, buffer
    {
      opCount <= |stored| <= INT_MAX && Linked(usage, options, buffer, stored, lists)
    }

    constructor (usage: seq<Descriptor>, optionsMax: nat, bufferMax: nat)
      ensures Valid() && this.usage == usage && |options| == optionsMax && |buffer| == bufferMax
      ensures stored == [] && opCount == 0 && fresh(options) && fresh(buffer)
      ensures !err && nonopCount == 0
    {
      this.usage := usage;
      var os := FreshOptions(optionsMax);
      var bs := FreshOptions(bufferMax);
      options, buffer := os, bs;
      opCount, stored := 0, [];
      err, nonopCount, nonopBase := false, 0, 0;
      lists := seq(optionsMax, i requires 0 <= i < |os| => [os[i]]);
    }

    /** The first empty slot of the buffer, if it is below the bound; there a further parse goes on. */
    method FirstEmpty(bufmax: int) returns (bufidx: nat)
      requires Valid() && bufmax <= |buffer| && (bufmax < 0 ==> |stored| < |buffer|)
      ensures bufidx == UsedBelow(|stored|, bufmax)
    {
      bufidx := 0;
      while (bufmax < 0 || bufidx < bufmax) && buffer[bufidx].value.Just?
        invariant bufidx <= |stored| && (bufmax >= 0 ==> bufidx <= bufmax)
        decreases |buffer| - bufidx
      {
        bufidx := bufidx + 1;
      }
    }

    /** A further parse counts the options stored so far, but no more than its bound. */
    method Resume(bufmax: int)
      requires Valid() && bufmax <= |buffer| && (bufmax < 0 ==> |stored| < |buffer|)
      modifies `opCount
      ensures Valid() && opCount == UsedBelow(|stored|, bufmax)
    {
      opCount := FirstEmpty(bufmax);
    }

    /** How often the options of one index occur, asked of the head of their list. */
    method Occurrences(i: nat) returns (c: nat)
      requires Valid() && i < |options|
      ensures c == |Chosen(usage, stored, i)|
    {
      assert Headed(options[i], buffer[..|stored|], lists[i]) && lists[i][0] in lists[i];
      c := options[i].Count(lists[i]);
    }

    /** Storing one parsed option. An option that finds the buffer full is dropped silently. */
    method Perform(option: Opt, bufmax: int) returns (ok: bool)
      requires Valid() && option.desc < |usage| && usage[option.desc].index < |options|
      requires bufmax <= |buffer| && (bufmax < 0 ==> opCount < |buffer|) && Counts(bufmax)
      modifies `opCount, `stored, `lists, options, buffer
      ensures Valid() && Counts(bufmax)
      ensures ok <==> old(opCount) != 0x7fff_ffff || 0 <= bufmax <= old(opCount)
      ensures stored == old(stored) + if ok && (bufmax < 0 || old(opCount) < bufmax) then [option] else []
    {
      if bufmax < 0 || opCount < bufmax {
        if opCount == 0x7fff_ffff {
          return false;
        }
        lists := StoreSlot(usage, options, buffer, option, stored, lists, opCount);
        stored := stored + [option];
        opCount := opCount + 1;
      }
      return true;
    }

    /** The counter counts the options stored, but no more than the bound. */
    ghost predicate Counts(bufmax: int)
      reads this
    {
      opCount == UsedBelow(|stored|, bufmax)
    }

    /** Storing the options of a parse one after the other. */
    method PerformAll(opts: seq<Opt>, bufmax: int)
      requires Valid() && Counts(bufmax)
      requires forall n :: 0 <= n < |opts| ==>
                 opts[n].desc < |usage| && usage[opts[n].desc].index < |options|
      requires bufmax <= |buffer| && bufmax <= 0x7fff_ffff
      requires bufmax < 0 ==> opCount + |opts| <= |buffer| && opCount + |opts| <= 0x7fff_ffff
      modifies `opCount, `stored, `lists, options, buffer
      ensures Valid() && stored == old(stored) + Fitting(opts, bufmax, |old(stored)|) && Counts(bufmax)
    {
      ghost var was := stored;
      assert Fitting(opts[..0], bufmax, |was|) == [];
      hide Fitting;
      for n := 0 to |opts|
        invariant Valid() && stored == was + Fitting(opts[..n], bufmax, |was|) && Counts(bufmax)
      {
        FittingMore(opts, bufmax, |was|, n);
        var done := Perform(opts[n], bufmax);
      }
      assert opts[..|opts|] == opts;
    }

    /** Earlier non-options are kept unless there are new ones. */
    method Finished(count: int, base: nat)
      requires Valid()
      modifies `nonopCount, `nonopBase
      ensures Valid()
      ensures nonopCount == if count > 0 then count else old(nonopCount)
      ensures nonopBase == if count > 0 then base else old(nonopBase)
    {
      if count > 0 {
        nonopCount, nonopBase := count, base;
      }
    }

    method SetError(e: bool)
      requires Valid()
      modifies `err
      ensures Valid() && err == e
    {
      err := e;
    }

    /** What a parse refuses and stores after the options stored so far. */
    method Parse(gnu: bool, args: array<CString>, argc: int, minAbbr: int, singleMinus: bool, bufmax: int)
      requires Bounded(args[..], argc) && Valid() && bufmax <= INT_MAX
      requires Roomy(gnu, Tokens(args[..], argc), minAbbr, singleMinus, bufmax)
      modifies this, options, buffer, args
      ensures Valid() && Counts(bufmax)
      ensures var toks := Tokens(old(args[..]), argc);
              var p := ArgumentParsing.Parse(old(SetupFor(gnu, minAbbr, singleMinus, bufmax)), toks, 0);
              && err == !p.ok
              && args[..] == Packed(old(args[..]), p.marks)
              && stored == old(stored) + Fitting(p.opts, bufmax, |old(stored)|)
              && var count := if p.ok then Passed(p.marks) + Excess(argc, |toks|, p.left) else 0;
              && nonopCount == (if count > 0 then count else old(nonopCount))
              && nonopBase == if count > 0 then |toks| - Passed(p.marks) else old(nonopBase)
    {
      hide Linked, Bounded, Packed, ArgumentParsing.Parse, Passed, Excess, Described;
      ghost var toks := Tokens(args[..], argc);
      Resume(bufmax);
      var setup := Setup(gnu, usage, singleMinus, true, minAbbr, StoreLimit(opCount, bufmax));
      ghost var p := ArgumentParsing.Parse(setup, toks, 0);
      assert setup == SetupFor(gnu, minAbbr, singleMinus, bufmax);
      OptionsFit(setup, toks, |stored|, bufmax, |options|);
      var ok, opts, count, base := ParseArguments(setup, args, argc);
      assert Valid() && opts == p.opts;
      Conclude(ok, opts, count, base, bufmax);
    }

    /** What the action and the caller make of the result of a parse. */
    method Conclude(ok: bool, opts: seq<Opt>, count: int, base: nat, bufmax: int)
      requires Valid() && Counts(bufmax)
      requires forall n :: 0 <= n < |opts| ==>
                 opts[n].desc < |usage| && usage[opts[n].desc].index < |options|
      requires bufmax <= |buffer| && bufmax <= 0x7fff_ffff
      requires bufmax < 0 ==> opCount + |opts| <= |buffer| && opCount + |opts| <= 0x7fff_ffff
      modifies this, options, buffer
      ensures Valid() && stored == old(stored) + Fitting(opts, bufmax, |old(stored)|) && Counts(bufmax)
      ensures err == !ok
      ensures nonopCount == if ok && count > 0 then count else old(nonopCount)
      ensures nonopBase == if ok && count > 0 then base else old(nonopBase)
    {
      hide Linked;
      SetError(!ok);
      PerformAll(opts, bufmax);
      if ok {
        Finished(count, base);
      }
    }

    /** How many options the action accepts: the count has to fit a signed integer. */
    ghost function SetupFor(gnu: bool, minAbbr: int, singleMinus: bool, bufmax: int): Setup
      reads this
    {
      Setup(gnu, usage, singleMinus, true, minAbbr, StoreLimit(|stored|, bufmax))
    }

    /** The arrays are large enough for whatever the parse may store. */
    ghost predicate Roomy(gnu: bool, toks: seq<string>, minAbbr: int, singleMinus: bool, bufmax: int)
      reads this
    {
      && (forall d :: 0 <= d < |usage| ==> usage[d].index < |options|)
      && if bufmax < 0
         then |stored| < |buffer| &&
              |stored| + |ArgumentParsing.Parse(SetupFor(gnu, minAbbr, singleMinus, bufmax), toks, 0).opts| <= |buffer|
         else bufmax <= |buffer|
    }
  }

  function Min(a: nat, b: nat): nat {
    if a <= b then a else b
  }
}
