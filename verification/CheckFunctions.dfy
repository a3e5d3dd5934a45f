/** The check functions that the parser's header provides or recommends. */
module CheckFunctions {
  import opened OptionLookup
  import opened ParseAgreement
  import opened SecondParse

  function NoArgument(option: Opt, messages: bool): ArgStatus {
    ArgNone
  }

  /** Takes an attached argument only. */
  function OptionalArgument(option: Opt, messages: bool): ArgStatus {
    if option.arg.Just? && option.nameLen < |option.name| then ArgOk else ArgIgnore
  }

  function UnknownOption(option: Opt, messages: bool): ArgStatus {
    ArgIllegal
  }

  function RequiredArgument(option: Opt, messages: bool): ArgStatus {
    if option.arg.Just? then ArgOk else ArgIllegal
  }

  function NonEmptyArgument(option: Opt, messages: bool): ArgStatus {
    if option.arg.Just? && option.arg.value != "" then ArgOk else ArgIllegal
  }

  /** Takes an argument that is a number as a whole; what a number is, is a parameter. */
  function NumericArgument(number: string -> bool): (Opt, bool) -> ArgStatus {
    (option: Opt, messages: bool) => if option.arg.Just? && number(option.arg.value) then ArgOk else ArgIllegal
  }

  ghost predicate IsStock(check: (Opt, bool) -> ArgStatus) {
    || check == NoArgument || check == OptionalArgument || check == UnknownOption
    || check == RequiredArgument || check == NonEmptyArgument
    || exists number :: check == NumericArgument(number)
  }

  /** A table with these check functions has no option that a permutation disturbs, and ignores messages. */
  lemma StockIsSteady(usage: seq<Descriptor>)
    requires forall d :: 0 <= d < |usage| ==> IsStock(usage[d].check)
    ensures Steady(usage) && IgnoreMessages(usage)
  {
    forall d, o, a, b | 0 <= d < |usage| && IsSeparate(o) ensures SteadyAt(usage[d].check, o, a, b) {
      assert IsStock(usage[d].check);
    }
    forall d, o | 0 <= d < |usage| ensures usage[d].check(o, true) == usage[d].check(o, false) {
      assert IsStock(usage[d].check);
    }
  }
}
