/** The option table of the discovery server tool. */
module ProgramUsage {
  import opened Basics
  import opened OptionLookup
  import opened ArgumentParsing
  import opened ParseAgreement
  import opened SecondParse
  import opened TwoPasses
  import opened CommandLines
  import opened CheckFunctions

  const UNKNOWN := 0
  const HELP := 1
  const CONFIG_FILE := 2
  const OUTPUT_FILE := 3
  const SHM := 4

  /** The option needs an argument; no message is printed if it has none. */
  function FileArgument(option: Opt, messages: bool): ArgStatus {
    if option.arg.Just? then ArgOk else ArgIllegal
  }

  const USAGE := [
    Descriptor(UNKNOWN, 0, "", "", NoArgument),
    Descriptor(HELP, 0, "h", "help", NoArgument),
    Descriptor(CONFIG_FILE, 0, "c", "config-file", FileArgument),
    Descriptor(OUTPUT_FILE, 0, "o", "output-file", FileArgument),
    Descriptor(SHM, 0, "s", "disabled-shared-memory", NoArgument)]

  /** The table meets what counting before storing and looking up by name rely on. */
  lemma TableIsSound()
    ensures IgnoreMessages(USAGE) && PlainNames(USAGE) && Steady(USAGE)
    ensures forall d :: 0 <= d < |USAGE| ==> USAGE[d].index == d
  {
    forall i | 0 <= i < |USAGE| ensures '=' !in USAGE[i].longopt {
    }
  }

  lemma FileIsMeant(r: Request, file: string)
    requires r == ShortSeparate([], CONFIG_FILE, 'c', file) || r == ShortSeparate([], OUTPUT_FILE, 'o', file)
    ensures WellMeant(Setup(false, USAGE, false, false, 0, -1), r)
    ensures Words(USAGE, r) == [if r.d == CONFIG_FILE then "-c" else "-o", file]
    ensures Meant(USAGE, r) == [Opt(r.d, [r.c], 1, Just(file))]
  {
    assert Letters([]) == [] && "-" + [] == "-";
    assert "-" + [r.c] == if r.d == CONFIG_FILE then "-c" else "-o";
  }

  lemma NothingToParse(setup: Setup, done: nat)
    ensures Parse(setup, [], done) == Parsed([], [], true, 0)
  {
  }

  /**
   * The files named with -c and -o are found whatever they are called, even if a name looks like
   * an option, and the vector needs no permutation.
   */
  lemma FilesAreFound(config: string, output: string)
    ensures var p := AllOptions(false, USAGE, ["-c", config, "-o", output], 0, false);
            && p.ok && |p.opts| == 2
            && p.opts[0].desc == CONFIG_FILE && p.opts[0].arg == Just(config)
            && p.opts[1].desc == OUTPUT_FILE && p.opts[1].arg == Just(output)
  {
    var setup := Setup(false, USAGE, false, false, 0, -1);
    var rs := [ShortSeparate([], CONFIG_FILE, 'c', config), ShortSeparate([], OUTPUT_FILE, 'o', output)];
    TableIsSound();
    FilesAsWritten(rs[0], rs[1], config, output);
    hide WellMeant, PlainNames, IgnoreMessages, Parse, Words, AllWords, AllMeant;
    ParsedAsMeant(setup, rs, [], 0, 2);
    hide Steady;
    NothingToParse(setup, 2);
  }

  lemma FilesAsWritten(c: Request, o: Request, config: string, output: string)
    requires c == ShortSeparate([], CONFIG_FILE, 'c', config) && o == ShortSeparate([], OUTPUT_FILE, 'o', output)
    ensures WellMeant(Setup(false, USAGE, false, false, 0, -1), c)
    ensures WellMeant(Setup(false, USAGE, false, false, 0, -1), o)
    ensures AllWords(USAGE, [c, o]) + [] == ["-c", config, "-o", output]
    ensures AllMeant(USAGE, [c, o]) ==
            [Opt(CONFIG_FILE, "c", 1, Just(config)), Opt(OUTPUT_FILE, "o", 1, Just(output))]
  {
    FileIsMeant(c, config);
    FileIsMeant(o, output);
    hide WellMeant, Words;
    var rs := [c, o];
    assert rs[1..] == [o] && [o][1..] == [];
    assert AllWords(USAGE, [o]) == Words(USAGE, o) + AllWords(USAGE, []);
    assert AllMeant(USAGE, [o]) == Meant(USAGE, o) + AllMeant(USAGE, []);
  }
}
