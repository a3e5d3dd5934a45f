/** Descriptors of command line options, and how the text typed by the user finds them. */
module OptionLookup {

  import opened Basics

  datatype ArgStatus = ArgNone | ArgOk | ArgIgnore | ArgIllegal

  /** A parsed option: its descriptor's position, its name as typed (with what follows), its argument. */
  datatype Opt = Opt(desc: nat, name: string, nameLen: nat, arg: Maybe<string>)

  /**
   * The usage array ends where the source has a descriptor of null strings, so a position equal to
   * its length stands for that terminator. The check function sees the option and the message flag.
   */
  datatype Descriptor = Descriptor(
    index: nat, kind: int, shortopt: string, longopt: string, check: (Opt, bool) -> ArgStatus)

  // ---------- Comparing names ----------

  /** st1 is a prefix of st2, which ends there or goes on with '='. */
  predicate EqualsUpToAssign(st1: string, st2: string) {
    st1 <= st2 && (|st2| == |st1| || st2[|st1|] == '=')
  }

  method Streq(st1: string, st2: string) returns (same: bool)
    ensures same <==> EqualsUpToAssign(st1, st2)
  {
    var i := 0;
    while i != |st1|
      invariant i <= |st1| && i <= |st2| && st1[..i] == st2[..i]
    {
      if i == |st2| || st1[i] != st2[i] {
        return false;
      }
      i := i + 1;
    }
    assert st1[..i] == st1;
    return i == |st2| || st2[i] == '=';
  }

  /** The length of the longest common prefix. */
  function CommonPrefix(s: string, t: string): (k: nat)
    ensures k <= |s| && k <= |t| && s[..k] == t[..k]
    ensures k < |s| && k < |t| ==> s[k] != t[k]
  {
    if s == [] || t == [] || s[0] != t[0] then 0 else 1 + CommonPrefix(s[1..], t[1..])
  }

  predicate Abbreviates(st1: string, st2: string, min: int) {
    var k := CommonPrefix(st1, st2);
    (k == |st1| || (min > 0 && k >= min)) && (k == |st2| || st2[k] == '=')
  }

  lemma {:induction false} CommonPrefixIs(s: string, t: string, k: nat)
    requires k <= |s| && k <= |t| && s[..k] == t[..k]
    requires k < |s| && k < |t| ==> s[k] != t[k]
    ensures CommonPrefix(s, t) == k
  {
    if k > 0 {
      assert s[0] == s[..k][0] && t[0] == t[..k][0];
      assert s[1..][..k - 1] == s[..k][1..] && t[1..][..k - 1] == t[..k][1..];
      CommonPrefixIs(s[1..], t[1..], k - 1);
    }
  }

  method StreqAbbr(st1: string, st2: string, min: int) returns (same: bool)
    ensures same <==> Abbreviates(st1, st2, min)
  {
    var k := 0;
    while k != |st1| && k != |st2| && st1[k] == st2[k]
      invariant k <= |st1| && k <= |st2| && st1[..k] == st2[..k]
    {
      k := k + 1;
    }
    CommonPrefixIs(st1, st2, k);
    return (k == |st1| || (min > 0 && k >= min)) && (k == |st2| || st2[k] == '=');
  }

  // ---------- Finding descriptors ----------

  /** The first exact match from position i on, or the terminator. */
  function FirstExact(usage: seq<Descriptor>, text: string, i: nat): (k: nat)
    requires i <= |usage|
    ensures i <= k <= |usage|
    decreases |usage| - i
  {
    if i == |usage| || EqualsUpToAssign(usage[i].longopt, text) then i else FirstExact(usage, text, i + 1)
  }

  /** The first abbreviated match from position i on, or the terminator. */
  function FirstAbbr(usage: seq<Descriptor>, text: string, min: int, i: nat): (k: nat)
    requires i <= |usage|
    ensures i <= k <= |usage|
    decreases |usage| - i
  {
    if i == |usage| || Abbreviates(usage[i].longopt, text, min) then i else FirstAbbr(usage, text, min, i + 1)
  }

  lemma {:induction false} FirstExactMeans(usage: seq<Descriptor>, text: string, i: nat)
    requires i <= |usage|
    ensures var k := FirstExact(usage, text, i);
            && (forall j :: i <= j < k ==> !EqualsUpToAssign(usage[j].longopt, text))
            && (k < |usage| ==> EqualsUpToAssign(usage[k].longopt, text))
    decreases |usage| - i
  {
    if i < |usage| {
      FirstExactMeans(usage, text, i + 1);
    }
  }

  lemma {:induction false} FirstAbbrMeans(usage: seq<Descriptor>, text: string, min: int, i: nat)
    requires i <= |usage|
    ensures var k := FirstAbbr(usage, text, min, i);
            && (forall j :: i <= j < k ==> !Abbreviates(usage[j].longopt, text, min))
            && (k < |usage| ==> Abbreviates(usage[k].longopt, text, min))
    decreases |usage| - i
  {
    if i < |usage| {
      FirstAbbrMeans(usage, text, min, i + 1);
    }
  }

  /** The descriptor of a long option: the first exact match, else an unambiguous abbreviation. */
  function LongIndex(usage: seq<Descriptor>, text: string, min: int): (k: nat)
    ensures k <= |usage|
  {
    var e := FirstExact(usage, text, 0);
    if e < |usage| || min <= 0 then e
    else
      var i1 := FirstAbbr(usage, text, min, 0);
      if i1 < |usage| && FirstAbbr(usage, text, min, i1 + 1) == |usage| then i1 else e
  }

  method FindLong(usage: seq<Descriptor>, text: string, min: int) returns (idx: nat)
    ensures idx == LongIndex(usage, text, min)
  {
    idx := 0;
    while idx != |usage|
      invariant idx <= |usage| && FirstExact(usage, text, idx) == FirstExact(usage, text, 0)
    {
      var same := Streq(usage[idx].longopt, text);
      if same {
        break;
      }
      idx := idx + 1;
    }
    if idx == |usage| && min > 0 {
      var i1 := NextAbbr(usage, text, min, 0);
      if i1 != |usage| {
        var i2 := NextAbbr(usage, text, min, i1 + 1);
        if i2 == |usage| {
          idx := i1;
        }
      }
    }
  }

  method NextAbbr(usage: seq<Descriptor>, text: string, min: int, i: nat) returns (k: nat)
    requires i <= |usage|
    ensures k == FirstAbbr(usage, text, min, i)
  {
    k := i;
    while k != |usage|
      invariant i <= k <= |usage| && FirstAbbr(usage, text, min, k) == FirstAbbr(usage, text, min, i)
    {
      var same := StreqAbbr(usage[k].longopt, text, min);
      if same {
        break;
      }
      k := k + 1;
    }
  }

  // ---------- What the lookup means ----------

  /** The typed option name: everything before the first '='. */
  function Typed(text: string): string {
    if text == "" || text[0] == '=' then "" else [text[0]] + Typed(text[1..])
  }

  lemma {:induction false} TypedIs(text: string, k: nat)
    requires k <= |text| && '=' !in text[..k] && (k == |text| || text[k] == '=')
    ensures Typed(text) == text[..k]
  {
    if k > 0 {
      assert text[0] == text[..k][0];
      assert text[1..][..k - 1] == text[..k][1..];
      TypedIs(text[1..], k - 1);
    }
  }

  lemma {:induction false} TypedCut(text: string)
    ensures Typed(text) <= text && '=' !in Typed(text)
    ensures |Typed(text)| == |text| || text[|Typed(text)|] == '='
  {
    if text != "" && text[0] != '=' {
      TypedCut(text[1..]);
    }
  }

  lemma ExactMeans(name: string, text: string)
    requires '=' !in name
    ensures EqualsUpToAssign(name, text) <==> name == Typed(text)
  {
    TypedCut(text);
    if EqualsUpToAssign(name, text) {
      assert text[..|name|] == name;
      TypedIs(text, |name|);
    }
  }

  lemma AbbreviationMeans(name: string, text: string, min: int)
    requires '=' !in name
    ensures Abbreviates(name, text, min) <==>
            Typed(text) <= name && (Typed(text) == name || (min > 0 && |Typed(text)| >= min))
  {
    var k := CommonPrefix(name, text);
    var t := Typed(text);
    TypedCut(text);
    if k == |text| || text[k] == '=' {
      assert forall c :: c in text[..k] ==> c in name[..k];
      TypedIs(text, k);
    }
  }

  /** Option names cannot contain the character that separates them from their argument. */
  predicate PlainNames(usage: seq<Descriptor>) {
    forall i :: 0 <= i < |usage| ==> '=' !in usage[i].longopt
  }

  /** The typed name is long enough to stand for the name of descriptor i. */
  predicate Abbreviated(usage: seq<Descriptor>, t: string, min: int, i: nat)
    requires i < |usage|
  {
    min > 0 && |t| >= min && t <= usage[i].longopt
  }

  predicate UniquelyAbbreviated(usage: seq<Descriptor>, t: string, min: int, i: nat)
    requires i < |usage|
  {
    Abbreviated(usage, t, min, i) && forall j :: 0 <= j < |usage| && Abbreviated(usage, t, min, j) ==> j == i
  }

  /**
   * The lookup finds the first descriptor with the typed name; if there is none, the only one the
   * typed name abbreviates; otherwise nothing.
   */
  lemma LongIndexMeans(usage: seq<Descriptor>, text: string, min: int)
    requires PlainNames(usage)
    ensures var t, k := Typed(text), LongIndex(usage, text, min);
            if exists i :: 0 <= i < |usage| && usage[i].longopt == t
            then k < |usage| && usage[k].longopt == t && forall j :: 0 <= j < k ==> usage[j].longopt != t
            else if k < |usage| then UniquelyAbbreviated(usage, t, min, k)
            else forall i :: 0 <= i < |usage| ==> !UniquelyAbbreviated(usage, t, min, i)
  {
    var t := Typed(text);
    forall i | 0 <= i < |usage|
      ensures EqualsUpToAssign(usage[i].longopt, text) <==> usage[i].longopt == t
    {
      ExactMeans(usage[i].longopt, text);
    }
    forall i | 0 <= i < |usage|
      ensures Abbreviates(usage[i].longopt, text, min) <==>
              usage[i].longopt == t || Abbreviated(usage, t, min, i)
    {
      AbbreviationMeans(usage[i].longopt, text, min);
    }
    FirstExactMeans(usage, text, 0);
    FirstAbbrMeans(usage, text, min, 0);
    if FirstAbbr(usage, text, min, 0) < |usage| {
      FirstAbbrMeans(usage, text, min, FirstAbbr(usage, text, min, 0) + 1);
    }
  }
}
