/** How the line wrapper cuts a text into chunks that fit the width. */
module Chopping {
  import opened Utf8Text

  /** The bytes of as many characters as fit into the room. */
  function Fit(s: seq<Byte>, room: nat): (n: nat)
    ensures n <= |s|
    decreases |s|
  {
    if s == [] || room == 0 then 0
    else
      var k := CharLength(s);
      if CharWidth(s[..k]) > room then 0 else k + Fit(s[k..], room - CharWidth(s[..k]))
  }

  /** The last space at position i or before; -1 if there is none. */
  function LastSpace(s: seq<Byte>, i: int): (k: int)
    requires -1 <= i < |s|
    ensures -1 <= k <= i && (k >= 0 ==> s[k] == SPACE)
    decreases i + 1
  {
    if i < 0 then -1 else if s[i] == SPACE then i else LastSpace(s, i - 1)
  }

  /** The first chunk of a text and what is left of the text behind it. */
  function Cut(s: seq<Byte>, width: nat): (r: (seq<Byte>, seq<Byte>))
    requires s != [] && width >= 2
    ensures |r.1| < |s|
  {
    var n := Fit(s, width);
    FitsSome(s, width);
    if n == |s| then (s, [])
    else
      var i := LastSpace(s, n);
      if i >= 0 then (s[..i], s[i + 1..]) else (s[..n], s[n..])
  }

  /** All chunks of a text. */
  function Chop(s: seq<Byte>, width: nat): (chunks: seq<seq<Byte>>)
    requires width >= 2
    decreases |s|
  {
    if s == [] then [] else [Cut(s, width).0] + Chop(Cut(s, width).1, width)
  }

  lemma FitsSome(s: seq<Byte>, width: nat)
    requires s != [] && width >= 2
    ensures Fit(s, width) >= 1
  {
  }

  // ---------- A text that is not longer than the width fits ----------

  lemma {:induction false} SmallCodePoint(start: nat, rest: seq<Byte>)
    requires start < 64 && |rest| <= 1
    ensures CodePoint(start, rest) < 0x1100
  {
    if |rest| == 1 {
      assert rest[..0] == [];
      assert CodePoint(start, rest[..0]) == start;
    }
  }

  /** A wide character has at least three bytes. */
  lemma CharNotWider(c: seq<Byte>)
    requires c != []
    ensures CharWidth(c) <= |c|
  {
    if |c| == 1 {
      SmallCodePoint(StartBits(c[0]), c[1..]);
    }
  }

  lemma {:induction false} NotWider(s: seq<Byte>)
    ensures Width(s) <= |s|
    decreases |s|
  {
    if s != [] {
      CharNotWider(s[..CharLength(s)]);
      NotWider(s[CharLength(s)..]);
    }
  }

  /** The whole text fits exactly if it is not wider than the room. */
  lemma {:induction false} FitsWhole(s: seq<Byte>, room: nat)
    ensures Fit(s, room) == |s| <==> Width(s) <= room
    decreases |s|
  {
    if s != [] && room > 0 && CharWidth(s[..CharLength(s)]) <= room {
      FitsWhole(s[CharLength(s)..], room - CharWidth(s[..CharLength(s)]));
    }
  }

  // ---------- What fits is not wider than the room ----------

  /** The first character of a longer piece counts on its own. */
  lemma WidthOfFirst(s: seq<Byte>, n: nat)
    requires s != [] && CharLength(s) <= n <= |s|
    ensures Width(s[..n]) == CharWidth(s[..CharLength(s)]) + Width(s[CharLength(s)..][..n - CharLength(s)])
  {
    hide CharLength, CharWidth;
    var k := CharLength(s);
    FirstChar(s, n);
    assert s[..n][..k] == s[..k] && s[..n][k..] == s[k..][..n - k];
  }

  lemma {:induction false} FitWidth(s: seq<Byte>, room: nat)
    ensures Width(s[..Fit(s, room)]) <= room
    decreases |s|
  {
    hide CharLength, CharWidth, Width;
    if Fit(s, room) > 0 {
      var k := CharLength(s);
      FitWidth(s[k..], room - CharWidth(s[..k]));
      WidthOfFirst(s, Fit(s, room));
    } else {
      assert s[..0] == [];
      EmptyWidth();
    }
  }

  lemma EmptyWidth()
    ensures Width([]) == 0
  {
  }

  /** Cutting a text behind its first character or later leaves that character as it is. */
  lemma FirstChar(s: seq<Byte>, n: nat)
    requires s != [] && CharLength(s) <= n <= |s|
    ensures CharLength(s[..n]) == CharLength(s)
  {
    if s[0] > 0xC1 {
      assert s[..n][1..] == s[1..][..n - 1];
      ContinuationsOfPrefix(s[1..], n - 1);
    }
  }

  lemma {:induction false} ContinuationsOfPrefix(s: seq<Byte>, n: nat)
    requires Continuations(s) <= n <= |s|
    ensures Continuations(s[..n]) == Continuations(s)
  {
    if s != [] && IsContinuation(s[0]) {
      assert s[..n][1..] == s[1..][..n - 1];
      ContinuationsOfPrefix(s[1..], n - 1);
    }
  }

  /** No chunk is wider than the width. */
  lemma {:induction false} ChunksFit(s: seq<Byte>, width: nat)
    requires width >= 2
    ensures forall k :: 0 <= k < |Chop(s, width)| ==> Width(Chop(s, width)[k]) <= width
    decreases |s|
  {
    if s != [] {
      CutFits(s, width);
      ChunksFit(Cut(s, width).1, width);
    }
  }

  lemma CutFits(s: seq<Byte>, width: nat)
    requires s != [] && width >= 2
    ensures Width(Cut(s, width).0) <= width
  {
    hide Width, Fit, WellFormed;
    var n := Fit(s, width);
    FitWidth(s, width);
    assert s[..|s|] == s;
    if n < |s| {
      var i := LastSpace(s, n);
      if 0 <= i < n {
        WidthCut(s[..n], i);
        assert s[..n][..i] == s[..i];
      }
    }
  }

  /** A text that fits is one chunk, and only such a text. */
  lemma FittingIsOneChunk(s: seq<Byte>, width: nat)
    requires width >= 2 && s != []
    ensures Chop(s, width) == [s] <==> Width(s) <= width
  {
    FitsWhole(s, width);
    CutFits(s, width);
    assert Chop(s, width)[0] == Cut(s, width).0;
    if Width(s) <= width {
      assert Chop(Cut(s, width).1, width) == [];
    }
  }

  lemma {:induction false} NoLaterSpace(s: seq<Byte>, i: int)
    requires -1 <= i < |s|
    ensures forall k :: LastSpace(s, i) < k <= i ==> s[k] != SPACE
    decreases i + 1
  {
    if i >= 0 && s[i] != SPACE {
      NoLaterSpace(s, i - 1);
    }
  }

  /** The columns of the first character of a text. */
  function FirstWidth(s: seq<Byte>): nat
    requires s != []
  {
    CharWidth(s[..CharLength(s)])
  }

  /** One more character would not fit. */
  lemma {:induction false} FitIsMaximal(s: seq<Byte>, room: nat)
    requires Fit(s, room) < |s|
    ensures Width(s[..Fit(s, room)]) + FirstWidth(s[Fit(s, room)..]) > room
    decreases |s|
  {
    hide CharLength, CharWidth, Width;
    var n := Fit(s, room);
    if n > 0 {
      var k := CharLength(s);
      WidthOfFirst(s, n);
      FitIsMaximal(s[k..], room - CharWidth(s[..k]));
      assert s[k..][n - k..] == s[n..];
    } else {
      assert s[0..] == s && s[..0] == [];
      EmptyWidth();
    }
  }

  /** A text too wide is cut at the last space that leaves a chunk that fits, else where no more fits. */
  lemma CutAtLastSpace(s: seq<Byte>, width: nat)
    requires width >= 2 && Width(s) > width
    ensures var n := Fit(s, width); var (chunk, rest) := Cut(s, width);
            && n < |s|
            && forall k :: 0 <= k <= n && s[k] == SPACE && (forall j :: k < j <= n ==> s[j] != SPACE) ==>
                 chunk == s[..k] && rest == s[k + 1..]
    ensures var n := Fit(s, width);
            (forall k :: 0 <= k <= n && k < |s| ==> s[k] != SPACE) ==> Cut(s, width) == (s[..n], s[n..])
  {
    FitsWhole(s, width);
    NoLaterSpace(s, Fit(s, width));
  }

  /** A chunk is empty exactly if the only space at which a text too wide can be cut is its first byte. */
  lemma EmptyChunk(s: seq<Byte>, width: nat)
    requires width >= 2 && s != []
    ensures Cut(s, width).0 == [] <==>
            Width(s) > width && s[0] == SPACE && forall k :: 1 <= k <= Fit(s, width) && k < |s| ==> s[k] != SPACE
  {
    FitsWhole(s, width);
    FitsSome(s, width);
    if Fit(s, width) < |s| {
      NoLaterSpace(s, Fit(s, width));
    }
  }

  // ---------- Nothing is lost ----------

  /** The chunks in order make up the text, but for at most one space behind each. */
  predicate Rejoins(s: seq<Byte>, chunks: seq<seq<Byte>>) {
    if chunks == [] then s == []
    else
      && chunks[0] <= s
      && var rest := s[|chunks[0]|..];
         Rejoins(rest, chunks[1..]) || (rest != [] && rest[0] == SPACE && Rejoins(rest[1..], chunks[1..]))
  }

  lemma {:induction false} ChopRejoins(s: seq<Byte>, width: nat)
    requires width >= 2
    ensures Rejoins(s, Chop(s, width))
    decreases |s|
  {
    if s != [] {
      var n, r := Fit(s, width), Cut(s, width);
      ChopRejoins(r.1, width);
      var rest := s[|r.0|..];
      assert Chop(s, width)[1..] == Chop(r.1, width) && Chop(s, width)[0] == r.0;
      assert n == |s| ==> rest == [];
      assert rest == r.1 || (rest != [] && rest[0] == SPACE && rest[1..] == r.1);
    }
  }

  // ---------- No character is split ----------

  /** How many bytes a character has by its first byte, as section 4 of RFC 3629 lists them. */
  function LeadLength(b: Byte): nat {
    if b <= 0x7F then 1 else if 0xC2 <= b <= 0xDF then 2 else if 0xE0 <= b <= 0xEF then 3
    else if 0xF0 <= b <= 0xF4 then 4 else 0
  }

  predicate IsChar(c: seq<Byte>) {
    && c != [] && |c| == LeadLength(c[0])
    && (forall k :: 1 <= k < |c| ==> IsContinuation(c[k]))
    && (c[0] == 0xE0 ==> c[1] >= 0xA0) && (c[0] == 0xED ==> c[1] <= 0x9F)
    && (c[0] == 0xF0 ==> c[1] >= 0x90) && (c[0] == 0xF4 ==> c[1] <= 0x8F)
  }

  /** A text that consists of whole characters. */
  predicate WellFormed(s: seq<Byte>)
    decreases |s|
  {
    s == [] || (0 < LeadLength(s[0]) <= |s| && IsChar(s[..LeadLength(s[0])]) && WellFormed(s[LeadLength(s[0])..]))
  }

  lemma {:induction false} ContinuationRun(s: seq<Byte>, n: nat)
    requires n <= |s| && forall k :: 0 <= k < n ==> IsContinuation(s[k])
    requires n == |s| || !IsContinuation(s[n])
    ensures Continuations(s) == n
  {
    if n > 0 {
      ContinuationRun(s[1..], n - 1);
    }
  }

  /** In a well-formed text the bytes taken for the first character are exactly that character. */
  lemma TakesOneChar(s: seq<Byte>)
    requires WellFormed(s) && s != []
    ensures CharLength(s) == LeadLength(s[0]) && !IsContinuation(s[0])
  {
    var n := LeadLength(s[0]);
    var c := s[..n];
    if n > 1 {
      forall k | 0 <= k < n - 1 ensures IsContinuation(s[1..][k]) {
        assert c[k + 1] == s[k + 1];
      }
      ContinuationRun(s[1..], n - 1);
    }
  }

  /** Cut where no continuation byte follows, both pieces are well-formed. */
  lemma {:induction false} WellFormedCut(s: seq<Byte>, i: nat)
    requires WellFormed(s) && CutsBetween(s, i)
    ensures WellFormed(s[..i]) && WellFormed(s[i..])
    decreases |s|
  {
    hide CharLength, LeadLength;
    if i == 0 {
      assert s[0..] == s && s[..0] == [];
    } else {
      var n := LeadLength(s[0]);
      TakesOneChar(s);
      CharLengthCut(s, i);
      WellFormedCut(s[n..], i - n);
      assert s[n..][i - n..] == s[i..];
      assert s[..i][n..] == s[n..][..i - n] && s[..i][..n] == s[..n];
    }
  }

  lemma {:induction false} FitCuts(s: seq<Byte>, room: nat)
    requires WellFormed(s)
    ensures CutsBetween(s, Fit(s, room))
    decreases |s|
  {
    if s != [] {
      TakesOneChar(s);
      if Fit(s, room) > 0 {
        FitCuts(s[CharLength(s)..], room - CharWidth(s[..CharLength(s)]));
      }
    }
  }

  lemma BehindSpace(s: seq<Byte>, i: nat)
    requires WellFormed(s) && i < |s| && s[i] == SPACE
    ensures WellFormed(s[..i]) && WellFormed(s[i + 1..])
  {
    WellFormedCut(s, i);
    assert s[i..][1..] == s[i + 1..] && s[i..][0] == SPACE;
  }

  lemma CutKeepsCharacters(s: seq<Byte>, width: nat)
    requires width >= 2 && s != [] && WellFormed(s)
    ensures WellFormed(Cut(s, width).0) && WellFormed(Cut(s, width).1)
  {
    var n := Fit(s, width);
    if n < |s| {
      var i := LastSpace(s, n);
      if i >= 0 {
        BehindSpace(s, i);
      } else {
        FitCuts(s, width);
        WellFormedCut(s, n);
      }
    }
  }

  /** No chunk of a well-formed text begins or ends inside a character. */
  lemma {:induction false} ChopKeepsCharacters(s: seq<Byte>, width: nat)
    requires width >= 2 && WellFormed(s)
    ensures forall k :: 0 <= k < |Chop(s, width)| ==> WellFormed(Chop(s, width)[k])
    decreases |s|
  {
    if s != [] {
      CutKeepsCharacters(s, width);
      ChopKeepsCharacters(Cut(s, width).1, width);
    }
  }
}
