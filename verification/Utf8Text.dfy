/** Widths of UTF-8 text on the screen, as the usage formatter computes them. */
module Utf8Text {

  newtype Byte = b: int | 0 <= b < 256

  const TAB: Byte := 9
  const NEWLINE: Byte := 10
  const VTAB: Byte := 11
  const SPACE: Byte := 32

  predicate IsContinuation(b: Byte) {
    0x80 <= b <= 0xBF
  }

  /** How many of the first bytes are continuation bytes. */
  function Continuations(s: seq<Byte>): (n: nat)
    ensures n <= |s|
  {
    if s == [] || !IsContinuation(s[0]) then 0 else 1 + Continuations(s[1..])
  }

  /** The bytes of the first character: a start byte takes all continuation bytes that follow. */
  function CharLength(s: seq<Byte>): (n: nat)
    requires s != []
    ensures 1 <= n <= |s|
  {
    if s[0] > 0xC1 then 1 + Continuations(s[1..]) else 1
  }

  /** The start byte without its leading ones; 0xFF, which has no zero bit, is taken as zero. */
  function StartBits(b: Byte): nat {
    var n := b as int;
    if n < 0xE0 then n % 64 else if n < 0xF0 then n % 32 else if n < 0xF8 then n % 16
    else if n < 0xFC then n % 8 else if n < 0xFE then n % 4 else 0
  }

  /** Shifting in the continuation bytes, in 32 bit arithmetic. */
  function CodePoint(start: nat, rest: seq<Byte>): nat {
    if rest == [] then start
    else (CodePoint(start, rest[..|rest| - 1]) * 64 + (rest[|rest| - 1] as int - 0x80) % 64) % 0x1_0000_0000
  }

  predicate IsWide(ch: nat) {
    && ch != 0x303F
    && (0x1100 <= ch <= 0x115F || 0x2329 <= ch <= 0x232A || 0x2E80 <= ch <= 0xA4C6
        || 0xA960 <= ch <= 0xA97C || 0xAC00 <= ch <= 0xD7FB || 0xF900 <= ch <= 0xFAFF
        || 0xFE10 <= ch <= 0xFE6B || 0xFF01 <= ch <= 0xFF60 || 0xFFE0 <= ch <= 0xFFE6
        || 0x1B000 <= ch)
  }

  /** The columns of one character. */
  function CharWidth(c: seq<Byte>): (w: nat)
    requires c != []
    ensures 1 <= w <= 2
  {
    if c[0] > 0xC1 && IsWide(CodePoint(StartBits(c[0]), c[1..])) then 2 else 1
  }

  /** The columns of a text. */
  function Width(s: seq<Byte>): nat {
    if s == [] then 0 else CharWidth(s[..CharLength(s)]) + Width(s[CharLength(s)..])
  }

  // ---------- Cutting between characters ----------

  /** The text may be cut before position i: no character goes on there. */
  predicate CutsBetween(s: seq<Byte>, i: nat) {
    i <= |s| && (i < |s| ==> !IsContinuation(s[i]))
  }

  lemma {:induction false} ContinuationsCut(s: seq<Byte>, i: nat)
    requires CutsBetween(s, i)
    ensures Continuations(s) <= i ==> Continuations(s[..i]) == Continuations(s)
    ensures Continuations(s) <= i
  {
    if s != [] && IsContinuation(s[0]) {
      assert i > 0;
      assert s[1..][..i - 1] == s[..i][1..];
      ContinuationsCut(s[1..], i - 1);
    }
  }

  lemma CharLengthCut(s: seq<Byte>, i: nat)
    requires CutsBetween(s, i) && 0 < i
    ensures CharLength(s) <= i && CharLength(s[..i]) == CharLength(s)
  {
    assert s[1..][..i - 1] == s[..i][1..];
    assert CutsBetween(s[1..], i - 1);
    ContinuationsCut(s[1..], i - 1);
  }

  /** The widths of the two pieces add up. */
  lemma {:induction false} WidthCut(s: seq<Byte>, i: nat)
    requires CutsBetween(s, i)
    ensures Width(s) == Width(s[..i]) + Width(s[i..])
    decreases |s|
  {
    if i == 0 {
      assert s[0..] == s;
    } else {
      var n := CharLength(s);
      CharLengthCut(s, i);
      WidthCut(s[n..], i - n);
      assert s[..i][..n] == s[..n] && s[..i][n..] == s[n..][..i - n] && s[n..][i - n..] == s[i..];
    }
  }

  // ---------- Reading a character ----------

  lemma ContinuationStep(s: seq<Byte>, n: nat)
    requires n < |s| && Continuations(s) == n + Continuations(s[n..])
    ensures IsContinuation(s[n]) ==> Continuations(s) == n + 1 + Continuations(s[n + 1..])
    ensures !IsContinuation(s[n]) ==> Continuations(s) == n
  {
    assert s[n..][1..] == s[n + 1..];
  }

  lemma CodePointStep(start: nat, s: seq<Byte>, n: nat)
    requires n < |s| && IsContinuation(s[n])
    ensures CodePoint(start, s[..n + 1]) == (CodePoint(start, s[..n]) * 64 + (s[n] as int - 0x80)) % 0x1_0000_0000
  {
    assert s[..n + 1][..n] == s[..n];
  }

  /** The bytes and columns of the character that a text begins with. */
  method ReadChar(s: seq<Byte>) returns (bytes: nat, columns: nat)
    requires s != []
    ensures bytes == CharLength(s) && columns == CharWidth(s[..bytes])
  {
    if s[0] <= 0xC1 {
      return 1, 1;
    }
    var rest, ch, n := s[1..], StartBits(s[0]), 0;
    assert rest[0..] == rest;
    while n < |rest| && IsContinuation(rest[n])
      invariant n <= |rest| && Continuations(rest) == n + Continuations(rest[n..])
      invariant ch == CodePoint(StartBits(s[0]), rest[..n])
    {
      ContinuationStep(rest, n);
      CodePointStep(StartBits(s[0]), rest, n);
      ch, n := (ch * 64 + (rest[n] as int - 0x80)) % 0x1_0000_0000, n + 1;
    }
    if n < |rest| {
      ContinuationStep(rest, n);
    }
    assert s[..n + 1][1..] == rest[..n];
    return n + 1, if IsWide(ch) then 2 else 1;
  }
}
