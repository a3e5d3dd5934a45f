/** The line wrapper: a ring buffer of chunks between the text that comes in and the lines that go out. */
module LineWrap {
  import opened Utf8Text
  import opened Chopping

  const SLOTS := 16

  // ---------- The text of the lines ----------

  function Spaces(n: nat): seq<Byte> {
    if n == 0 then [] else Spaces(n - 1) + [SPACE]
  }

  /** What indenting from column 0 writes. */
  function Indentation(x: int): seq<Byte> {
    if x < 0 then [NEWLINE] else Spaces(x)
  }

  /** Lines one below the other, all but the first indented. */
  function Stacked(lines: seq<seq<Byte>>, x: int): seq<Byte> {
    if lines == [] then []
    else if |lines| == 1 then lines[0]
    else Stacked(lines[..|lines| - 1], x) + ([NEWLINE] + Indentation(x)) + lines[|lines| - 1]
  }

  // ---------- What the wrapper must do ----------

  /** How many lines a call writes that has all these chunks: what the buffer cannot keep, at least one. */
  function LinesDue(all: nat): nat {
    if all > 15 then all - 15 else if all > 0 then 1 else 0
  }

  /** The chunks in the order in which they came, of the queue first, then of the new text. */
  function Pending(queue: seq<seq<Byte>>, data: seq<Byte>, width: nat): seq<seq<Byte>>
    requires width >= 2
  {
    queue + Chop(data, width)
  }

  /** The lines that a run of process() calls writes from a queue on, and a flush at its end. */
  function RunLines(queue: seq<seq<Byte>>, inputs: seq<seq<Byte>>, width: nat): seq<seq<Byte>>
    requires width >= 2
    decreases |inputs|
  {
    if inputs == [] then queue
    else
      var all := Pending(queue, inputs[0], width);
      all[..LinesDue(|all|)] + RunLines(all[LinesDue(|all|)..], inputs[1..], width)
  }

  /** The lines of each call of such a run. */
  function RunCalls(queue: seq<seq<Byte>>, inputs: seq<seq<Byte>>, width: nat): (calls: seq<seq<seq<Byte>>>)
    requires width >= 2
    ensures |calls| == |inputs|
    decreases |inputs|
  {
    if inputs == [] then []
    else
      var all := Pending(queue, inputs[0], width);
      [all[..LinesDue(|all|)]] + RunCalls(all[LinesDue(|all|)..], inputs[1..], width)
  }

  /** The lines left for the flush. */
  function RunRest(queue: seq<seq<Byte>>, inputs: seq<seq<Byte>>, width: nat): seq<seq<Byte>>
    requires width >= 2
    decreases |inputs|
  {
    if inputs == [] then queue
    else
      var all := Pending(queue, inputs[0], width);
      RunRest(all[LinesDue(|all|)..], inputs[1..], width)
  }

  function Flat(calls: seq<seq<seq<Byte>>>): seq<seq<Byte>> {
    if calls == [] then [] else calls[0] + Flat(calls[1..])
  }

  lemma {:induction false} RunIsLines(queue: seq<seq<Byte>>, inputs: seq<seq<Byte>>, width: nat)
    requires width >= 2
    ensures Flat(RunCalls(queue, inputs, width)) + RunRest(queue, inputs, width) == RunLines(queue, inputs, width)
    decreases |inputs|
  {
    if inputs != [] {
      hide Chop, LinesDue;
      var all := Pending(queue, inputs[0], width);
      var first, left := all[..LinesDue(|all|)], all[LinesDue(|all|)..];
      RunIsLines(left, inputs[1..], width);
      FlatBehind(first, RunCalls(left, inputs[1..], width), RunRest(left, inputs[1..], width));
    }
  }

  lemma FlatBehind(first: seq<seq<Byte>>, calls: seq<seq<seq<Byte>>>, last: seq<seq<Byte>>)
    ensures Flat([first] + calls) + last == first + (Flat(calls) + last)
  {
    assert ([first] + calls)[1..] == calls;
  }

  /** What is written before each call, and the lines of the call. */
  function CallsText(befores: seq<seq<Byte>>, calls: seq<seq<seq<Byte>>>, x: int): seq<Byte>
    requires |befores| == |calls|
  {
    if calls == [] then []
    else
      var n := |calls| - 1;
      CallsText(befores[..n], calls[..n], x) + befores[n] + Stacked(calls[n], x)
  }

  function FlushText(lines: seq<seq<Byte>>, x: int): seq<Byte> {
    if lines == [] then [] else Indentation(x) + Stacked(lines, x) + [NEWLINE]
  }

  function AllChunks(inputs: seq<seq<Byte>>, width: nat): seq<seq<Byte>>
    requires width >= 2
  {
    if inputs == [] then [] else Chop(inputs[0], width) + AllChunks(inputs[1..], width)
  }

  /** Over any run ended by a flush the lines are the chunks of the inputs, in order, each once. */
  lemma {:induction false} NothingIsLost(queue: seq<seq<Byte>>, inputs: seq<seq<Byte>>, width: nat)
    requires width >= 2
    ensures RunLines(queue, inputs, width) == queue + AllChunks(inputs, width)
    decreases |inputs|
  {
    if inputs != [] {
      hide Chop, LinesDue;
      var all := Pending(queue, inputs[0], width);
      NothingIsLost(all[LinesDue(|all|)..], inputs[1..], width);
      Rejoined(all, LinesDue(|all|), AllChunks(inputs[1..], width));
    }
  }

  lemma Rejoined<T>(s: seq<T>, k: nat, t: seq<T>)
    requires k <= |s|
    ensures s[..k] + (s[k..] + t) == s + t
  {
  }

  lemma {:induction false} ChunksAreSound(inputs: seq<seq<Byte>>, width: nat, k: nat)
    requires width >= 2 && k < |AllChunks(inputs, width)|
    ensures Width(AllChunks(inputs, width)[k]) <= width
    ensures (forall i :: 0 <= i < |inputs| ==> WellFormed(inputs[i])) ==> WellFormed(AllChunks(inputs, width)[k])
    decreases |inputs|
  {
    hide Width, WellFormed, Chop;
    var n := |Chop(inputs[0], width)|;
    if k < n {
      ChunksFit(inputs[0], width);
      if WellFormed(inputs[0]) {
        ChopKeepsCharacters(inputs[0], width);
      }
    } else {
      ChunksAreSound(inputs[1..], width, k - n);
    }
  }

  /** None of the lines of a run is too wide, and none splits a character of a well-formed input. */
  lemma LinesAreSound(inputs: seq<seq<Byte>>, width: nat)
    requires width >= 2
    ensures forall k :: 0 <= k < |RunLines([], inputs, width)| ==> Width(RunLines([], inputs, width)[k]) <= width
    ensures (forall i :: 0 <= i < |inputs| ==> WellFormed(inputs[i])) ==>
              forall k :: 0 <= k < |RunLines([], inputs, width)| ==> WellFormed(RunLines([], inputs, width)[k])
  {
    NothingIsLost([], inputs, width);
    var lines := RunLines([], inputs, width);
    assert [] + AllChunks(inputs, width) == AllChunks(inputs, width);
    hide RunLines, AllChunks, Width, WellFormed;
    forall k | 0 <= k < |lines|
      ensures Width(lines[k]) <= width
      ensures (forall i :: 0 <= i < |inputs| ==> WellFormed(inputs[i])) ==> WellFormed(lines[k])
    {
      ChunksAreSound(inputs, width, k);
    }
  }

  // ---------- Writing ----------

  class Writer {
    var text: seq<Byte>

    constructor ()
      ensures text == []
    {
      text := [];
    }

    method Write(data: seq<Byte>, len: nat)
      requires len <= |data|
      modifies this
      ensures text == old(text) + data[..len]
    {
      text := text + data[..len];
    }
  }

  /** Indents from column 0, which is where the wrapper always begins. */
  method Indent(write: Writer, want: int)
    modifies write
    ensures write.text == old(write.text) + Indentation(want)
  {
    if want < 0 {
      write.Write([NEWLINE], 1);
      assert [NEWLINE][..1] == Indentation(want);
    } else {
      ghost var start := write.text;
      assert start + [] == start;
      for i := 0 to want
        invariant write.text == start + Spaces(i)
      {
        write.Write([SPACE], 1);
        assert [SPACE][..1] == [SPACE];
      }
    }
  }

  /** The slot of the k-th chunk in the queue. */
  function Slot(tail: nat, k: nat): (slot: nat)
    ensures slot < 16
  {
    (tail + 1 + k) % 16
  }

  /** The ring holds the chunks of the queue, the oldest in the slot behind tail, the newest before head. */
  predicate Holds(lens: seq<nat>, texts: seq<seq<Byte>>, tail: nat, head: nat, queue: seq<seq<Byte>>) {
    && |lens| == |texts| == 16 && tail < 16 && head < 16 && |queue| <= 15 && head == Slot(tail, |queue|)
    && forall k :: 0 <= k < |queue| ==>
         lens[Slot(tail, k)] <= |texts[Slot(tail, k)]| && texts[Slot(tail, k)][..lens[Slot(tail, k)]] == queue[k]
  }

  lemma SlotsDiffer(tail: nat, k: nat, n: nat)
    requires k < n <= 15
    ensures Slot(tail, k) != Slot(tail, n)
  {
  }

  lemma SlotShifts(tail: nat, k: nat)
    requires tail < 16
    ensures Slot(tail, 0) == (tail + 1) % 16
    ensures Slot((tail + 1) % 16, k) == Slot(tail, k + 1)
  {
  }

  lemma HoldsStored(lens: seq<nat>, texts: seq<seq<Byte>>, tail: nat, head: nat, queue: seq<seq<Byte>>,
                    text: seq<Byte>, len: nat)
    requires Holds(lens, texts, tail, head, queue) && |queue| < 15 && len <= |text|
    ensures Holds(lens[head := len], texts[head := text], tail, (head + 1) % 16, queue + [text[..len]])
  {
    hide Slot;
    forall k | 0 <= k < |queue| ensures Slot(tail, k) != head {
      SlotsDiffer(tail, k, |queue|);
    }
    NextSlot(tail, |queue|);
  }

  lemma NextSlot(tail: nat, n: nat)
    ensures (Slot(tail, n) + 1) % 16 == Slot(tail, n + 1)
  {
    var turns := (tail + 1 + n) / 16;
    assert tail + 1 + n == 16 * turns + Slot(tail, n);
    if Slot(tail, n) == 15 {
      assert tail + 1 + (n + 1) == 16 * (turns + 1);
    }
  }

  lemma HoldsTaken(lens: seq<nat>, texts: seq<seq<Byte>>, tail: nat, head: nat, queue: seq<seq<Byte>>)
    requires Holds(lens, texts, tail, head, queue) && queue != []
    ensures Holds(lens, texts, (tail + 1) % 16, head, queue[1..])
    ensures var first := (tail + 1) % 16; lens[first] <= |texts[first]| && texts[first][..lens[first]] == queue[0]
  {
    hide Slot;
    var next := (tail + 1) % 16;
    SlotShifts(tail, |queue| - 1);
    assert lens[Slot(tail, 0)] <= |texts[Slot(tail, 0)]|;
    forall k | 0 <= k < |queue| - 1
      ensures lens[Slot(next, k)] <= |texts[Slot(next, k)]|
      ensures texts[Slot(next, k)][..lens[Slot(next, k)]] == queue[1..][k]
    {
      SlotShifts(tail, k);
    }
  }

  class LineWrapper {
    const x: int
    const width: nat
    const lenbuf: array<nat>
    const datbuf: array<seq<Byte>>
    var head: nat  // index for the next write
    var tail: nat  // index before the next read
    var wroteSomething: bool
    ghost var queue: seq<seq<Byte>>

    ghost predicate Valid()
      reads this, lenbuf, datbuf
    {
      && width >= 2 && lenbuf.Length == 16 && datbuf.Length == 16 && head < 16 && tail < 16 && |queue| <= 15
      && Holds(lenbuf[..], datbuf[..], tail, head, queue)
    }

    constructor (x1: int, x2: int)
      ensures Valid() && fresh(lenbuf) && fresh(datbuf) && queue == []
      ensures x == x1 && width == if x2 - x1 < 2 then 2 else x2 - x1
    {
      x := x1;
      width := if x2 - x1 < 2 then 2 else x2 - x1;
      lenbuf := new nat[16];
      datbuf := new seq<Byte>[16];
      head, tail, wroteSomething, queue := 0, 15, false, [];
    }

    predicate BufEmpty()
      requires Valid()
      reads this, lenbuf, datbuf
      ensures BufEmpty() == (queue == [])
    {
      (tail + 1) % SLOTS == head
    }

    predicate BufFull()
      requires Valid()
      reads this, lenbuf, datbuf
      ensures BufFull() == (|queue| == 15)
    {
      tail == head
    }

    /** Stores a chunk behind the others: no chunk that has not been read is overwritten. */
    method BufStore(data: seq<Byte>, len: nat)
      requires Valid() && |queue| < 15 && len <= |data|
      modifies this`head, this`queue, lenbuf, datbuf
      ensures Valid() && queue == old(queue) + [data[..len]]
    {
      HoldsStored(lenbuf[..], datbuf[..], tail, head, queue, data, len);
      hide Holds;
      ghost var lens, texts := lenbuf[..][head := len], datbuf[..][head := data];
      lenbuf[head] := len;
      datbuf[head] := data;
      assert lenbuf[..] == lens && datbuf[..] == texts;
      head := (head + 1) % SLOTS;
      queue := queue + [data[..len]];
    }

    /** Takes the oldest chunk out; it stands at tail afterwards. */
    method BufNext()
      requires Valid() && queue != []
      modifies this`tail, this`queue
      ensures Valid() && queue == old(queue)[1..]
      ensures lenbuf[tail] <= |datbuf[tail]| && datbuf[tail][..lenbuf[tail]] == old(queue)[0]
    {
      HoldsTaken(lenbuf[..], datbuf[..], tail, head, queue);
      hide Holds;
      tail := (tail + 1) % SLOTS;
      queue := queue[1..];
    }

    /** Writes the oldest chunk, on a new line if the call has written one before. */
    method WriteOneLine(write: Writer)
      requires Valid()
      modifies this`tail, this`queue, this`wroteSomething, write
      ensures Valid() && wroteSomething
      ensures queue == if old(queue) == [] then [] else old(queue)[1..]
      ensures write.text == old(write.text) + (if old(wroteSomething) then [NEWLINE] + Indentation(x) else [])
                            + (if old(queue) == [] then [] else old(queue)[0])
    {
      hide Holds;
      ghost var was := write.text;
      if wroteSomething {
        write.Write([NEWLINE], 1);
        Indent(write, x);
        assert [NEWLINE][..1] == [NEWLINE];
        assert write.text == was + ([NEWLINE] + Indentation(x));
      } else {
        assert was + [] == was;
      }
      if !BufEmpty() {
        BufNext();
        write.Write(datbuf[tail], lenbuf[tail]);
      }
      wroteSomething := true;
    }

    /** Queues a chunk; if there is no room, a line goes out first. */
    method Output(write: Writer, data: seq<Byte>, len: nat, ghost done: seq<seq<Byte>>, ghost start: seq<Byte>)
      returns (ghost written: seq<seq<Byte>>)
      requires Valid() && len <= |data| && Written(write, start, done)
      modifies this`head, this`tail, this`queue, this`wroteSomething, lenbuf, datbuf, write
      ensures Valid() && Written(write, start, written)
      ensures written + queue == done + old(queue) + [data[..len]]
      ensures |written| == if |old(queue)| == 15 then |done| + 1 else |done|
    {
      hide Holds;
      written := done;
      if BufFull() {
        written := WriteNext(write, done, start);
      }
      BufStore(data, len);
    }

    /** The call has written these lines so far. */
    ghost predicate Written(write: Writer, start: seq<Byte>, lines: seq<seq<Byte>>)
      reads this, write
    {
      write.text == start + Stacked(lines, x) && wroteSomething == (lines != [])
    }

    method WriteNext(write: Writer, ghost done: seq<seq<Byte>>, ghost start: seq<Byte>)
      returns (ghost written: seq<seq<Byte>>)
      requires Valid() && queue != [] && Written(write, start, done)
      modifies this`tail, this`queue, this`wroteSomething, write
      ensures Valid() && Written(write, start, written)
      ensures written == done + [old(queue)[0]] && queue == old(queue)[1..]
    {
      hide Holds;
      written := done + [queue[0]];
      StackedMore(done, queue[0], x);
      ghost var line := queue[0];
      WriteOneLine(write);
      assert write.text == start + Stacked(written, x);
    }

    /**
     * Wraps a text and writes at least one line of what is pending; more only if the buffer cannot
     * keep the rest.
     */
    method Process(write: Writer, data: seq<Byte>)
      requires Valid()
      modifies this`head, this`tail, this`queue, this`wroteSomething, lenbuf, datbuf, write
      ensures Valid()
      ensures var all := Pending(old(queue), data, width); var n := LinesDue(|all|);
              write.text == old(write.text) + Stacked(all[..n], x) && queue == all[n..]
    {
      hide Holds, Cut, Stacked;
      ghost var start, done, all := write.text, [], Pending(queue, data, width);
      NothingStacked(x);
      assert start + [] == start;
      wroteSomething := false;
      var rest := data;
      while rest != []
        invariant Valid() && Written(write, start, done)
        invariant done + queue + Chop(rest, width) == all
        invariant done != [] ==> |queue| == 15
        decreases |rest|
      {
        var end, next := SplitPoint(rest, width);
        done := Output(write, rest, end, done, start);
        rest := rest[next..];
      }
      assert done + queue == all;
      if !wroteSomething {
        if BufEmpty() {
          WriteOneLine(write);
        } else {
          done := WriteNext(write, done, start);
        }
      }
      AllWritten(done, queue, all);
    }

    /** Writes out all that is pending, every line indented; nothing if there is nothing. */
    method Flush(write: Writer)
      requires Valid()
      modifies this`tail, this`queue, this`wroteSomething, write
      ensures Valid() && queue == []
      ensures write.text == old(write.text) + FlushText(old(queue), x)
    {
      hide Holds;
      if BufEmpty() {
        assert write.text + [] == write.text;
        return;
      }
      ghost var all, done, was := queue, [], write.text;
      Indent(write, x);
      ghost var start := write.text;
      assert start + [] == start;
      wroteSomething := false;
      while !BufEmpty()
        invariant Valid() && Written(write, start, done) && done + queue == all
        decreases |queue|
      {
        done := WriteNext(write, done, start);
      }
      assert done == all;
      write.Write([NEWLINE], 1);
      assert [NEWLINE][..1] == [NEWLINE];
    }
  }

  /** A run of calls as for the rows of a table: other text goes out before each call, then a line end, then a flush. */
  method WrapAll(wrapper: LineWrapper, write: Writer, befores: seq<seq<Byte>>, inputs: seq<seq<Byte>>)
    requires wrapper.Valid() && |befores| == |inputs|
    modifies wrapper, wrapper.lenbuf, wrapper.datbuf, write
    ensures wrapper.Valid() && wrapper.queue == []
    ensures var queue, x, width := old(wrapper.queue), wrapper.x, wrapper.width;
            write.text == old(write.text) + CallsText(befores, RunCalls(queue, inputs, width), x) + [NEWLINE]
                          + FlushText(RunRest(queue, inputs, width), x)
            && Flat(RunCalls(queue, inputs, width)) + RunRest(queue, inputs, width) == queue + AllChunks(inputs, width)
  {
    RunIsLines(wrapper.queue, inputs, wrapper.width);
    NothingIsLost(wrapper.queue, inputs, wrapper.width);
    ghost var run := Run(write.text, wrapper.queue, befores, inputs, wrapper.width, wrapper.x);
    ghost var done := [];
    RunStarts(run);
    hide LineWrapper.Valid, SoFar, RunLines, AllChunks, Flat, Stacked, RunCalls, RunRest, CallsText, Pending, FlushText,
         LinesDue;
    for k := 0 to |inputs|
      invariant wrapper.Valid() && SoFar(run, k, done, wrapper.queue, write.text)
    {
      RunGoesOn(run, k, done, wrapper.queue, write.text);
      ghost var lines := ProcessAfter(wrapper, write, befores[k], inputs[k]);
      done := done + [lines];
    }
    RunEnds(run, done, wrapper.queue, write.text);
    EndLine(wrapper, write);
  }

  method EndLine(wrapper: LineWrapper, write: Writer)
    requires wrapper.Valid()
    modifies wrapper, wrapper.lenbuf, wrapper.datbuf, write
    ensures wrapper.Valid() && wrapper.queue == []
    ensures write.text == old(write.text) + [NEWLINE] + FlushText(old(wrapper.queue), wrapper.x)
  {
    hide Holds, FlushText;
    write.Write([NEWLINE], 1);
    assert [NEWLINE][..1] == [NEWLINE];
    wrapper.Flush(write);
  }

  method ProcessAfter(wrapper: LineWrapper, write: Writer, before: seq<Byte>, data: seq<Byte>)
    returns (ghost lines: seq<seq<Byte>>)
    requires wrapper.Valid()
    modifies wrapper, wrapper.lenbuf, wrapper.datbuf, write
    ensures wrapper.Valid()
    ensures write.text == old(write.text) + before + Stacked(lines, wrapper.x)
    ensures var all := Pending(old(wrapper.queue), data, wrapper.width); var n := LinesDue(|all|);
            lines == all[..n] && wrapper.queue == all[n..]
  {
    hide Holds, Stacked, Chop;
    ghost var all := Pending(wrapper.queue, data, wrapper.width);
    assert before[..|before|] == before;
    write.Write(before, |before|);
    wrapper.Process(write, data);
    lines := all[..LinesDue(|all|)];
  }

  /** What a run starts with. */
  datatype Run = Run(text: seq<Byte>, queue: seq<seq<Byte>>, befores: seq<seq<Byte>>, inputs: seq<seq<Byte>>,
                     width: nat, x: int)

  /** After k calls, which wrote the lines of done. */
  ghost predicate SoFar(run: Run, k: nat, done: seq<seq<seq<Byte>>>, queue: seq<seq<Byte>>, text: seq<Byte>) {
    && run.width >= 2 && |done| == k <= |run.inputs| == |run.befores|
    && text == run.text + CallsText(run.befores[..k], done, run.x)
    && done + RunCalls(queue, run.inputs[k..], run.width) == RunCalls(run.queue, run.inputs, run.width)
    && RunRest(queue, run.inputs[k..], run.width) == RunRest(run.queue, run.inputs, run.width)
  }

  lemma RunStarts(run: Run)
    requires run.width >= 2 && |run.befores| == |run.inputs|
    ensures SoFar(run, 0, [], run.queue, run.text)
  {
    var calls := RunCalls(run.queue, run.inputs, run.width);
    assert run.text + [] == run.text && [] + calls == calls && run.inputs[0..] == run.inputs;
  }

  lemma RunGoesOn(run: Run, k: nat, done: seq<seq<seq<Byte>>>, queue: seq<seq<Byte>>, text: seq<Byte>)
    requires SoFar(run, k, done, queue, text) && k < |run.inputs|
    ensures var all := Pending(queue, run.inputs[k], run.width); var n := LinesDue(|all|);
            SoFar(run, k + 1, done + [all[..n]], all[n..], text + run.befores[k] + Stacked(all[..n], run.x))
  {
    var all := Pending(queue, run.inputs[k], run.width);
    var lines, left := all[..LinesDue(|all|)], all[LinesDue(|all|)..];
    hide LinesDue, Pending, Stacked;
    var calls := RunCalls(left, run.inputs[k + 1..], run.width);
    assert run.inputs[k..][1..] == run.inputs[k + 1..];
    assert run.befores[..k + 1] == run.befores[..k] + [run.befores[k]];
    CallsTextMore(run.befores[..k], run.befores[k], done, lines, run.x);
    hide CallsText;
    assert done + ([lines] + calls) == done + [lines] + calls;
  }

  lemma RunEnds(run: Run, done: seq<seq<seq<Byte>>>, queue: seq<seq<Byte>>, text: seq<Byte>)
    requires SoFar(run, |run.inputs|, done, queue, text)
    ensures queue == RunRest(run.queue, run.inputs, run.width)
    ensures text == run.text + CallsText(run.befores, RunCalls(run.queue, run.inputs, run.width), run.x)
  {
    assert run.befores[..|run.befores|] == run.befores && run.inputs[|run.inputs|..] == [] && done + [] == done;
  }

  lemma CallsTextMore(befores: seq<seq<Byte>>, before: seq<Byte>, calls: seq<seq<seq<Byte>>>, lines: seq<seq<Byte>>,
                      x: int)
    requires |befores| == |calls|
    ensures CallsText(befores + [before], calls + [lines], x) ==
            CallsText(befores, calls, x) + before + Stacked(lines, x)
  {
    assert (befores + [before])[..|calls|] == befores && (calls + [lines])[..|calls|] == calls;
  }

  /** How far the characters fit. */
  method Measure(data: seq<Byte>, width: nat) returns (maxi: nat)
    ensures maxi == Fit(data, width)
  {
    hide CharWidth, CharLength;
    maxi := 0;
    var rest, columns := data, 0;
    while rest != [] && columns < width
      invariant columns <= width && maxi + |rest| == |data| && rest == data[maxi..]
      invariant maxi + Fit(rest, width - columns) == Fit(data, width)
      decreases |rest|
    {
      var bytes, wide := ReadChar(rest);
      if columns + wide > width {
        break;
      }
      maxi, columns, rest := maxi + bytes, columns + wide, rest[bytes..];
    }
  }

  /** Where the next chunk ends and where the text goes on behind it. */
  method SplitPoint(data: seq<Byte>, width: nat) returns (end: nat, next: nat)
    requires data != [] && width >= 2
    ensures end <= |data| && next <= |data| && (data[..end], data[next..]) == Cut(data, width)
  {
    FitsWhole(data, width);
    assert data[..|data|] == data && data[|data|..] == [];
    if |data| <= width {
      NotWider(data);
      return |data|, |data|;
    }
    var maxi := Measure(data, width);
    if maxi == |data| {
      return |data|, |data|;
    }
    var i: int := maxi;
    while i >= 0 && data[i] != SPACE
      invariant -1 <= i <= maxi && LastSpace(data, maxi) == LastSpace(data, i)
    {
      i := i - 1;
    }
    if i >= 0 {
      return i, i + 1;
    } else {
      return maxi, maxi;
    }
  }

  lemma NothingStacked(x: int)
    ensures Stacked([], x) == []
  {
  }

  lemma AllWritten(done: seq<seq<Byte>>, queue: seq<seq<Byte>>, all: seq<seq<Byte>>)
    requires done + queue == all && |queue| <= 15 && (done == [] ==> queue == []) && (|done| > 1 ==> |queue| == 15)
    requires |all| > 15 ==> |queue| == 15
    ensures done == all[..LinesDue(|all|)] && queue == all[LinesDue(|all|)..]
  {
    assert LinesDue(|all|) == |done|;
  }

  lemma StackedMore(lines: seq<seq<Byte>>, line: seq<Byte>, x: int)
    ensures Stacked(lines + [line], x) ==
            Stacked(lines, x) + (if lines == [] then [] else [NEWLINE] + Indentation(x)) + line
  {
    assert (lines + [line])[..|lines|] == lines;
  }
}
