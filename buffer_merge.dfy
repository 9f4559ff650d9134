/** merge_buffer_to_file: merging one sorted batch of lines into the output file
    and its vector of offsets.

    The functions below give the effect of each branch on the file's bytes, its
    cursor and the offsets; MergeBuffer is the whole call, and the method
    MergeBufferToFile, which runs merge_buffer_to_file's loop over an OutputFile, is proved
    to have exactly that effect. The code is modelled as written: an offset is
    taken with tellp() just after a line's '\n' (so it marks where the NEXT line
    starts), the comparator reads the line starting at an offset, an inserted
    line overwrites the bytes at that offset instead of shifting them, the batch
    cursor runs over every slot of the array rather than the used ones, and the
    offsets cursor's bound is fixed before the loop. */
module BufferMerge {
  import opened Lines
  import opened OutputFileModel

  /** maxBuffersCount: the number of line slots in a batch. */
  const MAX_BUFFERS_COUNT: nat := 50

  /** The output file's bytes, its one cursor, and the vector of offsets. */
  datatype MergeState = MergeState(content: seq<char>, cursor: nat, positions: seq<nat>)

  /** The cursor and every offset lie within the file. */
  predicate ValidIndex(st: MergeState) {
    && st.cursor <= |st.content|
    && forall i :: 0 <= i < |st.positions| ==> st.positions[i] <= |st.content|
  }

  /** The line gets its '\n' appended and is written at the cursor, which then
      stands just after that '\n'. */
  function WriteLine(st: MergeState, line: Line): (r: MergeState)
    requires ValidIndex(st)
    ensures ValidIndex(r) && |st.content| <= |r.content| && r.positions == st.positions
    ensures r.cursor == st.cursor + |line| + 1
  {
    var buf := line + ['\n'];
    MergeState(Overwrite(st.content, st.cursor, buf), st.cursor + |buf|, st.positions)
  }

  /** One step of the first-batch loop or of the tail loop: write the line at the
      cursor, then positions.emplace_back(out.tellp()). */
  function AppendLine(st: MergeState, line: Line): (r: MergeState)
    requires ValidIndex(st)
    ensures ValidIndex(r) && |st.content| <= |r.content|
    ensures r.cursor == st.cursor + |line| + 1
  {
    var w := WriteLine(st, line);
    w.(positions := w.positions + [w.cursor])
  }

  /** The slots start .. stop - 1, appended one after another. */
  function AppendRun(batch: seq<Line>, start: nat, stop: nat, st: MergeState): (r: MergeState)
    requires start <= stop <= |batch| && ValidIndex(st)
    ensures ValidIndex(r) && |st.content| <= |r.content|
    ensures |r.positions| == |st.positions| + (stop - start)
    decreases stop - start
  {
    if start == stop then st else AppendRun(batch, start + 1, stop, AppendLine(st, batch[start]))
  }

  /** positions.emplace(cbegin(positions) + k, oldPos), followed by storing
      newPos into the element after the new one. */
  function InsertAt(positions: seq<nat>, k: nat, oldPos: nat, newPos: nat): (r: seq<nat>)
    requires k < |positions|
    ensures |r| == |positions| + 1
    ensures forall i :: 0 <= i < k ==> r[i] == positions[i]
    ensures r[k] == oldPos && r[k + 1] == newPos
    ensures forall i :: k < i < |positions| ==> r[i + 1] == positions[i]
  {
    var grown := positions[..k] + [oldPos] + positions[k..];
    grown[k + 1 := newPos]
  }

  /** The "not less" branch: seek to the k-th offset, write the batch line and
      its '\n' over the bytes there, and record the offsets around it. */
  function InsertLine(st: MergeState, k: nat, line: Line): (r: MergeState)
    requires ValidIndex(st) && k < |st.positions|
    ensures ValidIndex(r) && |st.content| <= |r.content|
    ensures |r.positions| == |st.positions| + 1
  {
    var at := st.positions[k];
    var w := WriteLine(st.(cursor := at), line);
    w.(positions := InsertAt(st.positions, k, at, w.cursor))
  }

  /** The inserted line and its '\n' replace the bytes at the k-th offset, every
      other byte keeps its value, the cursor ends just after the '\n', and the
      k-th offset is kept while the offset after the new line is inserted
      behind it. */
  lemma InsertLineEffect(st: MergeState, k: nat, line: Line)
    requires ValidIndex(st) && k < |st.positions|
    ensures var r, at, buf := InsertLine(st, k, line), st.positions[k], line + ['\n'];
      && |r.content| == (if at + |buf| <= |st.content| then |st.content| else at + |buf|)
      && (forall i :: 0 <= i < |buf| ==> r.content[at + i] == buf[i])
      && (forall i :: 0 <= i < |st.content| && !(at <= i < at + |buf|) ==> r.content[i] == st.content[i])
      && r.cursor == at + |buf|
      && r.positions == InsertAt(st.positions, k, at, at + |buf|)
  {
    OverwriteEffect(st.content, st.positions[k], line + ['\n']);
  }

  /** The merge loop from batch slot first1 and offset first2, with the offsets
      bound last2 taken once before the loop. */
  function MergeFrom(batch: seq<Line>, first1: nat, first2: nat, last2: nat, st: MergeState): (r: MergeState)
    requires first1 <= |batch| && first2 <= last2 <= |st.positions| && ValidIndex(st)
    ensures ValidIndex(r) && |st.content| <= |r.content|
    ensures |r.positions| == |st.positions| + (|batch| - first1)
    decreases (|batch| - first1) + (last2 - first2)
  {
    if first1 == |batch| then st
    else if first2 == last2 then AppendRun(batch, first1, |batch|, st)
    else
      var at := st.positions[first2];
      var read := st.(cursor := AfterLine(st.content, at));
      if Less(LineAt(st.content, at), batch[first1]) then
        MergeFrom(batch, first1, first2 + 1, last2, read)
      else
        MergeFrom(batch, first1 + 1, first2, last2, InsertLine(read, first2, batch[first1]))
  }

  /** merge_buffer_to_file(buffers, buffersUsed, positions, out, comp). */
  function MergeBuffer(batch: seq<Line>, used: nat, st: MergeState): (r: MergeState)
    requires used <= |batch| && ValidIndex(st)
    ensures ValidIndex(r) && |st.content| <= |r.content|
    ensures |r.positions| == |st.positions| + (if st.positions == [] then used else |batch|)
  {
    if st.positions == [] then AppendRun(batch, 0, used, st)
    else MergeFrom(batch, 0, 0, |st.positions|, st)
  }

  lemma TerminatedStep(batch: seq<Line>, start: nat, stop: nat)
    requires start < stop <= |batch|
    ensures Terminated(batch[start..stop]) == batch[start] + ['\n'] + Terminated(batch[start + 1..stop])
  {
    assert batch[start..stop][1..] == batch[start + 1..stop];
  }

  /** Appending a run writes the lines, each with its '\n', one after another at
      the cursor. */
  lemma {:induction false} AppendRunWrites(batch: seq<Line>, start: nat, stop: nat, st: MergeState)
    requires start <= stop <= |batch| && ValidIndex(st)
    ensures var r, run := AppendRun(batch, start, stop, st), Terminated(batch[start..stop]);
      r.content == Overwrite(st.content, st.cursor, run) && r.cursor == st.cursor + |run|
    decreases stop - start
  {
    if start == stop {
      assert batch[start..stop] == [];
      assert Overwrite(st.content, st.cursor, []) == st.content;
    } else {
      AppendRunWrites(batch, start + 1, stop, AppendLine(st, batch[start]));
      AppendRunWritesStep(batch, start, stop, st);
    }
  }

  /** Writing the first line of a run, then the rest after it, writes the run. */
  lemma AppendRunWritesStep(batch: seq<Line>, start: nat, stop: nat, st: MergeState)
    requires start < stop <= |batch| && ValidIndex(st)
    requires var st1 := AppendLine(st, batch[start]);
      var r, run := AppendRun(batch, start + 1, stop, st1), Terminated(batch[start + 1..stop]);
      r.content == Overwrite(st1.content, st1.cursor, run) && r.cursor == st1.cursor + |run|
    ensures var r, run := AppendRun(batch, start, stop, st), Terminated(batch[start..stop]);
      r.content == Overwrite(st.content, st.cursor, run) && r.cursor == st.cursor + |run|
  {
    var line := batch[start] + ['\n'];
    var st1 := AppendLine(st, batch[start]);
    assert st1.content == Overwrite(st.content, st.cursor, line);
    TerminatedStep(batch, start, stop);
    OverwriteTwice(st.content, st.cursor, line, Terminated(batch[start + 1..stop]));
  }

  /** The offsets tellp() reports after writing each of the lines
      start .. stop - 1, with its '\n', one after another from cursor. */
  function RunEnds(batch: seq<Line>, start: nat, stop: nat, cursor: nat): (ends: seq<nat>)
    requires start <= stop <= |batch|
    ensures |ends| == stop - start
    ensures forall i :: 0 <= i < |ends| ==> cursor < ends[i]
    ensures forall i, j :: 0 <= i < j < |ends| ==> ends[i] < ends[j]
    decreases stop - start
  {
    if start == stop then []
    else
      var next := cursor + |batch[start]| + 1;
      [next] + RunEnds(batch, start + 1, stop, next)
  }

  /** Each run offset is the cursor moved past the lines written so far. */
  lemma {:induction false} RunEndsAt(batch: seq<Line>, start: nat, stop: nat, cursor: nat)
    requires start <= stop <= |batch|
    ensures var ends := RunEnds(batch, start, stop, cursor);
      forall k :: 0 <= k < |ends| ==> ends[k] == cursor + |Terminated(batch[start..start + k + 1])|
    decreases stop - start
  {
    if start < stop {
      var next := cursor + |batch[start]| + 1;
      var ends := RunEnds(batch, start, stop, cursor);
      RunEndsAt(batch, start + 1, stop, next);
      forall k | 0 <= k < |ends| ensures ends[k] == cursor + |Terminated(batch[start..start + k + 1])| {
        TerminatedStep(batch, start, start + k + 1);
        if k == 0 {
          assert batch[start + 1..start + 1] == [];
        } else {
          assert ends[k] == RunEnds(batch, start + 1, stop, next)[k - 1];
        }
      }
    }
  }

  /** Appending a run keeps the old offsets and adds the run's offsets after them. */
  lemma {:induction false} AppendRunOffsets(batch: seq<Line>, start: nat, stop: nat, st: MergeState)
    requires start <= stop <= |batch| && ValidIndex(st)
    ensures AppendRun(batch, start, stop, st).positions == st.positions + RunEnds(batch, start, stop, st.cursor)
    decreases stop - start
  {
    if start == stop {
      assert st.positions + [] == st.positions;
    } else {
      var st1 := AppendLine(st, batch[start]);
      AppendRunOffsets(batch, start + 1, stop, st1);
      assert st1.positions == st.positions + [st1.cursor];
    }
  }

  /** The first batch (positions empty): the used lines go one after another at
      the cursor, each with its '\n', and positions ends up with one entry per
      line, the cursor just after it, so the entries strictly increase. */
  lemma FirstBatch(batch: seq<Line>, used: nat, st: MergeState)
    requires used <= |batch| && ValidIndex(st) && st.positions == []
    ensures var r := MergeBuffer(batch, used, st);
      && r.content == Overwrite(st.content, st.cursor, Terminated(batch[..used]))
      && r.cursor == st.cursor + |Terminated(batch[..used])|
      && |r.positions| == used
      && (forall k :: 0 <= k < used ==> r.positions[k] == st.cursor + |Terminated(batch[..k + 1])|)
      && (forall i, j :: 0 <= i < j < used ==> r.positions[i] < r.positions[j])
  {
    var r := MergeBuffer(batch, used, st);
    AppendRunWrites(batch, 0, used, st);
    AppendRunOffsets(batch, 0, used, st);
    RunEndsAt(batch, 0, used, st.cursor);
    assert batch[0..used] == batch[..used];
    assert r.positions == RunEnds(batch, 0, used, st.cursor);
    forall k | 0 <= k < used ensures r.positions[k] == st.cursor + |Terminated(batch[..k + 1])| {
      assert batch[0..0 + k + 1] == batch[..k + 1];
    }
  }

  /** Once the offsets cursor reaches the bound fixed before the loop, every
      remaining slot up to the end of the array, used or not, is written at the
      current cursor with its '\n' and gets one new trailing offset, and the
      merge ends. */
  lemma TailRun(batch: seq<Line>, first1: nat, last2: nat, st: MergeState)
    requires first1 <= |batch| && last2 <= |st.positions| && ValidIndex(st)
    ensures var r, run := MergeFrom(batch, first1, last2, last2, st), Terminated(batch[first1..]);
      && r.content == Overwrite(st.content, st.cursor, run)
      && r.cursor == st.cursor + |run|
      && r.positions == st.positions + RunEnds(batch, first1, |batch|, st.cursor)
  {
    AppendRunWrites(batch, first1, |batch|, st);
    AppendRunOffsets(batch, first1, |batch|, st);
    assert batch[first1..|batch|] == batch[first1..];
    if first1 == |batch| {
      assert Overwrite(st.content, st.cursor, []) == st.content;
    }
  }

  /** A line followed by its '\n' at pos is what the comparator reads there. */
  lemma LineAtWritten(content: seq<char>, pos: nat, x: Line)
    requires '\n' !in x && pos + |x| + 1 <= |content|
    requires content[pos..pos + |x| + 1] == x + ['\n']
    ensures LineAt(content, pos) == x
  {
    var e := LineEnd(content, pos);
    LineEndSpec(content, pos);
    assert content[pos + |x|] == (x + ['\n'])[|x|] == '\n';
    assert forall i :: pos <= i < pos + |x| ==> content[i] == x[i - pos];
    assert content[pos..e] == content[pos..pos + |x| + 1][..|x|];
  }

  /** The k-th offset marks a copy of x followed by '\n'. */
  predicate CopyAt(st: MergeState, k: nat, x: Line) {
    && k < |st.positions|
    && st.positions[k] + |x| + 1 <= |st.content|
    && st.content[st.positions[k]..st.positions[k] + |x| + 1] == x + ['\n']
  }

  /** Writing x over a copy of x and its '\n' leaves the file's bytes as they
      were and keeps the offset. */
  lemma InsertSameLine(st: MergeState, k: nat, x: Line)
    requires ValidIndex(st) && CopyAt(st, k, x)
    ensures InsertLine(st, k, x).content == st.content
    ensures CopyAt(InsertLine(st, k, x), k, x)
  {
    InsertLineEffect(st, k, x);
  }

  /** The state after one pass of the merge loop that takes the "not less"
      branch at the first2-th offset. */
  function InsertedAt(st: MergeState, first2: nat, line: Line): (r: MergeState)
    requires ValidIndex(st) && first2 < |st.positions|
    ensures ValidIndex(r) && |r.positions| == |st.positions| + 1
  {
    InsertLine(st.(cursor := AfterLine(st.content, st.positions[first2])), first2, line)
  }

  /** With a copy of x under the first2-th offset, a batch slot holding x takes
      the "not less" branch, and writing it there leaves the file's bytes and
      the copy as they were. */
  lemma CopyStep(batch: seq<Line>, x: Line, first1: nat, first2: nat, last2: nat, st: MergeState)
    requires first1 < |batch| && first2 < last2 <= |st.positions| && ValidIndex(st)
    requires batch[first1] == x && '\n' !in x && CopyAt(st, first2, x)
    ensures MergeFrom(batch, first1, first2, last2, st)
      == MergeFrom(batch, first1 + 1, first2, last2, InsertedAt(st, first2, x))
    ensures InsertedAt(st, first2, x).content == st.content
    ensures CopyAt(InsertedAt(st, first2, x), first2, x)
  {
    var at := st.positions[first2];
    var read := st.(cursor := AfterLine(st.content, at));
    assert !Less(LineAt(st.content, at), batch[first1]) by {
      LineAtWritten(st.content, at, x);
      LessIrreflexive(x);
    }
    assert CopyAt(read, first2, x);
    InsertSameLine(read, first2, x);
  }

  /** While the offset under first2 marks a copy of x and its '\n', batch slots
      holding x are never less than the line read there, so each is written over
      that same copy and the file keeps its bytes. */
  lemma {:induction false} RepeatedLineStays(batch: seq<Line>, x: Line, first1: nat, first2: nat, last2: nat, st: MergeState)
    requires first1 <= |batch| && first2 < last2 <= |st.positions| && ValidIndex(st)
    requires forall j :: first1 <= j < |batch| ==> batch[j] == x
    requires '\n' !in x && CopyAt(st, first2, x)
    ensures MergeFrom(batch, first1, first2, last2, st).content == st.content
    decreases |batch| - first1
  {
    if first1 < |batch| {
      var next := InsertedAt(st, first2, x);
      CopyStep(batch, x, first1, first2, last2, st);
      RepeatedLineStays(batch, x, first1 + 1, first2, last2, next);
      calc {
        MergeFrom(batch, first1, first2, last2, st).content;
        MergeFrom(batch, first1 + 1, first2, last2, next).content;
        next.content;
        st.content;
      }
    }
  }

  /** The offsets mark where the line after each written line starts, while the
      comparator reads the line starting at an offset. After a first batch of
      "a" and "c", the first offset marks "c"; a full second batch of "b" lines
      finds "c" not less than "b" and writes "b" over it, and every later "b"
      lands on that same spot. The file ends as "a\nb\n": "c" is lost, and two
      lines remain of the 52 merged, while the offsets vector has 52 entries. */
  lemma SecondBatchOverwritesLine(first: seq<Line>, second: seq<Line>)
    requires |first| == |second| == MAX_BUFFERS_COUNT
    requires first[0] == "a" && first[1] == "c"
    requires forall j :: 0 <= j < |second| ==> second[j] == "b"
    ensures var s1 := MergeBuffer(first, 2, MergeState([], 0, []));
      var s2 := MergeBuffer(second, MAX_BUFFERS_COUNT, s1);
      && s1.content == "a\nc\n" && s1.positions == [2, 4]
      && s2.content == "a\nb\n"
      && |s2.positions| == 52
  {
    var s0 := MergeState([], 0, []);
    var s1 := MergeBuffer(first, 2, s0);
    var t1 := AppendLine(s0, "a");
    assert t1 == MergeState("a\n", 2, [2]);
    assert s1 == AppendLine(t1, "c");
    assert s1 == MergeState("a\nc\n", 4, [2, 4]);
    LineAtWritten(s1.content, 2, "c");
    assert !Less("c", "b");
    var read := s1.(cursor := AfterLine(s1.content, 2));
    var next := InsertLine(read, 0, "b");
    InsertLineEffect(read, 0, "b");
    assert next.content == "a\nb\n";
    assert next.positions[0] == 2 && |next.positions| == 3;
    assert MergeBuffer(second, MAX_BUFFERS_COUNT, s1) == MergeFrom(second, 1, 0, 2, next);
    assert CopyAt(next, 0, "b");
    RepeatedLineStays(second, "b", 1, 0, 2, next);
  }

  /** The slots start .. stop - 1 of batch with the '\n' push_back appends. */
  function Marked(batch: seq<Line>, start: nat, stop: nat): (r: seq<Line>)
    ensures |r| == |batch|
  {
    seq(|batch|, j requires 0 <= j < |batch| => if start <= j < stop then batch[j] + ['\n'] else batch[j])
  }

  /** Every slot keeps its bytes as a prefix; the slots start .. stop - 1 gain
      exactly one '\n' after them, and the others keep their length. */
  lemma MarkedSlots(batch: seq<Line>, start: nat, stop: nat, j: nat)
    requires j < |batch|
    ensures var r := Marked(batch, start, stop);
      && |batch[j]| <= |r[j]| && r[j][..|batch[j]|] == batch[j]
      && |r[j]| == |batch[j]| + (if start <= j < stop then 1 else 0)
      && (start <= j < stop ==> r[j][|batch[j]|] == '\n')
  {
  }

  lemma MarkedNext(batch: seq<Line>, start: nat, stop: nat)
    requires start <= stop < |batch|
    ensures Marked(batch, start, stop)[stop := batch[stop] + ['\n']] == Marked(batch, start, stop + 1)
  {
  }

  lemma MarkedTwice(batch: seq<Line>, mid: nat, stop: nat)
    requires mid <= stop
    ensures Marked(Marked(batch, 0, mid), mid, stop) == Marked(batch, 0, stop)
  {
  }

  /** A run reads only its own slots. */
  lemma {:induction false} AppendRunSlots(a: seq<Line>, b: seq<Line>, start: nat, stop: nat, st: MergeState)
    requires start <= stop <= |a| == |b| && ValidIndex(st)
    requires a[start..stop] == b[start..stop]
    ensures AppendRun(a, start, stop, st) == AppendRun(b, start, stop, st)
    decreases stop - start
  {
    if start < stop {
      assert a[start] == a[start..stop][0] == b[start];
      assert a[start + 1..stop] == a[start..stop][1..];
      assert b[start + 1..stop] == b[start..stop][1..];
      AppendRunSlots(a, b, start + 1, stop, AppendLine(st, a[start]));
    }
  }

  /** The loop merge_buffer_to_file runs for the first batch and, once the
      offsets are exhausted, for the rest of the array: for each slot from start
      up to stop, push_back('\n'), write the slot at the cursor, and
      emplace_back(tellp()). */
  method AppendSlots(buffers: array<Line>, start: nat, stop: nat, positions: seq<nat>, out: OutputFile)
    returns (result: seq<nat>)
    requires start <= stop <= buffers.Length
    requires out.Valid() && ValidIndex(MergeState(out.content, out.cursor, positions))
    modifies buffers, out
    ensures out.Valid() && ValidIndex(MergeState(out.content, out.cursor, result))
    ensures MergeState(out.content, out.cursor, result)
      == AppendRun(old(buffers[..]), start, stop, MergeState(old(out.content), old(out.cursor), positions))
    ensures buffers[..] == Marked(old(buffers[..]), start, stop)
  {
    ghost var batch := buffers[..];
    ghost var target := AppendRun(batch, start, stop, MergeState(out.content, out.cursor, positions));
    result := positions;
    var i := start;
    while i < stop
      invariant start <= i <= stop
      invariant out.Valid() && ValidIndex(MergeState(out.content, out.cursor, result))
      invariant AppendRun(batch, i, stop, MergeState(out.content, out.cursor, result)) == target
      invariant buffers[..] == Marked(batch, start, i)
    {
      var buf := buffers[i] + ['\n'];
      buffers[i] := buf;
      MarkedNext(batch, start, i);
      out.Write(buf);
      result := result + [out.cursor];
      i := i + 1;
    }
  }

  /** The "not less" branch of the loop: seek to the k-th offset, push_back('\n')
      on slot i and write it there, then emplace the offset and store tellp()
      after it. */
  method InsertSlot(buffers: array<Line>, i: nat, positions: seq<nat>, k: nat, out: OutputFile)
    returns (result: seq<nat>)
    requires i < buffers.Length && k < |positions|
    requires out.Valid() && ValidIndex(MergeState(out.content, out.cursor, positions))
    modifies buffers, out
    ensures out.Valid()
    ensures MergeState(out.content, out.cursor, result)
      == InsertLine(MergeState(old(out.content), old(out.cursor), positions), k, old(buffers[i]))
    ensures buffers[..] == old(buffers[..])[i := old(buffers[i]) + ['\n']]
  {
    var oldPos := positions[k];
    out.Seek(oldPos);
    var buf := buffers[i] + ['\n'];
    buffers[i] := buf;
    out.Write(buf);
    result := InsertAt(positions, k, oldPos, out.cursor);
  }

  /** The tail loop of the merge, entered once first2 reaches last2, with the
      slots before first1 already marked. */
  method MergeTail(buffers: array<Line>, ghost batch: seq<Line>, first1: nat, positions: seq<nat>, out: OutputFile)
    returns (result: seq<nat>)
    requires first1 <= buffers.Length == |batch|
    requires buffers[..] == Marked(batch, 0, first1)
    requires out.Valid() && ValidIndex(MergeState(out.content, out.cursor, positions))
    modifies buffers, out
    ensures out.Valid()
    ensures MergeState(out.content, out.cursor, result)
      == AppendRun(batch, first1, |batch|, MergeState(old(out.content), old(out.cursor), positions))
    ensures buffers[..] == Marked(batch, 0, |batch|)
  {
    ghost var cur := MergeState(out.content, out.cursor, positions);
    result := AppendSlots(buffers, first1, buffers.Length, positions, out);
    MarkedTwice(batch, first1, |batch|);
    assert Marked(batch, 0, first1)[first1..|batch|] == batch[first1..|batch|];
    AppendRunSlots(Marked(batch, 0, first1), batch, first1, |batch|, cur);
  }

  /** One pass of the merge loop while first2 is short of last2: compare the
      line at the first2-th offset with slot first1, then either move first2
      on or write the slot there and move first1 on. */
  method MergeStep(buffers: array<Line>, ghost batch: seq<Line>, first1: nat, first2: nat, last2: nat,
                   positions: seq<nat>, out: OutputFile)
    returns (next1: nat, next2: nat, result: seq<nat>)
    requires first1 < buffers.Length == |batch| && first2 < last2 <= |positions|
    requires buffers[..] == Marked(batch, 0, first1)
    requires out.Valid() && ValidIndex(MergeState(out.content, out.cursor, positions))
    modifies buffers, out
    ensures out.Valid() && ValidIndex(MergeState(out.content, out.cursor, result))
    ensures (next1 == first1 + 1 && next2 == first2) || (next1 == first1 && next2 == first2 + 1)
    ensures next2 <= last2 <= |result|
    ensures MergeFrom(batch, next1, next2, last2, MergeState(out.content, out.cursor, result))
      == MergeFrom(batch, first1, first2, last2, MergeState(old(out.content), old(out.cursor), positions))
    ensures buffers[..] == Marked(batch, 0, next1)
  {
    ghost var cur := MergeState(out.content, out.cursor, positions);
    var less := out.Compare(positions[first2], buffers[first1]);
    assert MergeState(out.content, out.cursor, positions) == cur.(cursor := AfterLine(cur.content, cur.positions[first2]));
    if less {
      next1, next2, result := first1, first2 + 1, positions;
    } else {
      result := InsertSlot(buffers, first1, positions, first2, out);
      MarkedNext(batch, 0, first1);
      next1, next2 := first1 + 1, first2;
    }
  }

  /** The merge loop of merge_buffer_to_file, entered with a non-empty offsets
      vector. The loop ends because each pass either returns, advances first2
      towards last2, or advances first1 towards last1. */
  method MergeLoop(buffers: array<Line>, positions: seq<nat>, out: OutputFile)
    returns (result: seq<nat>)
    requires |positions| > 0
    requires out.Valid() && ValidIndex(MergeState(out.content, out.cursor, positions))
    modifies buffers, out
    ensures out.Valid()
    ensures MergeState(out.content, out.cursor, result)
      == MergeFrom(old(buffers[..]), 0, 0, |positions|, MergeState(old(out.content), old(out.cursor), positions))
    ensures buffers[..] == Marked(old(buffers[..]), 0, buffers.Length)
  {
    ghost var batch := buffers[..];
    ghost var target := MergeFrom(batch, 0, 0, |positions|, MergeState(out.content, out.cursor, positions));
    result := positions;

    var first1: nat := 0;
    var last1 := buffers.Length;
    var first2: nat := 0;
    var last2 := |result|;
    while first1 != last1
      invariant first1 <= last1 == |batch|
      invariant first2 <= last2 <= |result|
      invariant out.Valid() && ValidIndex(MergeState(out.content, out.cursor, result))
      invariant MergeFrom(batch, first1, first2, last2, MergeState(out.content, out.cursor, result)) == target
      invariant buffers[..] == Marked(batch, 0, first1)
      decreases (last1 - first1) + (last2 - first2)
    {
      if first2 == last2 {
        result := MergeTail(buffers, batch, first1, result, out);
        return;
      }
      first1, first2, result := MergeStep(buffers, batch, first1, first2, last2, result, out);
    }
  }

  /** merge_buffer_to_file over a buffers array of maxBuffersCount slots and an
      OutputFile. Each slot the merge reaches gets its '\n' appended, as
      push_back does to the strings in the array: the used slots of a first batch,
      every slot of the array otherwise. */
  method MergeBufferToFile(buffers: array<Line>, buffersUsed: nat, positions: seq<nat>, out: OutputFile)
    returns (result: seq<nat>)
    requires buffers.Length == MAX_BUFFERS_COUNT && buffersUsed <= buffers.Length
    requires out.Valid() && ValidIndex(MergeState(out.content, out.cursor, positions))
    modifies buffers, out
    ensures out.Valid()
    ensures MergeState(out.content, out.cursor, result)
      == MergeBuffer(old(buffers[..]), buffersUsed, MergeState(old(out.content), old(out.cursor), positions))
    ensures buffers[..] == Marked(old(buffers[..]), 0, if positions == [] then buffersUsed else buffers.Length)
  {
    if |positions| == 0 {
      result := AppendSlots(buffers, 0, buffersUsed, positions, out);
    } else {
      result := MergeLoop(buffers, positions, out);
    }
  }
}
