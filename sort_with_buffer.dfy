/** sort_with_buffer: read the input in batches of at most maxBuffersCount
    lines, drop the trailing empty lines of a batch, sort the rest, merge them
    into the output file with merge_buffer_to_file, and empty the used slots.

    The input std::ifstream is modelled with its read position and its eofbit
    and failbit, because the batch loop and the outer loop test the stream. The
    function Run is the whole procedure over values; the method SortWithBuffer
    runs sort_with_buffer's loops over an InputFile, a buffers array and an
    OutputFile and is proved to end in the state Run gives. */
module BatchDriver {
  import opened Lines
  import opened Sorting
  import opened OutputFileModel
  import opened BufferMerge

  datatype Option<T> = None | Some(value: T)

  /** The input stream: the file's text, the read position, eofbit and failbit. */
  datatype InputState = InputState(text: seq<char>, pos: nat, eof: bool, fail: bool)

  /** eofbit is set only at the end of the text, and failbit only with it. */
  predicate ValidInput(st: InputState) {
    && st.pos <= |st.text|
    && (st.eof ==> st.pos == |st.text|)
    && (st.fail ==> st.eof)
  }

  /** A measure every read on a stream without failbit lowers. */
  function Progress(st: InputState): nat
    requires ValidInput(st)
  {
    4 * (|st.text| - st.pos) + (if st.eof then 0 else 2) + (if st.fail then 0 else 1)
  }

  datatype Read = Read(input: InputState, line: Line)

  /** std::getline(input, slot). A stream that is not good sets failbit and
      leaves slot as it was; at the end of the text the slot is emptied and
      eofbit and failbit are set; otherwise the line is extracted, its '\n'
      consumed, and eofbit set when the text ended first. */
  function ReadLine(st: InputState, slot: Line): (r: Read)
    requires ValidInput(st)
    ensures ValidInput(r.input) && r.input.text == st.text
    ensures !st.fail ==> Progress(r.input) < Progress(st)
  {
    if st.eof || st.fail then Read(st.(fail := true), slot)
    else if st.pos == |st.text| then Read(st.(eof := true, fail := true), [])
    else
      var e := LineEnd(st.text, st.pos);
      if e < |st.text| then Read(st.(pos := e + 1), st.text[st.pos..e])
      else Read(st.(pos := e, eof := true), st.text[st.pos..e])
  }

  /** What one getline does in each of its three cases. */
  lemma ReadLineCases(st: InputState, slot: Line)
    requires ValidInput(st)
    ensures var r := ReadLine(st, slot);
      && ((st.eof || st.fail) ==> r.line == slot && r.input.fail && r.input.pos == st.pos)
      && ((!st.eof && !st.fail && st.pos == |st.text|) ==> r.line == [] && r.input.fail)
      && ((!st.eof && !st.fail && st.pos < |st.text|) ==>
            && r.line == LineAt(st.text, st.pos)
            && !r.input.fail
            && r.input.pos == AfterLine(st.text, st.pos)
            && (r.input.eof <==> st.pos + |r.line| == |st.text|))
  {
  }

  class InputFile {
    var text: seq<char>
    var pos: nat
    var eof: bool
    var fail: bool

    ghost function State(): InputState
      reads this
    {
      InputState(text, pos, eof, fail)
    }

    ghost predicate Valid()
      reads this
    {
      ValidInput(State())
    }

    /** An std::ifstream opened on a file holding contents. */
    constructor (contents: seq<char>)
      ensures Valid() && State() == InputState(contents, 0, false, false)
    {
      text, pos, eof, fail := contents, 0, false, false;
    }

    /** std::getline(*this, slot), returning the new value of slot. */
    method GetLine(slot: Line) returns (line: Line)
      requires Valid()
      modifies this
      ensures Valid()
      ensures Read(State(), line) == ReadLine(old(State()), slot)
    {
      if eof || fail {
        fail := true;
        line := slot;
      } else if pos == |text| {
        eof, fail := true, true;
        line := [];
      } else {
        var e := LineEnd(text, pos);
        line := text[pos..e];
        if e < |text| {
          pos := e + 1;
        } else {
          pos, eof := e, true;
        }
      }
    }
  }

  /** The slots, how many the read loop used, and the input afterwards. */
  datatype Batch = Batch(slots: seq<Line>, used: nat, input: InputState)

  /** The read loop from slot used on: getline into the next slot while the
      stream has no failbit and the array has room. */
  function ReadFrom(slots: seq<Line>, used: nat, st: InputState): (r: Batch)
    requires used <= |slots| == MAX_BUFFERS_COUNT && ValidInput(st)
    ensures |r.slots| == |slots| && used <= r.used <= MAX_BUFFERS_COUNT
    ensures ValidInput(r.input) && r.input.text == st.text
    ensures used < MAX_BUFFERS_COUNT && !st.fail ==> Progress(r.input) < Progress(st)
    decreases MAX_BUFFERS_COUNT - used
  {
    if st.fail || used == MAX_BUFFERS_COUNT then Batch(slots, used, st)
    else
      var rd := ReadLine(st, slots[used]);
      ReadFrom(slots[used := rd.line], used + 1, rd.input)
  }

  /** r, read from slot used on, used at least that slot, stopped short of the
      array size only on failbit, and left the slots it did not reach alone. */
  ghost predicate ReadBounds(slots: seq<Line>, used: nat, r: Batch)
    requires used < |slots| == |r.slots|
  {
    && used + 1 <= r.used <= |slots|
    && (r.used < MAX_BUFFERS_COUNT ==> r.input.fail)
    && r.slots[r.used..] == slots[r.used..]
    && r.slots[..used] == slots[..used]
  }

  /** Storing a line into slot used and reading on from the next slot keeps
      the bounds of the rest of the batch for the batch as a whole. */
  lemma ReadBoundsStore(slots: seq<Line>, used: nat, line: Line, r: Batch)
    requires used + 1 < |slots| == |r.slots|
    requires ReadBounds(slots[used := line], used + 1, r)
    ensures ReadBounds(slots, used, r)
  {
    var next := slots[used := line];
    assert r.slots[..used] == r.slots[..used + 1][..used] == next[..used + 1][..used] == slots[..used];
    assert next[r.used..] == slots[r.used..];
  }

  /** The first getline of a batch, with the bounds for the rest of it. */
  lemma ReadFromBoundsStep(slots: seq<Line>, used: nat, st: InputState)
    requires used < |slots| == MAX_BUFFERS_COUNT && ValidInput(st) && !st.fail
    requires var rd := ReadLine(st, slots[used]);
      used + 1 < MAX_BUFFERS_COUNT && !rd.input.fail ==>
        ReadBounds(slots[used := rd.line], used + 1, ReadFrom(slots[used := rd.line], used + 1, rd.input))
    ensures ReadBounds(slots, used, ReadFrom(slots, used, st))
  {
    var rd := ReadLine(st, slots[used]);
    var next := slots[used := rd.line];
    var r := ReadFrom(next, used + 1, rd.input);
    assert ReadFrom(slots, used, st) == r;
    if used + 1 < MAX_BUFFERS_COUNT && !rd.input.fail {
      ReadBoundsStore(slots, used, rd.line, r);
    } else {
      assert r == Batch(next, used + 1, rd.input);
      assert next[used + 1..] == slots[used + 1..];
    }
  }

  /** A batch read from a stream without failbit uses at least one slot; it
      stops short of the array size only on failbit; and the slots it did not
      reach keep their contents. */
  lemma {:induction false} ReadFromBounds(slots: seq<Line>, used: nat, st: InputState)
    requires used < |slots| == MAX_BUFFERS_COUNT && ValidInput(st) && !st.fail
    ensures var r := ReadFrom(slots, used, st);
      && used + 1 <= r.used
      && (r.used < MAX_BUFFERS_COUNT ==> r.input.fail)
      && r.slots[r.used..] == slots[r.used..]
      && r.slots[..used] == slots[..used]
    decreases MAX_BUFFERS_COUNT - used
  {
    var rd := ReadLine(st, slots[used]);
    if used + 1 < MAX_BUFFERS_COUNT && !rd.input.fail {
      ReadFromBounds(slots[used := rd.line], used + 1, rd.input);
    }
    ReadFromBoundsStep(slots, used, st);
  }

  /** The read loop of one batch (the for loop that fills buffers). */
  method ReadBatch(buffers: array<Line>, input: InputFile) returns (used: nat)
    requires buffers.Length == MAX_BUFFERS_COUNT && input.Valid()
    modifies buffers, input
    ensures input.Valid()
    ensures Batch(buffers[..], used, input.State()) == ReadFrom(old(buffers[..]), 0, old(input.State()))
  {
    ghost var target := ReadFrom(buffers[..], 0, input.State());
    used := 0;
    while !input.fail && used < MAX_BUFFERS_COUNT
      invariant used <= MAX_BUFFERS_COUNT && input.Valid()
      invariant ReadFrom(buffers[..], used, input.State()) == target
      decreases MAX_BUFFERS_COUNT - used
    {
      var line := input.GetLine(buffers[used]);
      buffers[used] := line;
      used := used + 1;
    }
  }

  /** Where the loop that steps buffersUsed back over empty slots stops.
      None when every used slot is empty: there sort_with_buffer reads the slot
      before the first one, which is undefined behaviour, and the model stops. */
  function Trimmed(slots: seq<Line>, used: nat): (r: Option<nat>)
    requires used <= |slots|
    ensures r.Some? ==> 1 <= r.value <= used
    decreases used
  {
    if used == 0 then None
    else if slots[used - 1] == [] then Trimmed(slots, used - 1)
    else Some(used)
  }

  /** Trimmed keeps the longest prefix that ends with a non-empty line, and
      fails exactly when every used slot is empty. */
  lemma {:induction false} TrimmedSpec(slots: seq<Line>, used: nat)
    requires used <= |slots|
    ensures Trimmed(slots, used).None? <==> forall j :: 0 <= j < used ==> slots[j] == []
    ensures Trimmed(slots, used).Some? ==>
      var k := Trimmed(slots, used).value;
      && slots[k - 1] != []
      && forall j :: k <= j < used ==> slots[j] == []
    decreases used
  {
    if used > 0 && slots[used - 1] == [] {
      TrimmedSpec(slots, used - 1);
    }
  }

  /** The loop that drops trailing empty lines from the batch. The test
      k != 0 marks where sort_with_buffer would index before the array. */
  method TrimEmpty(buffers: array<Line>, used: nat) returns (kept: Option<nat>)
    requires used <= buffers.Length
    ensures kept == Trimmed(buffers[..], used)
  {
    var k: nat := used;
    while k != 0 && buffers[k - 1] == []
      invariant k <= used
      invariant Trimmed(buffers[..], k) == Trimmed(buffers[..], used)
    {
      k := k - 1;
    }
    kept := if k == 0 then None else Some(k);
  }

  /** std::sort on the first k slots. */
  function SortedBatch(slots: seq<Line>, k: nat): (r: seq<Line>)
    requires k <= |slots|
    ensures |r| == |slots| && r[k..] == slots[k..]
    ensures multiset(r[..k]) == multiset(slots[..k])
  {
    SortBy(slots[..k], Id) + slots[k..]
  }

  /** The first k slots come out in order and hold the same lines; the rest
      are untouched. */
  lemma SortedBatchSpec(slots: seq<Line>, k: nat)
    requires k <= |slots|
    ensures var r := SortedBatch(slots, k);
      && Sorted(r[..k])
      && multiset(r[..k]) == multiset(slots[..k])
      && r[k..] == slots[k..]
  {
    var r := SortedBatch(slots, k);
    SortBySorted(slots[..k], Id);
    assert r[..k] == SortBy(slots[..k], Id);
    assert r[k..] == slots[k..];
  }

  method SortPrefix(buffers: array<Line>, k: nat)
    requires k <= buffers.Length
    modifies buffers
    ensures buffers[..] == SortedBatch(old(buffers[..]), k)
  {
    var sorted := SortBy(buffers[..k], Id);
    forall i | 0 <= i < k {
      buffers[i] := sorted[i];
    }
  }

  /** The slots after the first k are kept; the first k are emptied. */
  function Cleared(slots: seq<Line>, k: nat): (r: seq<Line>)
    ensures |r| == |slots|
  {
    seq(|slots|, j requires 0 <= j < |slots| => if j < k then [] else slots[j])
  }

  /** buffers[i].resize(0) for every used slot. */
  method ClearPrefix(buffers: array<Line>, k: nat)
    requires k <= buffers.Length
    modifies buffers
    ensures buffers[..] == Cleared(old(buffers[..]), k)
  {
    ghost var before := buffers[..];
    for i := 0 to k
      invariant buffers[..] == Cleared(before, i)
    {
      buffers[i] := [];
    }
  }

  /** The input afterwards, the output file and offsets afterwards, and whether
      the procedure ran to its end (false where sort_with_buffer has undefined
      behaviour). */
  datatype Outcome = Outcome(input: InputState, file: MergeState, completed: bool)

  /** One batch after another while the input has no failbit. */
  function Run(slots: seq<Line>, st: InputState, file: MergeState): (r: Outcome)
    requires |slots| == MAX_BUFFERS_COUNT && ValidInput(st) && ValidIndex(file)
    ensures ValidInput(r.input) && ValidIndex(r.file) && r.input.text == st.text
    decreases Progress(st)
  {
    if st.fail then Outcome(st, file, true)
    else
      var b := ReadFrom(slots, 0, st);
      match Trimmed(b.slots, b.used)
      case None => Outcome(b.input, file, false)
      case Some(k) =>
        var sorted := SortedBatch(b.slots, k);
        var merged := MergeBuffer(sorted, k, file);
        var marked := Marked(sorted, 0, if file.positions == [] then k else |sorted|);
        Run(Cleared(marked, k), b.input, merged)
  }

  /** The slots as the array is created: every string empty. */
  function Blank(): (r: seq<Line>)
    ensures |r| == MAX_BUFFERS_COUNT && forall j :: 0 <= j < |r| ==> r[j] == []
  {
    seq(MAX_BUFFERS_COUNT, _ => [])
  }

  /** One pass of sort_with_buffer's outer loop on a good stream: read a batch,
      trim it, and either stop (when trimming runs past the first slot) or
      sort, merge and clear it. Either way the run from the state after the
      pass ends where the run from the state before it does. */
  method SortBatch(buffers: array<Line>, input: InputFile, out: OutputFile, positions: seq<nat>)
    returns (next: seq<nat>, stopped: bool)
    requires buffers.Length == MAX_BUFFERS_COUNT && !input.fail
    requires input.Valid() && out.Valid() && ValidIndex(MergeState(out.content, out.cursor, positions))
    modifies buffers, input, out
    ensures input.Valid() && out.Valid() && ValidIndex(MergeState(out.content, out.cursor, next))
    ensures Progress(input.State()) < old(Progress(input.State()))
    ensures stopped ==>
      Outcome(input.State(), MergeState(out.content, out.cursor, next), false)
        == Run(old(buffers[..]), old(input.State()), MergeState(old(out.content), old(out.cursor), positions))
    ensures !stopped ==>
      Run(buffers[..], input.State(), MergeState(out.content, out.cursor, next))
        == Run(old(buffers[..]), old(input.State()), MergeState(old(out.content), old(out.cursor), positions))
  {
    next := positions;
    var used := ReadBatch(buffers, input);
    var kept := TrimEmpty(buffers, used);
    if kept.None? {
      return next, true;
    }
    var k := kept.value;
    SortPrefix(buffers, k);
    next := MergeBufferToFile(buffers, k, positions, out);
    ClearPrefix(buffers, k);
    stopped := false;
  }

  /** sort_with_buffer over an opened input and output stream. */
  method SortWithBuffer(input: InputFile, out: OutputFile) returns (positions: seq<nat>, completed: bool)
    requires input.Valid() && out.Valid()
    modifies input, out
    ensures input.Valid() && out.Valid()
    ensures Outcome(input.State(), MergeState(out.content, out.cursor, positions), completed)
      == Run(Blank(), old(input.State()), MergeState(old(out.content), old(out.cursor), []))
  {
    positions := [];
    var buffers := new Line[MAX_BUFFERS_COUNT](_ => []);
    assert buffers[..] == Blank();
    ghost var target := Run(buffers[..], input.State(), MergeState(out.content, out.cursor, positions));
    while !input.fail
      invariant fresh(buffers) && buffers.Length == MAX_BUFFERS_COUNT
      invariant input.Valid() && out.Valid() && ValidIndex(MergeState(out.content, out.cursor, positions))
      invariant Run(buffers[..], input.State(), MergeState(out.content, out.cursor, positions)) == target
      decreases Progress(input.State())
    {
      var stopped;
      positions, stopped := SortBatch(buffers, input, out, positions);
      if stopped {
        completed := false;
        return;
      }
    }
    completed := true;
  }

  /** A run that completes has read its input to the end. */
  lemma {:induction false} RunConsumesInput(slots: seq<Line>, st: InputState, file: MergeState)
    requires |slots| == MAX_BUFFERS_COUNT && ValidInput(st) && ValidIndex(file)
    ensures var r := Run(slots, st, file);
      r.completed ==> r.input.fail && r.input.pos == |st.text|
    decreases Progress(st)
  {
    if !st.fail {
      var b := ReadFrom(slots, 0, st);
      match Trimmed(b.slots, b.used)
      case None =>
      case Some(k) =>
        var sorted := SortedBatch(b.slots, k);
        var marked := Marked(sorted, 0, if file.positions == [] then k else |sorted|);
        RunConsumesInput(Cleared(marked, k), b.input, MergeBuffer(sorted, k, file));
    }
  }

  /** A batch that starts with the stream good and at the end of the text
      reads one empty line and nothing else, and the trimming loop then runs
      past the first slot: the run stops without touching the output. This
      happens at once on an empty input, and after the last full batch when
      the input is a multiple of maxBuffersCount newline-terminated lines. */
  lemma AtEndStops(slots: seq<Line>, st: InputState, file: MergeState)
    requires |slots| == MAX_BUFFERS_COUNT && ValidInput(st) && ValidIndex(file)
    requires !st.eof && !st.fail && st.pos == |st.text|
    ensures Run(slots, st, file) == Outcome(st.(eof := true, fail := true), file, false)
  {
    var b := ReadFrom(slots, 0, st);
    var rd := ReadLine(st, slots[0]);
    assert rd == Read(st.(eof := true, fail := true), []);
    assert b == Batch(slots[0 := []], 1, rd.input);
    assert Trimmed(b.slots, 1) == Trimmed(b.slots, 0) == None;
  }

  /** A batch that starts at the end of the text with eofbit already set, as
      after a last line with no '\n', makes getline fail in its sentry and
      leaves the first slot as it was; when that slot is empty, as resize(0)
      left it, the trimming loop runs past the first slot and the run stops
      without touching the output. */
  lemma EofStops(slots: seq<Line>, st: InputState, file: MergeState)
    requires |slots| == MAX_BUFFERS_COUNT && ValidInput(st) && ValidIndex(file)
    requires st.eof && !st.fail && slots[0] == []
    ensures Run(slots, st, file) == Outcome(st.(fail := true), file, false)
  {
    var b := ReadFrom(slots, 0, st);
    assert b == Batch(slots, 1, st.(fail := true));
    assert Trimmed(b.slots, 1) == Trimmed(b.slots, 0) == None;
  }

  /** An empty input file ends the procedure there. */
  lemma EmptyInputStops(file: MergeState)
    requires ValidIndex(file)
    ensures !Run(Blank(), InputState([], 0, false, false), file).completed
  {
    AtEndStops(Blank(), InputState([], 0, false, false), file);
  }
}
