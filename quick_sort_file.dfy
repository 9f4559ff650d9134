/** quick_sort_file: the baseline sort. It scans the input once for the offset
    of every line, sorts the offsets by the line each one starts, and writes
    the non-empty lines in that order, each followed by '\n'.

    The input file is its text; every read of a line after a seek is LineAt.
    The output std::ofstream is opened with truncation and only appended to,
    so it is the sequence of characters written. */
module QuickSortFile {
  import opened Lines
  import opened Sorting

  /** The offsets just after each '\n' among the first n characters. */
  function NewlineEnds(text: seq<char>, n: nat): (r: seq<nat>)
    requires n <= |text|
    ensures |r| <= n
    ensures forall i :: 0 <= i < |r| ==> 1 <= r[i] <= n && text[r[i] - 1] == '\n'
  {
    if n == 0 then []
    else NewlineEnds(text, n - 1) + (if text[n - 1] == '\n' then [n] else [])
  }

  /** The offset list of the scan: 0, then the offset after every '\n'. */
  function LineStarts(text: seq<char>): (r: seq<nat>)
    ensures 1 <= |r| <= |text| + 1 && r[0] == 0
    ensures forall i :: 0 < i < |r| ==> 1 <= r[i] <= |text| && text[r[i] - 1] == '\n'
  {
    var ends := NewlineEnds(text, |text|);
    assert forall i :: 0 < i < |[0] + ends| ==> ([0] + ends)[i] == ends[i - 1];
    [0] + ends
  }

  /** The number of newlines among the first n characters. */
  function NewlineCount(text: seq<char>, n: nat): nat
    requires n <= |text|
  {
    multiset(text[..n])['\n']
  }

  /** NewlineEnds has one entry per '\n', in increasing order, and holds
      exactly the offsets that follow a '\n'. */
  ghost predicate NewlineEndsHold(text: seq<char>, n: nat)
    requires n <= |text|
  {
    var r := NewlineEnds(text, n);
    && |r| == NewlineCount(text, n)
    && (forall i, j :: 0 <= i < j < |r| ==> r[i] < r[j])
    && (forall p :: p in r <==> 1 <= p <= n && text[p - 1] == '\n')
  }

  /** Scanning one more character keeps NewlineEndsHold. */
  lemma NewlineEndsStep(text: seq<char>, n: nat)
    requires 0 < n <= |text| && NewlineEndsHold(text, n - 1)
    ensures NewlineEndsHold(text, n)
  {
    var r0, r := NewlineEnds(text, n - 1), NewlineEnds(text, n);
    assert text[..n] == text[..n - 1] + [text[n - 1]];
    if text[n - 1] == '\n' {
      assert r == r0 + [n];
      forall i, j | 0 <= i < j < |r| ensures r[i] < r[j] {
        if j < |r0| {
          assert r[i] == r0[i] && r[j] == r0[j];
        } else {
          assert r[i] == r0[i];
        }
      }
    } else {
      assert r == r0;
    }
  }

  lemma {:induction false} NewlineEndsSpec(text: seq<char>, n: nat)
    requires n <= |text|
    ensures var r := NewlineEnds(text, n);
      && |r| == NewlineCount(text, n)
      && (forall i, j :: 0 <= i < j < |r| ==> r[i] < r[j])
      && (forall p :: p in r <==> 1 <= p <= n && text[p - 1] == '\n')
    decreases n
  {
    if n > 0 {
      NewlineEndsSpec(text, n - 1);
      NewlineEndsStep(text, n);
    }
  }

  /** The offset list has one entry more than the text has newlines; it
      strictly increases; and an offset is in it exactly when it is 0 or
      follows a '\n'. */
  lemma LineStartsSpec(text: seq<char>)
    ensures var r := LineStarts(text);
      && |r| == multiset(text)['\n'] + 1
      && r[0] == 0
      && (forall i, j :: 0 <= i < j < |r| ==> r[i] < r[j])
      && (forall i :: 0 <= i < |r| ==> r[i] <= |text|)
      && (forall p :: p in r <==> p == 0 || (1 <= p <= |text| && text[p - 1] == '\n'))
  {
    NewlineEndsSpec(text, |text|);
    assert text[..|text|] == text;
    var r := LineStarts(text);
    forall i, j | 0 <= i < j < |r| ensures r[i] < r[j] {
      if i > 0 {
        assert r[i] == NewlineEnds(text, |text|)[i - 1];
        assert r[j] == NewlineEnds(text, |text|)[j - 1];
      } else {
        assert r[j] == NewlineEnds(text, |text|)[j - 1];
      }
    }
    forall i | 0 <= i < |r| ensures r[i] <= |text| {
      if i > 0 {
        assert r[i] == NewlineEnds(text, |text|)[i - 1];
      }
    }
  }

  /** The offset scan: record 0, then after consuming each '\n' record the
      read position. */
  method ScanOffsets(text: seq<char>) returns (positions: seq<nat>)
    ensures positions == LineStarts(text)
  {
    positions := [0];
    var i := 0;
    while i < |text|
      invariant i <= |text|
      invariant positions == [0] + NewlineEnds(text, i)
    {
      if text[i] == '\n' {
        i := i + 1;
        positions := positions + [i];
      } else {
        i := i + 1;
      }
    }
  }

  /** The comparator's view of an offset: the line getline reads after a seek. */
  function LineKey(text: seq<char>): (key: nat -> Line)
  {
    (o: nat) => LineAt(text, o)
  }

  /** The comparator's key at an offset is the rest of that line: no '\n' in
      it, and it stops at a '\n' or at the end of the text. */
  lemma LineKeyReadsLine(text: seq<char>, o: nat)
    requires o <= |text|
    ensures var key := LineKey(text)(o);
      && '\n' !in key
      && o + |key| <= |text| && key == text[o..o + |key|]
      && (o + |key| == |text| || text[o + |key|] == '\n')
  {
  }

  /** The input's lines, one per recorded offset, as std::getline reads them;
      the last is empty when the text ends with '\n'. */
  function InputLines(text: seq<char>): seq<Line>
  {
    Keys(LineStarts(text), LineKey(text))
  }

  ghost predicate Increasing(r: seq<nat>) {
    forall i, j :: 0 <= i < j < |r| ==> r[i] < r[j]
  }

  /** A reference for the offsets, built from the front: p, then the offsets
      of the lines after the one that starts at p. */
  function StartsFrom(text: seq<char>, p: nat): (r: seq<nat>)
    requires p <= |text|
    decreases |text| - p
  {
    var e := LineEnd(text, p);
    if e == |text| then [p] else [p] + StartsFrom(text, e + 1)
  }

  lemma {:induction false} StartsFromSpec(text: seq<char>, p: nat)
    requires p <= |text|
    ensures Increasing(StartsFrom(text, p))
    ensures forall i :: 0 <= i < |StartsFrom(text, p)| ==> p <= StartsFrom(text, p)[i]
    ensures forall q :: q in StartsFrom(text, p) <==> q == p || (p < q <= |text| && text[q - 1] == '\n')
    decreases |text| - p
  {
    var e := LineEnd(text, p);
    var r := StartsFrom(text, p);
    LineEndSpec(text, p);
    if e < |text| {
      var t := StartsFrom(text, e + 1);
      StartsFromSpec(text, e + 1);
      assert r == [p] + t;
      forall i, j | 0 <= i < j < |r| ensures r[i] < r[j] {
        assert r[j] == t[j - 1];
        if i > 0 {
          assert r[i] == t[i - 1];
        }
      }
      forall q ensures q in r <==> q == p || (p < q <= |text| && text[q - 1] == '\n') {
        assert q in r <==> q == p || q in t;
        if p < q <= e {
          assert text[q - 1] != '\n';
        }
      }
    }
  }

  /** The tail of an increasing sequence is increasing and holds every
      element except the first, which is below all the others. */
  lemma IncreasingTail(a: seq<nat>)
    requires Increasing(a) && a != []
    ensures Increasing(a[1..])
    ensures forall x :: x in a[1..] <==> x in a && x != a[0]
    ensures forall x :: x in a ==> a[0] <= x
  {
    forall x | x in a ensures a[0] <= x && (x in a[1..] <==> x != a[0]) {
      var k :| 0 <= k < |a| && a[k] == x;
      if k > 0 {
        assert a[1..][k - 1] == x;
      }
    }
  }

  /** The head of a non-empty sequence is one of its elements. Called where the
      other facts in scope already clash once b[0] is mentioned, so the fact
      has to arrive as a lemma's ensures rather than as a checked assertion. */
  lemma FirstIn(b: seq<nat>)
    requires b != []
    ensures b[0] in b
  {
  }

  /** Two strictly increasing sequences with the same elements are equal. */
  lemma {:induction false} IncreasingUnique(a: seq<nat>, b: seq<nat>)
    requires Increasing(a) && Increasing(b)
    requires forall x :: x in a <==> x in b
    ensures a == b
    decreases |a|
  {
    if a == [] {
      if b != [] {
        FirstIn(b);
        assert false;
      }
    } else {
      FirstIn(a);
      if b == [] {
        assert false;
      }
      FirstIn(b);
      IncreasingTail(a);
      IncreasingTail(b);
      assert a[0] == b[0];
      IncreasingUnique(a[1..], b[1..]);
      assert a == [a[0]] + a[1..] && b == [b[0]] + b[1..];
    }
  }

  /** The scan's offsets are the ones the front-to-back reference finds. */
  lemma LineStartsFromFront(text: seq<char>)
    ensures LineStarts(text) == StartsFrom(text, 0)
  {
    LineStartsSpec(text);
    StartsFromSpec(text, 0);
    IncreasingUnique(LineStarts(text), StartsFrom(text, 0));
  }

  /** The lines of the text from an offset that starts a line on. */
  function LinesFrom(text: seq<char>, p: nat): (r: seq<Line>)
    requires p <= |text|
    decreases |text| - p
  {
    var e := LineEnd(text, p);
    [text[p..e]] + (if e == |text| then [] else LinesFrom(text, e + 1))
  }

  /** The first reference offset from p reads the line that starts at p, so
      the lines read from p on are that line and the lines read after it. */
  lemma KeysStartsFromStep(text: seq<char>, p: nat)
    requires p <= |text|
    requires LineEnd(text, p) < |text| ==>
      Keys(StartsFrom(text, LineEnd(text, p) + 1), LineKey(text)) == LinesFrom(text, LineEnd(text, p) + 1)
    ensures Keys(StartsFrom(text, p), LineKey(text)) == LinesFrom(text, p)
  {
    var e, key := LineEnd(text, p), LineKey(text);
    assert Keys([p], key) == [text[p..e]];
    if e < |text| {
      KeysAppend([p], StartsFrom(text, e + 1), key);
    }
  }

  /** Reading a line at each of the reference offsets gives those lines. */
  lemma {:induction false} KeysStartsFrom(text: seq<char>, p: nat)
    requires p <= |text|
    ensures Keys(StartsFrom(text, p), LineKey(text)) == LinesFrom(text, p)
    decreases |text| - p
  {
    var e := LineEnd(text, p);
    if e < |text| {
      KeysStartsFrom(text, e + 1);
    }
    KeysStartsFromStep(text, p);
  }

  lemma SplitAtNewline(text: seq<char>, p: nat, e: nat)
    requires p <= e < |text| && text[e] == '\n'
    ensures text[p..e] + ['\n'] + (text[e + 1..] + ['\n']) == text[p..] + ['\n']
  {
    assert text[p..] == text[p..e] + [text[e]] + text[e + 1..];
  }

  lemma TerminatedCons(line: Line, ls: seq<Line>)
    ensures Terminated([line] + ls) == line + ['\n'] + Terminated(ls)
  {
    assert ([line] + ls)[1..] == ls;
  }

  /** The line from p and its '\n', followed by the rest of the text spelled
      out line by line, spell the text from p. */
  lemma LinesFromJoinStep(text: seq<char>, p: nat)
    requires p <= |text|
    requires LineEnd(text, p) < |text| ==>
      Terminated(LinesFrom(text, LineEnd(text, p) + 1)) == text[LineEnd(text, p) + 1..] + ['\n']
    ensures Terminated(LinesFrom(text, p)) == text[p..] + ['\n']
  {
    var e := LineEnd(text, p);
    var line := text[p..e];
    LineEndSpec(text, p);
    if e == |text| {
      TerminatedCons(line, []);
      assert LinesFrom(text, p) == [line] + [];
      assert line == text[p..];
    } else {
      var rest := LinesFrom(text, e + 1);
      assert LinesFrom(text, p) == [line] + rest;
      TerminatedCons(line, rest);
      SplitAtNewline(text, p, e);
    }
  }

  /** The lines from p, each with its '\n', spell the rest of the text and
      one '\n'. */
  lemma {:induction false} LinesFromJoin(text: seq<char>, p: nat)
    requires p <= |text|
    ensures Terminated(LinesFrom(text, p)) == text[p..] + ['\n']
    decreases |text| - p
  {
    var e := LineEnd(text, p);
    if e < |text| {
      LinesFromJoin(text, e + 1);
    }
    LinesFromJoinStep(text, p);
  }

  /** The lines at the scan's offsets, each followed by '\n', are the input
      with one '\n' added: the offsets cut the text into exactly its lines. */
  lemma InputLinesJoin(text: seq<char>)
    ensures Terminated(InputLines(text)) == text + ['\n']
  {
    LineStartsFromFront(text);
    KeysStartsFrom(text, 0);
    LinesFromJoin(text, 0);
    assert text[0..] == text;
  }

  /** Lines free of '\n', with the empty ones skipped and the others each
      followed by '\n', hold one '\n' per non-empty line. */
  lemma {:induction false} NonEmptyNewlines(ls: seq<Line>)
    requires forall i :: 0 <= i < |ls| ==> '\n' !in ls[i]
    ensures multiset(Terminated(NonEmpty(ls)))['\n'] + multiset(ls)[[]] == |ls|
    decreases |ls|
  {
    if ls != [] {
      NonEmptyNewlines(ls[1..]);
      assert ls == [ls[0]] + ls[1..];
      assert multiset(ls) == multiset{ls[0]} + multiset(ls[1..]);
      if ls[0] == [] {
        assert NonEmpty(ls) == NonEmpty(ls[1..]);
      } else {
        assert NonEmpty(ls) == [ls[0]] + NonEmpty(ls[1..]);
        TerminatedCons(ls[0], NonEmpty(ls[1..]));
        assert multiset(ls[0])['\n'] == 0;
        calc {
          multiset(Terminated(NonEmpty(ls)));
          multiset(ls[0] + ['\n'] + Terminated(NonEmpty(ls[1..])));
          multiset(ls[0]) + multiset{'\n'} + multiset(Terminated(NonEmpty(ls[1..])));
        }
      }
    }
  }

  /** The text the output loop writes for the offsets in order: each line read
      there, with its '\n', skipping the empty ones. */
  function Emitted(text: seq<char>, order: seq<nat>): seq<char>
  {
    Terminated(NonEmpty(Keys(order, LineKey(text))))
  }

  /** The output holds one '\n' for every offset whose line is not empty. */
  lemma EmittedNewlines(text: seq<char>, order: seq<nat>)
    ensures multiset(Emitted(text, order))['\n'] + multiset(Keys(order, LineKey(text)))[[]] == |order|
  {
    NonEmptyNewlines(Keys(order, LineKey(text)));
  }

  /** The text written for the first i + 1 offsets is the text written for
      the first i, then the i-th line and its '\n' unless that line is empty. */
  lemma EmitStep(text: seq<char>, order: seq<nat>, i: nat)
    requires i < |order|
    ensures LineAt(text, order[i]) == [] ==> Emitted(text, order[..i + 1]) == Emitted(text, order[..i])
    ensures LineAt(text, order[i]) != [] ==>
      Emitted(text, order[..i + 1]) == Emitted(text, order[..i]) + LineAt(text, order[i]) + ['\n']
  {
    var key, s := LineKey(text), LineAt(text, order[i]);
    assert order[..i + 1] == order[..i] + [order[i]];
    KeysAppend(order[..i], [order[i]], key);
    assert Keys([order[i]], key) == [s];
    NonEmptyAppend(Keys(order[..i], key), [s]);
    assert NonEmpty([s]) == (if s == [] then [] else [s]) by {
      assert [s][1..] == [];
    }
    TerminatedAppend(NonEmpty(Keys(order[..i], key)), NonEmpty([s]));
    assert Terminated([s]) == s + ['\n'] by {
      assert [s][1..] == [];
    }
  }

  /** The output loop: for each offset in order, read its line, skip it when it
      is empty, and otherwise write it and a '\n'. */
  method EmitLines(text: seq<char>, order: seq<nat>) returns (output: seq<char>)
    ensures output == Emitted(text, order)
  {
    output := [];
    for i := 0 to |order|
      invariant output == Emitted(text, order[..i])
    {
      var s := LineAt(text, order[i]);
      EmitStep(text, order, i);
      if s == [] {
        continue;
      }
      output := output + s + ['\n'];
    }
    assert order[..|order|] == order;
  }

  /** The lines quick_sort_file writes, one reference definition: the
      non-empty lines of the input, sorted. */
  function SortedNonEmptyLines(text: seq<char>): seq<Line>
  {
    SortBy(NonEmpty(InputLines(text)), Id)
  }

  /** Those lines are in order and are the input's non-empty lines, each as
      often as it occurs. */
  lemma SortedNonEmptyLinesSpec(text: seq<char>)
    ensures var ls := SortedNonEmptyLines(text);
      && Sorted(ls)
      && multiset(ls) == multiset(InputLines(text))[[] := 0]
  {
    var ls := SortedNonEmptyLines(text);
    SortBySorted(NonEmpty(InputLines(text)), Id);
    NonEmptyCounts(InputLines(text));
  }

  /** Sorting the offsets by their lines and then reading the lines gives the
      sorted non-empty lines, whatever the order std::sort leaves equal lines in. */
  lemma {:induction false} OffsetSortGivesSortedLines(text: seq<char>)
    ensures NonEmpty(Keys(SortBy(LineStarts(text), LineKey(text)), LineKey(text))) == SortedNonEmptyLines(text)
  {
    var key := LineKey(text);
    var order := SortBy(LineStarts(text), key);
    var lines := Keys(order, key);
    SortBySorted(LineStarts(text), key);
    SortedByKeys(order, key);
    KeysPermutation(order, LineStarts(text), key);
    NonEmptySorted(lines);
    NonEmptyCounts(lines);
    NonEmptyCounts(InputLines(text));
    SortedNonEmptyLinesSpec(text);
    SortedUnique(NonEmpty(lines), SortedNonEmptyLines(text));
  }

  /** quick_sort_file over the input's text, returning what it writes to the
      output file. */
  method QuickSort(text: seq<char>) returns (output: seq<char>)
    ensures output == Terminated(SortedNonEmptyLines(text))
  {
    var positions := ScanOffsets(text);
    positions := SortBy(positions, LineKey(text));
    output := EmitLines(text, positions);
    OffsetSortGivesSortedLines(text);
    assert output == Terminated(NonEmpty(Keys(positions, LineKey(text))));
  }
}
