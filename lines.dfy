/** Lines of text as std::getline sees them, and the byte order std::string's
    operator< puts on them. Characters stand for bytes; the model does not
    restrict them to 0..255, and it compares two chars as unsigned values,
    which is what std::char_traits<char> does with bytes. */
module Lines {

  /** The bytes of one line, without its terminating '\n'. */
  type Line = seq<char>

  /** std::string operator<: byte-lexicographic, a proper prefix before its extensions. */
  predicate Less(a: Line, b: Line)
    ensures Less(a, b) ==> a != b
    ensures |a| < |b| && a == b[..|a|] ==> Less(a, b)
    decreases |a|
  {
    if |b| == 0 then false
    else if |a| == 0 then true
    else if a[0] != b[0] then a[0] < b[0]
    else Less(a[1..], b[1..])
  }

  /** The textbook definition of lexicographic order, as a reference for Less. */
  ghost predicate LexBefore(a: Line, b: Line) {
    (|a| < |b| && a == b[..|a|])
    || exists k :: 0 <= k < |a| && k < |b| && a[..k] == b[..k] && a[k] < b[k]
  }

  lemma {:induction false} LessIsLexBefore(a: Line, b: Line)
    ensures Less(a, b) <==> LexBefore(a, b)
    decreases |a|
  {
    if |a| > 0 && |b| > 0 {
      if a[0] == b[0] {
        LessIsLexBefore(a[1..], b[1..]);
        if LexBefore(a[1..], b[1..]) {
          if |a[1..]| < |b[1..]| && a[1..] == b[1..][..|a[1..]|] {
            assert a == b[..|a|] by {
              assert a == [a[0]] + a[1..];
              assert b[..|a|] == [b[0]] + b[1..][..|a[1..]|];
            }
          } else {
            var k :| 0 <= k < |a[1..]| && k < |b[1..]| && a[1..][..k] == b[1..][..k] && a[1..][k] < b[1..][k];
            assert a[..k + 1] == [a[0]] + a[1..][..k];
            assert b[..k + 1] == [b[0]] + b[1..][..k];
            assert a[k + 1] < b[k + 1];
          }
        }
        if LexBefore(a, b) {
          if |a| < |b| && a == b[..|a|] {
            assert a[1..] == b[1..][..|a[1..]|];
          } else {
            var k :| 0 <= k < |a| && k < |b| && a[..k] == b[..k] && a[k] < b[k];
            assert k > 0;
            assert a[1..][..k - 1] == a[..k][1..];
            assert b[1..][..k - 1] == b[..k][1..];
            assert a[1..][k - 1] < b[1..][k - 1];
          }
        }
      } else {
        if a[0] < b[0] {
          assert a[..0] == b[..0];
        }
      }
    } else if |a| == 0 && |b| > 0 {
      assert a == b[..0];
    }
  }

  lemma {:induction false} LessIrreflexive(a: Line)
    ensures !Less(a, a)
    decreases |a|
  {
    if |a| > 0 {
      LessIrreflexive(a[1..]);
    }
  }

  lemma {:induction false} LessTransitive(a: Line, b: Line, c: Line)
    requires Less(a, b) && Less(b, c)
    ensures Less(a, c)
    decreases |a|
  {
    if |a| > 0 && a[0] == b[0] && b[0] == c[0] {
      LessTransitive(a[1..], b[1..], c[1..]);
    }
  }

  /** Any two distinct lines are ordered one way or the other. */
  lemma {:induction false} LessTotal(a: Line, b: Line)
    ensures a == b || Less(a, b) || Less(b, a)
    decreases |a|
  {
    if |a| > 0 && |b| > 0 && a[0] == b[0] {
      LessTotal(a[1..], b[1..]);
      if a[1..] == b[1..] {
        assert a == [a[0]] + a[1..];
        assert b == [b[0]] + b[1..];
      }
    }
  }

  lemma LessAsymmetric(a: Line, b: Line)
    requires Less(a, b)
    ensures !Less(b, a)
  {
    if Less(b, a) {
      LessTransitive(a, b, a);
      LessIrreflexive(a);
    }
  }

  /** "Not after" is transitive: a <= b <= c gives a <= c. */
  lemma NotAfterTransitive(a: Line, b: Line, c: Line)
    requires !Less(b, a) && !Less(c, b)
    ensures !Less(c, a)
  {
    if Less(c, a) {
      LessTotal(a, b);
      if a != b {
        LessTransitive(c, a, b);
      }
    }
  }

  /** Non-decreasing in the order std::sort establishes with operator<: no later
      line is less than an earlier one. */
  ghost predicate Sorted(ls: seq<Line>) {
    forall i, j :: 0 <= i < j < |ls| ==> !Less(ls[j], ls[i])
  }

  /** Offset of the first '\n' at or after pos, or the end of the text:
      where std::getline started at pos stops. */
  function LineEnd(text: seq<char>, pos: nat): (e: nat)
    requires pos <= |text|
    ensures pos <= e <= |text|
    decreases |text| - pos
  {
    if pos == |text| || text[pos] == '\n' then pos else LineEnd(text, pos + 1)
  }

  /** LineEnd stops at the first '\n' at or after pos: none before it, and
      one there unless the text ended. */
  lemma {:induction false} LineEndSpec(text: seq<char>, pos: nat)
    requires pos <= |text|
    ensures var e := LineEnd(text, pos);
      && (forall i :: pos <= i < e ==> text[i] != '\n')
      && (e < |text| ==> text[e] == '\n')
    decreases |text| - pos
  {
    if pos < |text| && text[pos] != '\n' {
      LineEndSpec(text, pos + 1);
    }
  }

  /** The line std::getline reads after a seek to pos; nothing past the end. */
  function LineAt(text: seq<char>, pos: nat): (line: Line)
    ensures '\n' !in line
    ensures pos <= |text| ==> pos + |line| <= |text| && line == text[pos..pos + |line|]
    ensures pos <= |text| ==> pos + |line| == |text| || text[pos + |line|] == '\n'
  {
    if pos <= |text| then
      LineEndSpec(text, pos);
      text[pos..LineEnd(text, pos)]
    else []
  }

  /** Where std::getline leaves the read position: past the '\n' it consumed,
      or at the end of the text when there was none. */
  function AfterLine(text: seq<char>, pos: nat): (next: nat)
    requires pos <= |text|
    ensures pos <= next <= |text|
    ensures pos < |text| ==> pos < next
    ensures next == if pos + |LineAt(text, pos)| < |text| then pos + |LineAt(text, pos)| + 1 else |text|
  {
    LineEndSpec(text, pos);
    var e := LineEnd(text, pos);
    if e < |text| then e + 1 else e
  }

  /** Each line followed by '\n', concatenated: what writing the lines one by
      one produces. */
  function Terminated(ls: seq<Line>): seq<char>
  {
    if ls == [] then [] else ls[0] + ['\n'] + Terminated(ls[1..])
  }

  lemma {:induction false} TerminatedAppend(a: seq<Line>, b: seq<Line>)
    ensures Terminated(a + b) == Terminated(a) + Terminated(b)
    decreases |a|
  {
    if a == [] {
      assert a + b == b;
    } else {
      assert (a + b)[1..] == a[1..] + b;
      TerminatedAppend(a[1..], b);
    }
  }

  /** The lines that are not empty, in their order. */
  function NonEmpty(ls: seq<Line>): seq<Line>
  {
    if ls == [] then []
    else (if ls[0] == [] then [] else [ls[0]]) + NonEmpty(ls[1..])
  }

  lemma {:induction false} NonEmptyCounts(ls: seq<Line>)
    ensures multiset(NonEmpty(ls)) == multiset(ls)[[] := 0]
    decreases |ls|
  {
    if ls != [] {
      NonEmptyCounts(ls[1..]);
      assert ls == [ls[0]] + ls[1..];
    }
  }

  lemma {:induction false} NonEmptyAppend(a: seq<Line>, b: seq<Line>)
    ensures NonEmpty(a + b) == NonEmpty(a) + NonEmpty(b)
    decreases |a|
  {
    if a == [] {
      assert a + b == b;
    } else {
      assert (a + b)[1..] == a[1..] + b;
      NonEmptyAppend(a[1..], b);
    }
  }

  /** Dropping lines keeps the rest in order. */
  lemma {:induction false} NonEmptySorted(ls: seq<Line>)
    requires Sorted(ls)
    ensures Sorted(NonEmpty(ls))
    decreases |ls|
  {
    if ls != [] {
      assert Sorted(ls[1..]);
      NonEmptySorted(ls[1..]);
      NonEmptySortedStep(ls);
    }
  }

  /** The head of a sorted sequence is not after any line kept from its tail,
      so putting it back in front of the kept lines keeps them sorted. */
  lemma NonEmptySortedStep(ls: seq<Line>)
    requires ls != [] && Sorted(ls) && Sorted(NonEmpty(ls[1..]))
    ensures Sorted(NonEmpty(ls))
  {
    var rest := NonEmpty(ls[1..]);
    if ls[0] == [] {
      assert NonEmpty(ls) == rest;
    } else {
      NonEmptyCounts(ls[1..]);
      forall j | 0 <= j < |rest| ensures !Less(rest[j], ls[0]) {
        assert rest[j] in multiset(rest);
        assert rest[j] in multiset(ls[1..]);
        var k :| 0 <= k < |ls[1..]| && ls[1..][k] == rest[j];
        assert ls[k + 1] == rest[j];
      }
      var r := NonEmpty(ls);
      assert r == [ls[0]] + rest;
      forall i, j | 0 <= i < j < |r| ensures !Less(r[j], r[i]) {
        assert r[j] == rest[j - 1];
        if i > 0 {
          assert r[i] == rest[i - 1];
        }
      }
    }
  }
}
