/** The output std::fstream of sort_with_buffer, opened for reading and writing.
    A file stream keeps one position for seekg and seekp, so the model has one
    cursor. A write replaces the bytes under the cursor and extends the file only
    by what runs past its end; it never shifts the bytes that follow. */
module OutputFileModel {
  import opened Lines

  /** content after writing s at offset at. */
  function Overwrite(content: seq<char>, at: nat, s: seq<char>): (r: seq<char>)
    requires at <= |content|
    ensures |r| == if at + |s| <= |content| then |content| else at + |s|
  {
    content[..at] + s + (if at + |s| < |content| then content[at + |s|..] else [])
  }

  /** The bytes at at .. at + |s| - 1 become s; every other byte of the file
      keeps its value. */
  lemma OverwriteEffect(content: seq<char>, at: nat, s: seq<char>)
    requires at <= |content|
    ensures var r := Overwrite(content, at, s);
      && (forall i :: 0 <= i < |s| ==> r[at + i] == s[i])
      && (forall i :: 0 <= i < |content| && !(at <= i < at + |s|) ==> r[i] == content[i])
  {
  }

  /** Writing s and then t straight after it is writing s + t. */
  lemma OverwriteTwice(content: seq<char>, at: nat, s: seq<char>, t: seq<char>)
    requires at <= |content|
    ensures Overwrite(Overwrite(content, at, s), at + |s|, t) == Overwrite(content, at, s + t)
  {
    var once := Overwrite(content, at, s);
    var l, r := Overwrite(once, at + |s|, t), Overwrite(content, at, s + t);
    OverwriteEffect(content, at, s);
    OverwriteEffect(once, at + |s|, t);
    OverwriteEffect(content, at, s + t);
    assert |l| == |r|;
    forall i | 0 <= i < |l| ensures l[i] == r[i] {
      if at <= i < at + |s| {
        assert l[i] == once[i] == s[i - at] == (s + t)[i - at];
      } else if at + |s| <= i < at + |s| + |t| {
        assert l[i] == t[i - at - |s|] == (s + t)[i - at];
      }
    }
  }

  class OutputFile {
    var content: seq<char>
    var cursor: nat

    ghost predicate Valid()
      reads this
    {
      cursor <= |content|
    }

    /** A stream opened on a file that already holds existing. */
    constructor (existing: seq<char>)
      ensures Valid() && content == existing && cursor == 0
    {
      content := existing;
      cursor := 0;
    }

    /** seekg / seekp. */
    method Seek(pos: nat)
      requires pos <= |content|
      modifies this`cursor
      ensures cursor == pos
    {
      cursor := pos;
    }

    /** write(buf, size) at the cursor; tellp() is then the cursor. */
    method Write(s: seq<char>)
      requires Valid()
      modifies this
      ensures Valid()
      ensures content == Overwrite(old(content), old(cursor), s)
      ensures cursor == old(cursor) + |s|
    {
      content := Overwrite(content, cursor, s);
      cursor := cursor + |s|;
    }

    /** The comparator sort_with_buffer hands to merge_buffer_to_file: seek to
        pos, read one line with std::getline, and report whether that line is
        less than str. Only the cursor moves. */
    method Compare(pos: nat, str: Line) returns (less: bool)
      requires Valid() && pos <= |content|
      modifies this`cursor
      ensures Valid() && content == old(content)
      ensures less <==> Less(LineAt(content, pos), str)
      ensures cursor == AfterLine(content, pos)
    {
      Seek(pos);
      var line := LineAt(content, cursor);
      cursor := AfterLine(content, cursor);
      less := Less(line, str);
    }
  }
}
