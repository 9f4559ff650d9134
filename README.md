# SortingFile in Dafny

SortingFile sorts the lines of a text file in two ways. Both are in
`SortingFile/main.cpp`.

- `sort_with_buffer` is a bounded-batch external sort. It reads at most
  `maxBuffersCount` (50) lines into a fixed array, drops the trailing empty
  slots, sorts the rest with `std::sort`, and merges them into the output
  file with `merge_buffer_to_file`. A vector of file offsets (`positions`)
  indexes the output.
- `quick_sort_file` is the baseline. It scans the input once for the offset
  of every line, sorts the offsets by the line each one starts, and writes
  the non-empty lines in that order, each followed by `'\n'`.

The model follows the code as written, including the places where it does not
do what an external merge sort would:

- an inserted line overwrites the bytes at an offset; it does not shift the
  rest of the file;
- the batch cursor runs to the array size (50), not to the number of used
  slots, so unused slots are merged too;
- the bound on the offsets cursor is taken once, before the loop;
- an offset is taken with `tellp()` after a line's `'\n'`, so it marks where
  the next line starts, while the comparator reads the line that starts at
  the offset.

Because of these, the output of `sort_with_buffer` is not sorted in general,
and no such property is claimed. `BufferMerge.SecondBatchOverwritesLine`
exhibits one input where a line is lost.

Files:

- `lines.dfy` (module `Lines`): lines as `std::getline` reads them, and
  `std::string`'s `operator<`.
- `sorting.dfy` (module `Sorting`): `std::sort` by a line key, stood in for
  by an insertion sort proved to give a sorted permutation.
- `output_file.dfy` (module `OutputFileModel`): the output `std::fstream` as
  a byte sequence with one cursor. A file stream shares one position between
  `seekg` and `seekp`.
- `buffer_merge.dfy` (module `BufferMerge`): `merge_buffer_to_file`.
  - The functions `MergeBuffer`, `MergeFrom`, `AppendRun` and `InsertLine`
    give its effect on the file's bytes, the cursor and the offsets.
  - The method `MergeBufferToFile` runs merge_buffer_to_file's loops over an array of
    slots and an `OutputFile`. It is proved to end in the state `MergeBuffer`
    gives.
- `sort_with_buffer.dfy` (module `BatchDriver`): the batch loop of
  `sort_with_buffer` and the input `std::ifstream` with its eofbit and
  failbit.
  - `Run` is the whole procedure over values.
  - The method `SortWithBuffer` is proved to end in the state `Run` gives.
- `quick_sort_file.dfy` (module `QuickSortFile`): `quick_sort_file`. It is
  proved to write exactly the input's non-empty lines, sorted, each followed
  by `'\n'`.

The comparator of `sort_with_buffer` is `OutputFile.Compare`. It is used by
`MergeStep`, the method that runs one pass of the merge loop.

## Model

| member | source | states |
|---|---|---|
| Lines.Less | SortingFile/main.cpp:118 | A line is never less than an equal line, and a proper prefix of a line is less than the line. |
| Lines.LessIsLexBefore | SortingFile/main.cpp:118 | The line comparison holds exactly when the first line is a proper prefix of the second, or the two first differ at a byte where the first has the smaller byte. This is the textbook lexicographic order, in both directions. |
| Lines.LessIrreflexive | SortingFile/main.cpp:118 | No line is less than itself. |
| Lines.LessTransitive | SortingFile/main.cpp:118 | The line order is transitive. |
| Lines.LessTotal | SortingFile/main.cpp:118 | Of two distinct lines, one is less than the other, so sorting by it is well defined. |
| Lines.LineEndSpec | SortingFile/main.cpp:117 | getline from an offset stops at the first '\n' at or after it, or at the end of the text: there is no '\n' before that point, and there is one at it unless the text ended. |
| Lines.LineAt | SortingFile/main.cpp:115-117 | The line read after a seek holds no '\n' and is the bytes of the text from the offset on. It stops only at the end of the text or just before a '\n'. |
| Lines.AfterLine | SortingFile/main.cpp:117 | After getline the read position is one past the line's '\n' when the line ends before the end of the text. Otherwise it is the end of the text. It always moves forward unless it was already at the end. |
| Lines.NonEmptyCounts | SortingFile/main.cpp:179-180 | Skipping empty lines keeps every other line exactly as often as it occurred, and drops every empty line. |
| Lines.NonEmptySorted | SortingFile/main.cpp:179-180 | Skipping empty lines keeps the remaining lines in order. |
| Sorting.SortBy | SortingFile/main.cpp:109 | The sort's result is a permutation of its input. |
| Sorting.SortBySorted | SortingFile/main.cpp:109 | The sort's result is in non-decreasing key order. |
| Sorting.KeysPermutation | SortingFile/main.cpp:154-169 | Permuting the offsets permutes the lines they point to: equal multisets of elements give equal multisets of keys. |
| Sorting.SortedUnique | SortingFile/main.cpp:109 | Two sorted sequences of lines with the same lines are equal. So whichever order std::sort leaves equal elements in, the sorted lines are the same. |
| OutputFileModel.Overwrite | SortingFile/main.cpp:36 | A write at an offset leaves the file as long as it was, or as long as the write's end when that is past the old end. |
| OutputFileModel.OverwriteEffect | SortingFile/main.cpp:70-76 | A write at an offset makes the bytes from that offset equal to the written bytes. Every other byte of the file keeps its value. |
| OutputFileModel.OverwriteTwice | SortingFile/main.cpp:52-58 | Two writes, the second starting where the first ended, are one write of both. |
| OutputFileModel.OutputFile.constructor | SortingFile/main.cpp:90 | A stream opened on an existing file holds its bytes, with the cursor at 0. |
| OutputFileModel.OutputFile.Seek | SortingFile/main.cpp:71 | seekp/seekg move the one shared cursor and nothing else. |
| OutputFileModel.OutputFile.Write | SortingFile/main.cpp:36 | write() replaces the bytes under the cursor, extends the file only by the overhang, and moves the cursor past what was written. |
| OutputFileModel.OutputFile.Compare | SortingFile/main.cpp:112-121 | The comparator returns true exactly when the line that starts at the offset is less than the batch line. The file's bytes are unchanged, and the cursor ends after that line. |
| BufferMerge.WriteLine | SortingFile/main.cpp:55-56 | Writing a slot with its pushed-back '\n' keeps every offset inside the file, never shrinks the file, leaves the offsets alone, and moves the cursor past the line and its '\n'. |
| BufferMerge.AppendLine | SortingFile/main.cpp:55-57 | One pass of an append loop does the same and also records an offset, keeping the offsets inside the file. |
| BufferMerge.AppendRun | SortingFile/main.cpp:32-38 | An append loop over the slots start .. stop - 1 keeps every offset inside the file, never shrinks the file, and records exactly one offset per slot. The tail loop at lines 52-58 is the same run. |
| BufferMerge.Marked | SortingFile/main.cpp:35 | Marking the slots that got push_back('\n') keeps the number of slots. |
| BufferMerge.MarkedSlots | SortingFile/main.cpp:55 | Every slot keeps its bytes as a prefix. The marked slots gain exactly one '\n' after their bytes, and the others keep their length. |
| BufferMerge.InsertAt | SortingFile/main.cpp:78-79 | After emplace and the store through the next iterator, the offsets vector is one longer. Entries before k are unchanged, k holds the old offset, k + 1 holds the new one, and every later entry moved up one index with its value unchanged. |
| BufferMerge.InsertLine | SortingFile/main.cpp:69-79 | The insertion branch keeps every offset within the file, never shrinks the file, and adds exactly one offset. |
| BufferMerge.InsertLineEffect | SortingFile/main.cpp:69-79 | The insertion branch writes the batch line and its '\n' over the bytes at the k-th offset and leaves every other byte unchanged. The file grows only by the overhang past its end. The cursor ends just after the '\n', and the offsets are InsertAt of the old offset and the offset after the new line. |
| BufferMerge.MergeFrom | SortingFile/main.cpp:42-83 | The merge loop ends with every offset inside the file. The file has not shrunk, and the offsets vector has grown by exactly one entry per batch slot left, whichever branches were taken. |
| BufferMerge.MergeBuffer | SortingFile/main.cpp:21-84 | A merge grows the offsets vector by the used slots for a first batch, and by the whole array otherwise. |
| BufferMerge.AppendRunWrites | SortingFile/main.cpp:32-38 | The append loop writes the lines one after another at the cursor, each with its '\n', and leaves the cursor after the last one. |
| BufferMerge.RunEnds | SortingFile/main.cpp:37 | The offsets recorded while appending a run lie past the starting cursor and strictly increase. |
| BufferMerge.RunEndsAt | SortingFile/main.cpp:37 | The k-th offset of a run is the starting cursor plus the length of the first k + 1 lines with their '\n's. |
| BufferMerge.AppendRunOffsets | SortingFile/main.cpp:57 | The append loop keeps the old offsets and adds one offset per line written, in order. |
| BufferMerge.FirstBatch | SortingFile/main.cpp:30-39 | With no offsets yet, the used lines are written one after another at the cursor, each with its '\n'. The vector gets exactly one offset per used line, the cursor just after that line, so the offsets strictly increase. |
| BufferMerge.TailRun | SortingFile/main.cpp:50-61 | Once the offsets cursor reaches the bound fixed before the loop, every remaining slot up to the array's end is written at the cursor with its '\n', used or not. Each adds one trailing offset, and the merge ends. |
| BufferMerge.LineAtWritten | SortingFile/main.cpp:115-117 | Where a line and its '\n' were written, the comparator reads back that line. |
| BufferMerge.InsertSameLine | SortingFile/main.cpp:69-76 | Writing a line over a copy of itself leaves the file's bytes as they were. |
| BufferMerge.CopyStep | SortingFile/main.cpp:63-81 | Where the offset under first2 starts a copy of the batch line, the comparator answers "not less", and the insertion branch leaves the file's bytes unchanged. |
| BufferMerge.RepeatedLineStays | SortingFile/main.cpp:48-83 | While the offset under first2 starts a copy of x, batch slots holding x are all written over that same copy and first2 never moves, so the file's bytes do not change. |
| BufferMerge.SecondBatchOverwritesLine | SortingFile/main.cpp:42-83 | A first batch "a", "c" gives the file "a\nc\n" with offsets [2, 4]. The comparator reads "c" at offset 2, not "a". A second batch of fifty "b" then writes "b" over "c", and every later "b" over that same spot. The file ends as "a\nb\n" with 52 offsets: "c" is lost. |
| BufferMerge.AppendSlots | SortingFile/main.cpp:32-38 | The append loop over the slots start .. stop - 1 ends in the state AppendRun gives, and exactly those slots have the pushed-back '\n'. |
| BufferMerge.InsertSlot | SortingFile/main.cpp:69-79 | The not-less branch ends in the state InsertLine gives, and only slot i changes: it gains its '\n'. |
| BufferMerge.MergeTail | SortingFile/main.cpp:50-61 | The tail loop appends the slots from first1 to the end of the array, as AppendRun gives, and marks them all. |
| BufferMerge.MergeStep | SortingFile/main.cpp:63-82 | One pass of the loop either advances first2 or advances first1, never both, so the measure (last1 - first1) + (last2 - first2) drops. The rest of the merge from the new state ends where it did from the old one. |
| BufferMerge.MergeLoop | SortingFile/main.cpp:42-83 | The merge loop ends in the state MergeFrom gives, with every slot of the array marked. |
| BufferMerge.MergeBufferToFile | SortingFile/main.cpp:21-84 | merge_buffer_to_file ends in the state MergeBuffer gives. The slots it reached, the used ones of a first batch or the whole array otherwise, end with the pushed-back '\n'. |
| BatchDriver.ReadLine | SortingFile/main.cpp:104 | getline keeps the stream state consistent (eofbit only at the end, failbit only with eofbit). On a stream without failbit it always makes progress, so the loops end. |
| BatchDriver.ReadLineCases | SortingFile/main.cpp:104 | On a stream that is not good, getline sets failbit and leaves the slot alone. At the end of the text it empties the slot and sets failbit. Otherwise it reads the line at the position and moves past it, setting eofbit exactly when the line ran to the end of the text. |
| BatchDriver.InputFile.constructor | SortingFile/main.cpp:89 | A freshly opened input is at offset 0 with neither bit set. |
| BatchDriver.InputFile.GetLine | SortingFile/main.cpp:104 | getline on the stream object has the effect ReadLine gives. |
| BatchDriver.ReadFrom | SortingFile/main.cpp:102-104 | A batch uses at most 50 slots and keeps the stream state consistent. It makes progress when it starts with a free slot on a stream without failbit. |
| BatchDriver.ReadFromBounds | SortingFile/main.cpp:102-104 | A batch read from a stream without failbit uses at least one slot. It stops short of 50 only on failbit. The slots it did not reach keep their contents. |
| BatchDriver.ReadBatch | SortingFile/main.cpp:102-104 | The read loop ends in the state ReadFrom gives. |
| BatchDriver.Trimmed | SortingFile/main.cpp:106-107 | A kept count lies between 1 and the used count. |
| BatchDriver.TrimmedSpec | SortingFile/main.cpp:106-107 | Trimming fails (the index buffersUsed - 1 runs below the array) exactly when every used slot is empty. Otherwise it keeps the longest prefix that ends in a non-empty line. |
| BatchDriver.TrimEmpty | SortingFile/main.cpp:106-107 | The trimming loop ends with the count Trimmed gives. |
| BatchDriver.SortedBatch | SortingFile/main.cpp:109 | std::sort on the first k slots keeps the number of slots, leaves the slots after k as they were, and keeps the same lines among the first k. |
| BatchDriver.SortedBatchSpec | SortingFile/main.cpp:109 | After std::sort the kept prefix is in order and holds the same lines, and the slots after it are untouched. |
| BatchDriver.SortPrefix | SortingFile/main.cpp:109 | Sorting the array's prefix leaves it as SortedBatch gives. |
| BatchDriver.Cleared | SortingFile/main.cpp:123-124 | Clearing keeps the number of slots. |
| BatchDriver.ClearPrefix | SortingFile/main.cpp:123-124 | resize(0) on the used slots empties exactly them. |
| BatchDriver.Run | SortingFile/main.cpp:100-125 | The whole procedure keeps the input's text, keeps the stream state consistent and keeps every offset inside the output file. |
| BatchDriver.Blank | SortingFile/main.cpp:93 | A new array holds 50 empty strings. |
| BatchDriver.SortBatch | SortingFile/main.cpp:101-124 | One pass of the outer loop makes progress on the input. It either stops where sort_with_buffer has undefined behaviour or leaves a state from which the run ends where it would have from the old one. |
| BatchDriver.SortWithBuffer | SortingFile/main.cpp:87-128 | sort_with_buffer ends in the input, output and offsets state Run gives, and reports whether it ran to its end. |
| BatchDriver.RunConsumesInput | SortingFile/main.cpp:100 | A run that completes has read its input to the end and set failbit. |
| BatchDriver.AtEndStops | SortingFile/main.cpp:100-107 | A good stream at the end of the text reads one empty line into the first slot. The trimming loop then runs below the array, so the run stops without touching the output. This happens after the last full batch of an input of a multiple of 50 newline-terminated lines. |
| BatchDriver.EofStops | SortingFile/main.cpp:100-107 | A stream with eofbit set at the end of the text, as after a last line with no '\n', fails getline in its sentry and leaves the first slot empty as resize(0) left it. The trimming loop then runs below the array, so the run stops without touching the output. This happens after the last full batch of an input of a multiple of 50 lines whose last line has no '\n'. |
| BatchDriver.EmptyInputStops | SortingFile/main.cpp:100-107 | An empty input runs the trimming loop below the array at once. |
| QuickSortFile.NewlineEnds | SortingFile/main.cpp:141-152 | The scan over the first n characters records at most n offsets, each between 1 and n, and each just after a '\n'. |
| QuickSortFile.LineStarts | SortingFile/main.cpp:140-152 | The offset list starts with 0, has at most one entry more than the text has characters, and every later entry lies inside the text just after a '\n'. |
| QuickSortFile.NewlineEndsSpec | SortingFile/main.cpp:141-152 | The scan records one offset per '\n' seen so far, in increasing order: exactly the offsets that follow a '\n'. |
| QuickSortFile.LineStartsSpec | SortingFile/main.cpp:140-152 | The offset list has one more entry than the text has newlines. It starts with 0 and strictly increases, and an offset is in it exactly when it is 0 or follows a '\n'. |
| QuickSortFile.ScanOffsets | SortingFile/main.cpp:140-152 | The scan loop produces exactly that offset list. |
| QuickSortFile.LineKeyReadsLine | SortingFile/main.cpp:154-169 | The comparator's key at an offset is the rest of that line: it holds no '\n' and stops at a '\n' or at the end of the text. |
| QuickSortFile.StartsFromSpec | SortingFile/main.cpp:140-152 | Hopping from line start to line start gives increasing offsets: exactly the start and the offsets after a later '\n'. |
| QuickSortFile.LineStartsFromFront | SortingFile/main.cpp:140-152 | The scan's offsets are the line starts reached by hopping from one line to the next. |
| QuickSortFile.InputLinesJoin | SortingFile/main.cpp:140-152 | The lines read at the scan's offsets, each followed by '\n', spell the input with one '\n' added. The offsets cut the text into exactly its lines. |
| QuickSortFile.EmitStep | SortingFile/main.cpp:171-183 | Each pass of the output loop adds nothing for an empty line, and otherwise adds the line and a '\n'. |
| QuickSortFile.EmitLines | SortingFile/main.cpp:171-183 | The output loop writes the non-empty lines at the offsets, in the offsets' order, each followed by '\n'. |
| QuickSortFile.NonEmptyNewlines | SortingFile/main.cpp:179-182 | Skipping the empty lines and writing each other line with its '\n' writes one '\n' per non-empty line. |
| QuickSortFile.EmittedNewlines | SortingFile/main.cpp:171-183 | The output loop writes exactly one '\n' for every offset whose line is not empty. |
| QuickSortFile.SortedNonEmptyLinesSpec | SortingFile/main.cpp:154-183 | The reference output lines are in order and are the input's non-empty lines, each as often as it occurs. |
| QuickSortFile.OffsetSortGivesSortedLines | SortingFile/main.cpp:154-183 | Sorting the offsets by their lines and then skipping empty lines gives the sorted non-empty lines of the input. |
| QuickSortFile.QuickSort | SortingFile/main.cpp:130-186 | quick_sort_file writes exactly the input's non-empty lines, in non-decreasing order, each followed by '\n'. |

## Left out

- `main`, `exec_time`, `print_time` and the lambda that removes the output
  file: they are timing, console output and file-system calls.
- Opening the streams: open modes and open failure. `main` removes
  `output.txt` before `sort_with_buffer`, and opening a missing file for
  reading and writing fails. The model starts from an opened stream on given
  bytes.
- The output stream's eofbit and failbit. `OutputFile.Write` always succeeds.
  In main.cpp, the comparator's getline sets eofbit and failbit when it
  reads at the end of the file, and the tail loop writes without calling
  `clear()` first. So when the last comparison before the tail loop read at
  the end of the file, the tail writes fail and `tellp()` returns -1. The
  model instead carries those writes out.
- `std::fstream::pos_type`: offsets are natural numbers.
- The `reserve` calls and the shared `compareBuffer`: they change capacity,
  not contents.
- The internals of `std::sort`: an insertion sort stands in for it. Both
  sorts are specified by what `std::sort` promises: sorted, and a permutation.
  `Sorting.SortedUnique` shows that the sorted lines do not depend on the
  order equal elements are left in.
- The `<execution>` header: it is unused.
- Undefined behaviour when every used slot of a batch is empty.
  `buffers[buffersUsed - 1]` is then read with `buffersUsed` equal to 0. The
  model stops the run there, with `completed` false, instead of modelling
  what the program might do next.
- `quick_sort_file`'s output `std::ofstream` is truncated on opening and only
  appended to. It is modelled as the character sequence written, and its
  input stream as the file's text.
- Characters stand for bytes. The model does not restrict them to 0..255,
  and it compares them as unsigned values, as `std::char_traits<char>` does.
