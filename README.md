# setop — a Dafny model of the line-wise set operations

`setop` reads one or more files as sets of lines. It prints their union
(`-u`), intersection (`-i`), difference (`-d`) or Cartesian product (`-p`)
to standard output, one line per result, each followed by the chosen line
terminator (`--newlines unix` gives LF, `windows` gives CR LF).

This project models `setop.py` from the point where the arguments are
parsed and the files are open:

- `line_set` reads a file's raw bytes. It cuts them after every LF
  (`readlines`), strips each line's trailing run of CR and LF bytes, makes a
  set, and discards the empty line. Module `Reader`.
- `reduce_line_sets` gives the empty set for no files. Otherwise it folds
  `set.union`, `set.intersection` or `set.difference` from the left over the
  per-file sets, in file order. Module `Reduction`.
- `sorted` on a set of lines returns the distinct lines in Python's `bytes`
  order. That is byte-wise lexicographic, and a proper prefix comes first.
  Modules `Bytes` and `Sorting`.
- `itertools.product` over the sorted per-file lists is in module
  `Cartesian`. Each tuple is joined with the delimiter (`bytes.join`) in
  module `Render`.
- `SetOp.run` dispatches on the mode, then loops over the output lines. For
  each line it writes the line and then the EOL bytes to
  `sys.stdout.buffer`. Module `SetOp`, with the output stream as the class
  `Render.ByteStream`.

Module `Scenarios` restates the end-to-end cases of `test/test.py` on the
model:

- `test_newlines`, for both terminators;
- the three-file cases of `test_union`, `test_intersection` and
  `test_difference`;
- `test_product`, with standard input as the second input.

Bytes are a `newtype byte` over 0..255. A line is a `seq<byte>`. A file's
content is the byte sequence the program would read from it.

The dispatch is written as the pure function `SetOp.Output`, which is what
`run` writes. The method `SetOp.Run` performs the writes on a `ByteStream`,
and its contract ties the bytes written to `Output`.

A zero-file product is modelled as the code behaves. `itertools.product()`
with no arguments yields one empty tuple, so `-p` with no file writes one
empty line: the EOL bytes alone (`SetOp.ProductOfNoFiles`). The
repository's test of this case expects empty output (test/test.py:202-204).
It compares only after stripping trailing newlines (test/test.py:27), so it
does not tell the two apart. The set modes print nothing for no file
(`SetOp.SetModeOfNoFiles`).

## Model

| member | source | states |
|---|---|---|
| Bytes.Less | setop.py:108 | Definition of the `bytes` order `sorted` uses, with no ensures of its own: byte-wise lexicographic, a proper prefix first. Its properties are stated by `LessIrreflexive`, `LessAsymmetric`, `LessTransitive` and `LessTotal`. |
| Bytes.LessIrreflexive | setop.py:108 | No line sorts before itself under the `bytes` order used by `sorted`. |
| Bytes.LessAsymmetric | setop.py:108 | If a sorts before b then b does not sort before a. |
| Bytes.LessTransitive | setop.py:108 | The `bytes` order is transitive. |
| Bytes.LessTotal | setop.py:108 | Any two distinct byte strings are ordered one way or the other, so `sorted` has one answer. |
| Sorting.LeastExists | setop.py:108 | Every non-empty set of lines has a least line. |
| Sorting.LeastUnique | setop.py:108 | The least line of a set is unique. |
| Sorting.Least | setop.py:108 | The result is in the set and sorts before every other member. |
| Sorting.SortedLines | setop.py:108 | `sorted(s)` is strictly ascending, holds exactly the members of `s`, and has one entry per member. |
| Sorting.AscendingDistinct | setop.py:108 | A strictly ascending listing has no line twice. |
| Sorting.SortedLinesUnique | setop.py:108 | Any strictly ascending listing of exactly the members of `s` equals `sorted(s)`. |
| Sorting.HeadIsLeast | setop.py:108 | The first entry of an ascending listing of `s` is the least member of `s`. |
| Sorting.TailListsRest | setop.py:108 | Dropping the first entry of an ascending listing of `s` leaves an ascending listing of `s` minus that entry. |
| Reader.ReadLines | setop.py:51 | Definition of `readlines`, with no ensures of its own. Its properties are stated by `FirstLineLength`, `ReadLinesPartition`, `ReadLinesConcat`, `ReadLinesAt`, `ReadLinesCons` and `ReadLinesNoLf`. |
| Reader.FirstLineLength | setop.py:51 | The first line `readlines` returns is non-empty and ends at the first LF, or at the end of the data if there is no LF. |
| Reader.ReadLinesPartition | setop.py:51 | The `readlines` segments concatenate to the input, none is empty, each holds LF only as its last byte, and all but the last end in LF. |
| Reader.ReadLinesConcat | setop.py:51 | Concatenating the `readlines` segments gives back the input. |
| Reader.ReadLinesAt | setop.py:51 | Segment k is non-empty, has LF only as its last byte, and ends in LF unless it is the last segment. |
| Reader.StripTrailingNewlines | setop.py:50 | `rstrip(b"\r\n")` returns a prefix that does not end in CR or LF, and every byte it removed is CR or LF. |
| Reader.StrippedSegments | setop.py:51 | Definition of the set of the stripped `readlines` segments, with no ensures of its own. Its properties are stated by `StrippedSegmentsHaveNoLf` and `LineSetMembership`. |
| Reader.LineSet | setop.py:46-53 | The set returned by `line_set` never holds the empty line, and no member holds an LF or ends in CR. |
| Reader.StrippedSegmentsHaveNoLf | setop.py:50-51 | No stripped segment holds an LF. |
| Reader.StripRemovesLf | setop.py:50 | Stripping a segment whose only LF is its last byte leaves no LF. |
| Reader.LineSetMembership | setop.py:46-53 | A line is in `line_set(file)` iff it is non-empty and equals some `readlines` segment with its trailing CR/LF run stripped. |
| Reader.ReadLinesCons | setop.py:51 | A line without LF followed by a terminator ending in its only LF is read as one segment, then the rest is read. |
| Reader.ReadLinesNoLf | setop.py:51 | Data without LF is read as one segment, or as none if it is empty. |
| Reader.StripTerminated | setop.py:50 | Stripping a line that does not end in CR/LF, followed only by CR/LF bytes, gives exactly that line. |
| Reduction.Apply | setop.py:108-112 | Membership of `set.union`, `set.intersection` and `set.difference`: in either, in both, in the first but not the second. |
| Reduction.FoldLeft | setop.py:60 | Definition of `functools.reduce` with a start value, with no ensures of its own. Its properties are stated by `FoldLeftSnoc`, `FoldUnion`, `FoldIntersection` and `FoldDifference`. |
| Reduction.Reduce | setop.py:56-62 | No files give the empty set, and one file gives that file's set. |
| Reduction.FoldLeftSnoc | setop.py:60 | Folding one more set applies the operation once more to the result so far. |
| Reduction.ReduceSnoc | setop.py:58-60 | With N ≥ 1 files, adding file N+1 gives `op(reduce(first N), s)`: the left fold `op(...op(op(s1, s2), s3)..., sN)`. |
| Reduction.FoldUnion | setop.py:60 | A line is in the union fold iff it is in the start set or in some folded set. |
| Reduction.FoldIntersection | setop.py:60 | A line is in the intersection fold iff it is in the start set and in every folded set. |
| Reduction.FoldDifference | setop.py:60 | A line is in the difference fold iff it is in the start set and in no folded set. |
| Reduction.UnionMembership | setop.py:56-62 | A line is in the reduced union iff it is in some file's set. |
| Reduction.IntersectionMembership | setop.py:56-62 | A line is in the reduced intersection iff there is at least one file and the line is in every file's set. |
| Reduction.DifferenceMembership | setop.py:56-62 | A line is in the reduced difference iff there is a file, the line is in the first set, and it is in no later set. |
| Reduction.UnionIntersectionOrderFree | setop.py:56-62 | Union and intersection depend only on which sets are given, not on their order or on repeats. |
| Cartesian.PrependEach | setop.py:116 | Putting each head before each tail gives len(heads)·len(tails) tuples, each a head followed by a tail. |
| Cartesian.PrependEachAt | setop.py:116 | Head a followed by tail b stands at position a·len(tails) + b. |
| Cartesian.Product | setop.py:116 | `itertools.product(*lists)` has as many tuples as the product of the list lengths, each with one entry per list, with position i drawn from list i. |
| Cartesian.ProductOfOneList | setop.py:116 | The product of one list is that list's elements as one-tuples, in order. |
| Cartesian.Pick | setop.py:116 | The tuple picked by an index tuple has one entry per list. |
| Cartesian.ProductAt | setop.py:116 | The tuple choosing element idx[i] of every list i stands at the mixed-radix rank of idx. |
| Cartesian.PickCons | setop.py:116 | A picked tuple is the first list's chosen element followed by the tuple picked from the other lists. |
| Cartesian.ProductIndexOnto | setop.py:116 | Every position of the product is the rank of some valid index tuple. |
| Cartesian.RankBelowCount | setop.py:116 | The rank of a valid index tuple is below the number of tuples. |
| Cartesian.RankMonotone | setop.py:116 | Index tuples in lexicographic order come in the same order in the product: first list slowest, last fastest. |
| Render.Join | setop.py:115 | Definition of `bytes.join`, with no ensures of its own. Its properties are stated by `SplitJoin`, `JoinAsEmit` and `ReadBackJoined`. |
| Render.Split | setop.py:115 | Splitting on a byte gives pieces without that byte that join back to the input. |
| Render.SplitJoin | setop.py:115 | Joining parts that lack a one-byte delimiter can be undone by splitting: a product line determines its tuple. |
| Render.Emit | setop.py:118-120 | Definition of the bytes the output loop writes, with no ensures of its own. Its properties are stated by `EmitSnoc`, `EmitAppend`, `EmitLength`, `ReadEmitted` and `WriteLines`. |
| Render.EmitSnoc | setop.py:118-120 | Writing one more line appends that line and then the EOL. |
| Render.EmitAppend | setop.py:118-120 | Writing two runs of lines writes their bytes one after the other. |
| Render.EmitLength | setop.py:118-120 | The output length is the total line length plus one EOL per line. |
| Render.Terminated | setop.py:118-120 | Every line with the EOL appended, position by position. |
| Render.ReadEmitted | setop.py:51 | `readlines` of plain lines written each with LF or CR LF is those lines with their terminators, followed by what is read from the rest. |
| Render.ReadEmittedStep | setop.py:51 | The one-line step of `ReadEmitted`. |
| Render.NonEmptyLines | setop.py:52 | The set of the non-empty entries of a line sequence. |
| Render.StrippedSet | setop.py:51-52 | Segments that strip to given lines give the set of the non-empty lines. |
| Render.ReadBackEmitted | setop.py:46-53 | `line_set` of plain lines each followed by LF or CR LF is exactly the set of the non-empty lines. |
| Render.JoinAsEmit | setop.py:118-120 | A file that separates lines with a terminator, rather than ending each with one, is all lines but the last terminated, then the last line bare. |
| Render.ReadBackJoined | setop.py:46-53 | `line_set` of plain lines separated by LF or CR LF, with no terminator after the last, is exactly the set of the non-empty lines. |
| Render.ReadBackLastEmpty | setop.py:46-53 | The case of `ReadBackJoined` where the last line is empty. |
| Render.ReadBackLastBare | setop.py:46-53 | The case of `ReadBackJoined` where the last line is non-empty and unterminated. |
| Render.ByteStream.constructor | setop.py:119 | A fresh output stream has nothing written. |
| Render.ByteStream.Write | setop.py:119-120 | `write(data)` appends `data` to what has been written. |
| Render.WriteLines | setop.py:118-120 | The output loop appends, for every line in order, the line and then the EOL bytes. |
| SetOp.OpOf | setop.py:107-112 | Definition of the mode-to-operation dispatch (`-u` to union, `-i` to intersection, `-d` to difference), with no ensures of its own. Its properties are stated by `UnionOutput`, `IntersectionOutput` and `DifferenceOutput`. |
| SetOp.Eol | setop.py:105 | The `--newlines` choice gives LF for unix and CR LF for windows. |
| SetOp.LineSets | setop.py:59 | One `line_set` per file, in file order. |
| SetOp.SortedLineLists | setop.py:114 | One sorted line list per file, in file order. |
| SetOp.JoinEach | setop.py:115-116 | One delimiter-joined line per tuple, in tuple order. |
| SetOp.OutputLines | setop.py:107-116 | Definition of the lines `run` prints for each mode, with no ensures of its own. Its properties are stated by `SetModeOutput`, `ProductOutputSize`, `ProductOutputAt` and `ProductOutputOnto`. |
| SetOp.Output | setop.py:107-120 | Definition of all bytes `run` writes, with no ensures of its own. Its properties are stated by `Run`, `SetModeOutputReadsBack`, `ProductOfNoFiles` and `SetModeOfNoFiles`. |
| SetOp.Run | setop.py:105-120 | `run` appends to standard output exactly the output lines of the chosen mode, each followed by the EOL bytes. |
| SetOp.SetModeOutput | setop.py:107-112 | `-u/-i/-d` print the reduced set strictly ascending, each line once, nothing else, one line per member. |
| SetOp.UnionOutput | setop.py:107-108 | `-u` prints a line iff it is a line of some input. |
| SetOp.IntersectionOutput | setop.py:109-110 | `-i` prints a line iff there is an input and the line is a line of every input. |
| SetOp.DifferenceOutput | setop.py:111-112 | `-d` prints a line iff it is a line of the first input and of no other. |
| SetOp.ProductOutputSize | setop.py:113-116 | `-p` prints as many lines as the product of the inputs' line-set sizes. |
| SetOp.CountSortedLists | setop.py:114 | The sorted lists have the same sizes as the line sets. |
| SetOp.ProductOutputAt | setop.py:113-116 | At the rank of idx, `-p` prints the idx[i]-th smallest line of every input i, joined with the delimiter. |
| SetOp.ProductOutputOnto | setop.py:113-116 | Every `-p` output line is the joined tuple of some index tuple, printed at that tuple's rank. |
| SetOp.JoinedProductOfOneList | setop.py:115-116 | Joining the one-tuples of a single list gives that list back. |
| SetOp.ProductOfOneFile | setop.py:113-116 | `-p` with one file prints that file's lines sorted. |
| SetOp.ProductOfNoFiles | setop.py:113-120 | `-p` with no file writes the EOL bytes alone: one empty tuple, joined to the empty line. |
| SetOp.SetModeOfNoFiles | setop.py:107-112 | `-u/-i/-d` with no file write nothing. |
| SetOp.SetModeOutputReadsBack | setop.py:107-120 | Reading the output of `-u/-i/-d` back with `line_set` gives the reduced set again, for either terminator. |
| SetOp.ReducedLinesArePlain | setop.py:56-62 | Every line of a reduction of `line_set` results is non-empty, has no LF, and does not end in CR. |
| SetOp.UnixAndWindowsFilesReadAlike | setop.py:50-51 | A file of plain lines is read as the same set with LF or CR LF terminators, and whether or not the last line is terminated. |
| Scenarios.NewlinesScenario | test/test.py:269-282 | Files AAA BBB CCC and XXX YYY, with `-p -D ,`, give the six comma-joined pairs in nested-loop order, each followed by the chosen EOL, whatever terminator the files use. |
| Scenarios.UnionScenario | test/test.py:77-80 | foo bar baz, bar baz and bar quux under `-u` give bar baz foo quux. |
| Scenarios.IntersectionScenario | test/test.py:108-111 | The same three files under `-i` give bar. |
| Scenarios.DifferenceScenario | test/test.py:144-147 | The same three files under `-d` give foo. |
| Scenarios.ProductOneFileScenario | test/test.py:177-180 | `-p` with the file foo bar baz alone prints bar baz foo. |
| Scenarios.ProductScenario | test/test.py:182-200 | The file foo bar baz and standard input spam ham under `-p`, with the default tab or with `-D :`, give bar-ham, bar-spam, baz-ham, baz-spam, foo-ham, foo-spam joined with the delimiter, each followed by the chosen EOL. |
| Scenarios.ThreeByTwo | setop.py:116 | The product of a three-line and a two-line list is the six pairs, first list slowest. |
| Scenarios.SortedFile | setop.py:114 | Reading and sorting a file whose lines are plain, non-empty and already ascending gives those lines back. |
| Scenarios.FileOfLines | setop.py:46-53 | A file of non-empty plain lines is read as the set of those lines. |
| Scenarios.SetModeLines | setop.py:107-112 | A set mode prints exactly an ascending listing of the reduced set. |
| Scenarios.ReduceThree | setop.py:56-60 | Three files reduce to `op(op(s1, s2), s3)`. |

## Left out

- Argument parsing (setop.py:66-98, setop.py:101-104) is left out: operation flags, `--newlines` choices, usage errors, `--version`, and the delimiter's ASCII encoding. The model takes the mode, the delimiter bytes and the newline choice already parsed. The `--newlines` default depends on the host platform (setop.py:67) and is also left out.
- Opening files, `-` for standard input, and the switch to the binary `stdin.buffer` (setop.py:48) are left out. Each input is the byte content the program reads from it. I/O errors are not modelled.
- `sys.stdout.buffer` is modelled as `Render.ByteStream`, an append-only byte sequence. Flushing and write errors are not modelled.
- `SetOp.Run` writes the whole `Output` as a value. In the source, the product's output lines are a lazy generator. That changes only when the bytes are computed, not what is written.
- Multiset mode (`-m`) and `--sum`, which the tests exercise, have no code in setop.py. They are not part of this model.
- Scenarios.NewlinesScenario: the source's test reads and writes with the same terminator. The lemma states every combination of input terminator and output choice, which includes the tested ones.
- Scenarios.ProductScenario: the source's test uses LF everywhere and the delimiters tab and `:`. The lemma states every one-byte delimiter and every terminator choice, which includes the tested ones. The test compares sorted output, and here the product order is already sorted.
- The error-exit tests (test/test.py:284-296) are not stated as lemmas: they test the argument parser, which is left out. Standard input is one more input's bytes. `test_product` is stated as `Scenarios.ProductScenario`. The other tests that read standard input follow from the membership lemmas (`SetOp.UnionOutput`, `SetOp.IntersectionOutput`, `SetOp.DifferenceOutput`) and from `SetOp.ProductOutputAt` and `SetOp.ProductOutputOnto`.
- setup.py and test.py at the top level are packaging and an older copy of the tests, not part of this model.
