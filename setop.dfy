/** The body of `SetOp.run` (setop.py): the operation chosen on the command
    line applied to the lines of the input files, each output line written
    with the chosen line terminator. */
module SetOp {
  import opened Bytes
  import opened Sorting
  import Reader
  import Reduction
  import Cartesian
  import opened Render

  /** The operation flag: `-u`, `-i`, `-d` or `-p`. */
  datatype Mode = Union | Intersection | Difference | Product

  /** The `--newlines` choice. */
  datatype Newlines = Unix | Windows

  /** `dict(unix=b"\n", windows=b"\r\n")[newlines]`. */
  function Eol(newlines: Newlines): (eol: seq<byte>)
    ensures IsEol(eol)
  {
    match newlines
    case Unix => [LF]
    case Windows => [CR, LF]
  }

  /** The set operation that `reduce_line_sets` folds in a set mode. */
  function OpOf(mode: Mode): Reduction.Op
    requires mode != Product
  {
    match mode
    case Union => Reduction.Union
    case Intersection => Reduction.Intersection
    case Difference => Reduction.Difference
  }

  /** `map(line_set, files)`. */
  function LineSets(inputs: seq<seq<byte>>): (sets: seq<set<Line>>)
    ensures |sets| == |inputs|
    ensures forall i :: 0 <= i < |inputs| ==> sets[i] == Reader.LineSet(inputs[i])
  {
    seq(|inputs|, i requires 0 <= i < |inputs| => Reader.LineSet(inputs[i]))
  }

  /** `map(lambda f: sorted(line_set(f)), files)`. */
  function SortedLineLists(inputs: seq<seq<byte>>): (lists: seq<seq<Line>>)
    ensures |lists| == |inputs|
    ensures forall i :: 0 <= i < |inputs| ==> lists[i] == SortedLines(Reader.LineSet(inputs[i]))
  {
    seq(|inputs|, i requires 0 <= i < |inputs| => SortedLines(Reader.LineSet(inputs[i])))
  }

  /** `(delimiter.join(t) for t in tuples)`. */
  function JoinEach(tuples: seq<seq<Line>>, delimiter: seq<byte>): (lines: seq<Line>)
    ensures |lines| == |tuples|
    ensures forall k :: 0 <= k < |tuples| ==> lines[k] == Join(tuples[k], delimiter)
  {
    seq(|tuples|, k requires 0 <= k < |tuples| => Join(tuples[k], delimiter))
  }

  /** `output_lines` as the four branches of `run` compute it. */
  function OutputLines(mode: Mode, inputs: seq<seq<byte>>, delimiter: seq<byte>): seq<Line>
  {
    if mode == Product then JoinEach(Cartesian.Product(SortedLineLists(inputs)), delimiter)
    else SortedLines(Reduction.Reduce(LineSets(inputs), OpOf(mode)))
  }

  /** Everything `run` writes to standard output. */
  function Output(mode: Mode, inputs: seq<seq<byte>>, delimiter: seq<byte>, newlines: Newlines): seq<byte>
  {
    Emit(OutputLines(mode, inputs, delimiter), Eol(newlines))
  }

  /** `run`, once the arguments are parsed and the files read: compute the
      output lines, then write each one followed by the EOL bytes. */
  method Run(stdout: ByteStream, mode: Mode, inputs: seq<seq<byte>>, delimiter: seq<byte>, newlines: Newlines)
    modifies stdout
    ensures stdout.written == old(stdout.written) + Output(mode, inputs, delimiter, newlines)
  {
    var eol := Eol(newlines);
    var outputLines := OutputLines(mode, inputs, delimiter);
    WriteLines(stdout, outputLines, eol);
  }

  /** Union, intersection and difference print the reduced set in strictly
      ascending byte order, each line once and nothing else. */
  lemma SetModeOutput(mode: Mode, inputs: seq<seq<byte>>, delimiter: seq<byte>)
    requires mode != Product
    ensures var out := OutputLines(mode, inputs, delimiter);
      && StrictlyAscending(out)
      && (forall i, j :: 0 <= i < j < |out| ==> out[i] != out[j])
      && (forall x :: x in out <==> x in Reduction.Reduce(LineSets(inputs), OpOf(mode)))
      && |out| == |Reduction.Reduce(LineSets(inputs), OpOf(mode))|
  {
    AscendingDistinct(OutputLines(mode, inputs, delimiter));
  }

  /** `-u`: a line is printed iff it is a line of some input. */
  lemma UnionOutput(inputs: seq<seq<byte>>, delimiter: seq<byte>, x: Line)
    ensures x in OutputLines(Union, inputs, delimiter) <==>
      exists i :: 0 <= i < |inputs| && x in Reader.LineSet(inputs[i])
  {
    var sets := LineSets(inputs);
    Reduction.UnionMembership(sets, x);
    if exists i :: 0 <= i < |inputs| && x in Reader.LineSet(inputs[i]) {
      var i :| 0 <= i < |inputs| && x in Reader.LineSet(inputs[i]);
      assert x in sets[i];
    }
  }

  /** `-i`: a line is printed iff there is an input and the line is in every input. */
  lemma IntersectionOutput(inputs: seq<seq<byte>>, delimiter: seq<byte>, x: Line)
    ensures x in OutputLines(Intersection, inputs, delimiter) <==>
      inputs != [] && forall i :: 0 <= i < |inputs| ==> x in Reader.LineSet(inputs[i])
  {
    var sets := LineSets(inputs);
    Reduction.IntersectionMembership(sets, x);
    if inputs != [] && forall i :: 0 <= i < |inputs| ==> x in Reader.LineSet(inputs[i]) {
      assert forall i :: 0 <= i < |sets| ==> x in sets[i];
    }
  }

  /** `-d`: a line is printed iff it is in the first input and in no other. */
  lemma DifferenceOutput(inputs: seq<seq<byte>>, delimiter: seq<byte>, x: Line)
    ensures x in OutputLines(Difference, inputs, delimiter) <==>
      inputs != [] && x in Reader.LineSet(inputs[0]) &&
      forall i :: 1 <= i < |inputs| ==> x !in Reader.LineSet(inputs[i])
  {
    var sets := LineSets(inputs);
    Reduction.DifferenceMembership(sets, x);
    if inputs != [] && x in Reader.LineSet(inputs[0]) &&
       forall i :: 1 <= i < |inputs| ==> x !in Reader.LineSet(inputs[i]) {
      assert forall i :: 1 <= i < |sets| ==> x !in sets[i];
    }
  }

  /** The product of the sizes of the sets. */
  function SizeProduct(sets: seq<set<Line>>): nat
  {
    if sets == [] then 1 else |sets[0]| * SizeProduct(sets[1..])
  }

  /** `-p` prints one line per tuple: the product of the inputs' set sizes. */
  lemma ProductOutputSize(inputs: seq<seq<byte>>, delimiter: seq<byte>)
    ensures |OutputLines(Product, inputs, delimiter)| == SizeProduct(LineSets(inputs))
  {
    CountSortedLists(inputs);
  }

  lemma {:induction false} CountSortedLists(inputs: seq<seq<byte>>)
    ensures Cartesian.Count(SortedLineLists(inputs)) == SizeProduct(LineSets(inputs))
  {
    if inputs != [] {
      CountSortedLists(inputs[1..]);
      assert SortedLineLists(inputs)[1..] == SortedLineLists(inputs[1..]);
      assert LineSets(inputs)[1..] == LineSets(inputs[1..]);
    }
  }

  /** `-p` prints, at position `Rank(idx)`, the line choosing the `idx[i]`-th
      smallest line of input `i` for every `i`, joined with the delimiter. */
  lemma ProductOutputAt(inputs: seq<seq<byte>>, delimiter: seq<byte>, idx: seq<nat>)
    requires Cartesian.ValidIndex(SortedLineLists(inputs), idx)
    ensures var lists := SortedLineLists(inputs);
      var k := Cartesian.Rank(lists, idx);
      k < |OutputLines(Product, inputs, delimiter)| &&
      OutputLines(Product, inputs, delimiter)[k] == Join(Cartesian.Pick(lists, idx), delimiter)
  {
    Cartesian.ProductAt(SortedLineLists(inputs), idx);
  }

  /** Every `-p` output line is the joined tuple of some index tuple, at that tuple's rank. */
  lemma ProductOutputOnto(inputs: seq<seq<byte>>, delimiter: seq<byte>, k: nat)
    requires k < |OutputLines(Product, inputs, delimiter)|
    ensures exists idx :: (Cartesian.ValidIndex(SortedLineLists(inputs), idx) &&
      Cartesian.Rank(SortedLineLists(inputs), idx) == k &&
      OutputLines(Product, inputs, delimiter)[k] == Join(Cartesian.Pick(SortedLineLists(inputs), idx), delimiter))
  {
    var lists := SortedLineLists(inputs);
    Cartesian.ProductIndexOnto(lists, k);
    var idx :| Cartesian.ValidIndex(lists, idx) && Cartesian.Rank(lists, idx) == k;
    Cartesian.ProductAt(lists, idx);
  }

  /** The joined product of a single list is that list. */
  lemma JoinedProductOfOneList(list: seq<Line>, delimiter: seq<byte>)
    ensures JoinEach(Cartesian.Product([list]), delimiter) == list
  {
    Cartesian.ProductOfOneList(list);
    var out := JoinEach(Cartesian.Product([list]), delimiter);
    assert forall k :: 0 <= k < |out| ==> out[k] == Join([list[k]], delimiter);
  }

  /** `-p` with one file prints that file's sorted lines. */
  lemma ProductOfOneFile(input: seq<byte>, delimiter: seq<byte>)
    ensures OutputLines(Product, [input], delimiter) == SortedLines(Reader.LineSet(input))
  {
    var sorted := SortedLines(Reader.LineSet(input));
    assert SortedLineLists([input]) == [sorted];
    JoinedProductOfOneList(sorted, delimiter);
  }

  /** `-p` with no file prints one empty line, as `itertools.product()`
      yields one empty tuple: the output is the EOL bytes alone. */
  lemma ProductOfNoFiles(delimiter: seq<byte>, newlines: Newlines)
    ensures Output(Product, [], delimiter, newlines) == Eol(newlines)
  {
    var out := OutputLines(Product, [], delimiter);
    assert Cartesian.Product(SortedLineLists([])) == [[]];
    assert out == [[]];
    assert Emit(out, Eol(newlines)) == [] + Eol(newlines) + Emit([], Eol(newlines));
  }

  /** Union, intersection and difference of no file print nothing. */
  lemma SetModeOfNoFiles(mode: Mode, delimiter: seq<byte>, newlines: Newlines)
    requires mode != Product
    ensures Output(mode, [], delimiter, newlines) == []
  {
    assert Reduction.Reduce(LineSets([]), OpOf(mode)) == {};
    assert OutputLines(mode, [], delimiter) == [];
  }

  /** The output of union, intersection and difference, read back by
      `line_set`, is the reduced set again, with either terminator. */
  lemma SetModeOutputReadsBack(mode: Mode, inputs: seq<seq<byte>>, delimiter: seq<byte>, newlines: Newlines)
    requires mode != Product
    ensures Reader.LineSet(Output(mode, inputs, delimiter, newlines)) ==
      Reduction.Reduce(LineSets(inputs), OpOf(mode))
  {
    var sets := LineSets(inputs);
    var reduced := Reduction.Reduce(sets, OpOf(mode));
    var out := OutputLines(mode, inputs, delimiter);
    ReducedLinesArePlain(sets, OpOf(mode));
    forall k | 0 <= k < |out|
      ensures Plain(out[k])
    {
      assert out[k] in reduced;
    }
    ReadBackEmitted(out, Eol(newlines));
  }

  /** Every line of a reduction of `line_set` results is what `line_set` can yield. */
  lemma ReducedLinesArePlain(sets: seq<set<Line>>, op: Reduction.Op)
    requires forall i :: 0 <= i < |sets| ==> forall l :: l in sets[i] ==> l != [] && Plain(l)
    ensures forall l :: l in Reduction.Reduce(sets, op) ==> l != [] && Plain(l)
  {
    forall l | l in Reduction.Reduce(sets, op)
      ensures l != [] && Plain(l)
    {
      match op
      case Union =>
        Reduction.UnionMembership(sets, l);
      case Intersection =>
        Reduction.IntersectionMembership(sets, l);
        assert l in sets[0];
      case Difference =>
        Reduction.DifferenceMembership(sets, l);
    }
  }

  /** Files whose lines end in LF and files whose lines end in CR LF are read
      as the same set, whether or not the last line is terminated. */
  lemma UnixAndWindowsFilesReadAlike(lines: seq<Line>)
    requires forall k :: 0 <= k < |lines| ==> Plain(lines[k])
    ensures Reader.LineSet(Join(lines, [LF])) == Reader.LineSet(Join(lines, [CR, LF]))
    ensures Reader.LineSet(Emit(lines, [LF])) == Reader.LineSet(Emit(lines, [CR, LF]))
    ensures Reader.LineSet(Join(lines, [LF])) == Reader.LineSet(Emit(lines, [LF]))
  {
    ReadBackJoined(lines, [LF]);
    ReadBackJoined(lines, [CR, LF]);
    ReadBackEmitted(lines, [LF]);
    ReadBackEmitted(lines, [CR, LF]);
  }
}
