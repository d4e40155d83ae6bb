/** The end-to-end cases of the repository's test suite (test/test.py),
    stated on the model. */
module Scenarios {
  import opened Bytes
  import opened Sorting
  import Reader
  import Cartesian
  import opened Render
  import opened SetOp

  const AAA: Line := [65, 65, 65]
  const BBB: Line := [66, 66, 66]
  const CCC: Line := [67, 67, 67]
  const XXX: Line := [88, 88, 88]
  const YYY: Line := [89, 89, 89]
  const COMMA: byte := 44

  /** One head in front of two one-line tails. */
  lemma OneByTwo(h: Line, x: Line, y: Line)
    ensures Cartesian.PrependEach([h], [[x], [y]]) == [[h, x], [h, y]]
  {
    var tails := [[x], [y]];
    var block := seq(|tails|, j requires 0 <= j < |tails| => [h] + tails[j]);
    assert block[0] == [h, x] && block[1] == [h, y];
    assert block == [[h, x], [h, y]];
    assert [h][1..] == [];
    assert Cartesian.PrependEach([h][1..], tails) == [];
  }

  /** Heads in turn in front of two one-line tails. */
  lemma ManyByTwo(heads: seq<Line>, x: Line, y: Line)
    requires heads != []
    ensures Cartesian.PrependEach(heads, [[x], [y]]) ==
      Cartesian.PrependEach([heads[0]], [[x], [y]]) + Cartesian.PrependEach(heads[1..], [[x], [y]])
  {
    var tails := [[x], [y]];
    var block := seq(|tails|, j requires 0 <= j < |tails| => [heads[0]] + tails[j]);
    assert [heads[0]][1..] == [];
    assert Cartesian.PrependEach([heads[0]], tails) == block + [];
  }

  /** Three heads in turn in front of two one-line tails. */
  lemma ThreeHeads(a: Line, b: Line, c: Line, x: Line, y: Line)
    ensures Cartesian.PrependEach([a, b, c], [[x], [y]]) == [[a, x], [a, y], [b, x], [b, y], [c, x], [c, y]]
  {
    var tails := [[x], [y]];
    OneByTwo(c, x, y);
    OneByTwo(b, x, y);
    ManyByTwo([b, c], x, y);
    assert [b, c][1..] == [c];
    var last := Cartesian.PrependEach([b, c], tails);
    assert last == [[b, x], [b, y]] + [[c, x], [c, y]];
    OneByTwo(a, x, y);
    ManyByTwo([a, b, c], x, y);
    assert [a, b, c][1..] == [b, c];
    assert Cartesian.PrependEach([a, b, c], tails) == [[a, x], [a, y]] + last;
  }

  /** The product of two lists: the first list's lines in front of the second's one-tuples. */
  lemma TwoLists(first: seq<Line>, x: Line, y: Line)
    ensures Cartesian.Product([first, [x, y]]) == Cartesian.PrependEach(first, [[x], [y]])
  {
    var lists := [first, [x, y]];
    assert lists[1..] == [[x, y]];
    Cartesian.ProductOfOneList([x, y]);
    assert Cartesian.Product([[x, y]]) == [[x], [y]];
  }

  /** The product of a three-line and a two-line list, in nested-loop order. */
  lemma ThreeByTwo(a: Line, b: Line, c: Line, x: Line, y: Line)
    ensures Cartesian.Product([[a, b, c], [x, y]]) == [[a, x], [a, y], [b, x], [b, y], [c, x], [c, y]]
  {
    TwoLists([a, b, c], x, y);
    ThreeHeads(a, b, c, x, y);
  }

  /** `line_set` then `sorted` of a file holding the given plain lines,
      already strictly ascending, gives those lines back. */
  lemma SortedFile(lines: seq<Line>, eolIn: seq<byte>)
    requires IsEol(eolIn)
    requires forall k :: 0 <= k < |lines| ==> Plain(lines[k]) && lines[k] != []
    requires StrictlyAscending(lines)
    ensures SortedLines(Reader.LineSet(Join(lines, eolIn))) == lines
  {
    ReadBackJoined(lines, eolIn);
    SortedLinesUnique(lines, Reader.LineSet(Join(lines, eolIn)));
  }

  lemma SortedAbc(eolIn: seq<byte>)
    requires IsEol(eolIn)
    ensures SortedLines(Reader.LineSet(Join([AAA, BBB, CCC], eolIn))) == [AAA, BBB, CCC]
  {
    assert Less(AAA, BBB) && Less(BBB, CCC);
    SortedFile([AAA, BBB, CCC], eolIn);
  }

  lemma SortedXy(eolIn: seq<byte>)
    requires IsEol(eolIn)
    ensures SortedLines(Reader.LineSet(Join([XXX, YYY], eolIn))) == [XXX, YYY]
  {
    assert Less(XXX, YYY);
    SortedFile([XXX, YYY], eolIn);
  }

  /** The six comma-joined product lines of test_newlines. */
  lemma NewlinesLines(eolIn: seq<byte>)
    requires IsEol(eolIn)
    ensures OutputLines(Product, [Join([AAA, BBB, CCC], eolIn), Join([XXX, YYY], eolIn)], [COMMA]) ==
      [AAA + [COMMA] + XXX, AAA + [COMMA] + YYY, BBB + [COMMA] + XXX,
       BBB + [COMMA] + YYY, CCC + [COMMA] + XXX, CCC + [COMMA] + YYY]
  {
    SortedInputs(eolIn);
    ThreeByTwo(AAA, BBB, CCC, XXX, YYY);
    JoinSix(AAA, BBB, CCC, XXX, YYY, [COMMA]);
  }

  lemma SortedInputs(eolIn: seq<byte>)
    requires IsEol(eolIn)
    ensures SortedLineLists([Join([AAA, BBB, CCC], eolIn), Join([XXX, YYY], eolIn)]) ==
      [[AAA, BBB, CCC], [XXX, YYY]]
  {
    SortedAbc(eolIn);
    SortedXy(eolIn);
    SortedPair(Join([AAA, BBB, CCC], eolIn), Join([XXX, YYY], eolIn), [AAA, BBB, CCC], [XXX, YYY]);
  }

  lemma SortedPair(f0: seq<byte>, f1: seq<byte>, l0: seq<Line>, l1: seq<Line>)
    requires SortedLines(Reader.LineSet(f0)) == l0 && SortedLines(Reader.LineSet(f1)) == l1
    ensures SortedLineLists([f0, f1]) == [l0, l1]
  {
  }

  /** A pair joined with a delimiter. */
  lemma JoinPair(a: Line, x: Line, d: seq<byte>)
    ensures Join([a, x], d) == a + d + x
  {
    assert [a, x][1..] == [x];
  }

  /** The six pairs of a three-by-two product, each joined with a delimiter. */
  lemma JoinSix(a: Line, b: Line, c: Line, x: Line, y: Line, d: seq<byte>)
    ensures JoinEach([[a, x], [a, y], [b, x], [b, y], [c, x], [c, y]], d) ==
      [a + d + x, a + d + y, b + d + x, b + d + y, c + d + x, c + d + y]
  {
    JoinPair(a, x, d);
    JoinPair(a, y, d);
    JoinPair(b, x, d);
    JoinPair(b, y, d);
    JoinPair(c, x, d);
    JoinPair(c, y, d);
  }

  /** Six lines written one after another, each with its terminator. */
  lemma EmitSix(l0: Line, l1: Line, l2: Line, l3: Line, l4: Line, l5: Line, e: seq<byte>)
    ensures Emit([l0, l1, l2, l3, l4, l5], e) == l0 + e + l1 + e + l2 + e + l3 + e + l4 + e + l5 + e
  {
    EmitSnoc([l0, l1, l2, l3, l4], l5, e);
    EmitSnoc([l0, l1, l2, l3], l4, e);
    EmitSnoc([l0, l1, l2], l3, e);
    EmitSnoc([l0, l1], l2, e);
    EmitSnoc([l0], l1, e);
    assert [l0] + [l1] == [l0, l1];
    assert [l0, l1] + [l2] == [l0, l1, l2];
    assert [l0, l1, l2] + [l3] == [l0, l1, l2, l3];
    assert [l0, l1, l2, l3] + [l4] == [l0, l1, l2, l3, l4];
    assert [l0, l1, l2, l3, l4] + [l5] == [l0, l1, l2, l3, l4, l5];
  }

  /** test_newlines: the product of a three-line and a two-line file, joined
      with a comma, is the six tuples in nested-loop order; input read with
      either terminator, output written with the chosen one. */
  lemma NewlinesScenario(eolIn: seq<byte>, newlines: Newlines)
    requires IsEol(eolIn)
    ensures var e := Eol(newlines);
      Output(Product, [Join([AAA, BBB, CCC], eolIn), Join([XXX, YYY], eolIn)], [COMMA], newlines) ==
        (AAA + [COMMA] + XXX) + e + (AAA + [COMMA] + YYY) + e +
        (BBB + [COMMA] + XXX) + e + (BBB + [COMMA] + YYY) + e +
        (CCC + [COMMA] + XXX) + e + (CCC + [COMMA] + YYY) + e
  {
    NewlinesLines(eolIn);
    EmitSix(AAA + [COMMA] + XXX, AAA + [COMMA] + YYY, BBB + [COMMA] + XXX,
            BBB + [COMMA] + YYY, CCC + [COMMA] + XXX, CCC + [COMMA] + YYY, Eol(newlines));
  }

  const FOO: Line := [102, 111, 111]
  const BAR: Line := [98, 97, 114]
  const BAZ: Line := [98, 97, 122]
  const QUUX: Line := [113, 117, 117, 120]

  /** The three files of the set-mode tests: foo bar baz, bar baz, bar quux. */
  function SetFiles(eolIn: seq<byte>): seq<seq<byte>>
  {
    [Join([FOO, BAR, BAZ], eolIn), Join([BAR, BAZ], eolIn), Join([BAR, QUUX], eolIn)]
  }

  /** A file of non-empty plain lines is read as the set of those lines. */
  lemma FileOfLines(lines: seq<Line>, eolIn: seq<byte>, s: set<Line>)
    requires IsEol(eolIn)
    requires forall k :: 0 <= k < |lines| ==> Plain(lines[k]) && lines[k] != []
    requires forall x :: x in s <==> x in lines
    ensures Reader.LineSet(Join(lines, eolIn)) == s
  {
    ReadBackJoined(lines, eolIn);
  }

  lemma SetFileSets(eolIn: seq<byte>)
    requires IsEol(eolIn)
    ensures var sets := LineSets(SetFiles(eolIn));
      |sets| == 3 && sets[0] == {FOO, BAR, BAZ} && sets[1] == {BAR, BAZ} && sets[2] == {BAR, QUUX}
  {
    var sets := LineSets(SetFiles(eolIn));
    FileA(eolIn);
    FileB(eolIn);
    FileC(eolIn);
  }

  lemma FileA(eolIn: seq<byte>)
    requires IsEol(eolIn)
    ensures Reader.LineSet(Join([FOO, BAR, BAZ], eolIn)) == {FOO, BAR, BAZ}
  {
    FileOfLines([FOO, BAR, BAZ], eolIn, {FOO, BAR, BAZ});
  }

  lemma FileB(eolIn: seq<byte>)
    requires IsEol(eolIn)
    ensures Reader.LineSet(Join([BAR, BAZ], eolIn)) == {BAR, BAZ}
  {
    FileOfLines([BAR, BAZ], eolIn, {BAR, BAZ});
  }

  lemma FileC(eolIn: seq<byte>)
    requires IsEol(eolIn)
    ensures Reader.LineSet(Join([BAR, QUUX], eolIn)) == {BAR, QUUX}
  {
    FileOfLines([BAR, QUUX], eolIn, {BAR, QUUX});
  }

  /** Folding an operation over three sets. */
  lemma ReduceThree(op: Reduction.Op, sets: seq<set<Line>>)
    requires |sets| == 3
    ensures Reduction.Reduce(sets, op) == Reduction.Apply(op, Reduction.Apply(op, sets[0], sets[1]), sets[2])
  {
    var acc := Reduction.Apply(op, sets[0], sets[1]);
    assert sets[1..][0] == sets[1] && sets[1..][1..] == [sets[2]];
    assert Reduction.Reduce(sets, op) == Reduction.FoldLeft(op, acc, [sets[2]]);
    assert [sets[2]][1..] == [];
    assert Reduction.FoldLeft(op, acc, [sets[2]]) == Reduction.FoldLeft(op, Reduction.Apply(op, acc, sets[2]), []);
  }

  lemma DistinctWords()
    ensures FOO != BAR && FOO != BAZ && FOO != QUUX && BAR != BAZ && BAR != QUUX && BAZ != QUUX
  {
    assert FOO[0] != BAR[0] && FOO[0] != BAZ[0] && FOO[0] != QUUX[0];
    assert BAR[2] != BAZ[2] && BAR[0] != QUUX[0] && BAZ[0] != QUUX[0];
  }

  /** The output of a set mode whose reduced set holds the given lines, in
      strictly ascending order. */
  lemma SetModeLines(mode: Mode, inputs: seq<seq<byte>>, lines: seq<Line>)
    requires mode != Product
    requires StrictlyAscending(lines)
    requires forall x :: x in lines <==> x in Reduction.Reduce(LineSets(inputs), OpOf(mode))
    ensures OutputLines(mode, inputs, []) == lines
  {
    SortedLinesUnique(lines, Reduction.Reduce(LineSets(inputs), OpOf(mode)));
  }

  /** The files of the set-mode tests, reduced with one operation. */
  lemma ReducedSetFiles(eolIn: seq<byte>, op: Reduction.Op)
    requires IsEol(eolIn)
    ensures Reduction.Reduce(LineSets(SetFiles(eolIn)), op) ==
      Reduction.Apply(op, Reduction.Apply(op, {FOO, BAR, BAZ}, {BAR, BAZ}), {BAR, QUUX})
  {
    SetFileSets(eolIn);
    ReduceThree(op, LineSets(SetFiles(eolIn)));
  }

  lemma AscendingWords()
    ensures StrictlyAscending([BAR, BAZ, FOO, QUUX])
  {
    assert Less(BAR, BAZ) && Less(BAZ, FOO) && Less(FOO, QUUX);
    var r := [BAR, BAZ, FOO, QUUX];
    forall i, j | 0 <= i < j < |r|
      ensures Less(r[i], r[j])
    {
      if i + 1 < j {
        assert Less(r[i], r[i + 1]);
        if i + 2 < j {
          LessTransitive(r[i], r[i + 1], r[i + 2]);
        }
        LessTransitive(r[i], r[j - 1], r[j]);
      }
    }
  }

  lemma UnionWords()
    ensures var reduced := Reduction.Apply(Reduction.Union, Reduction.Apply(Reduction.Union, {FOO, BAR, BAZ}, {BAR, BAZ}), {BAR, QUUX});
      forall x :: x in [BAR, BAZ, FOO, QUUX] <==> x in reduced
  {
  }

  lemma IntersectionWords()
    ensures var reduced := Reduction.Apply(Reduction.Intersection, Reduction.Apply(Reduction.Intersection, {FOO, BAR, BAZ}, {BAR, BAZ}), {BAR, QUUX});
      forall x :: x in [BAR] <==> x in reduced
  {
    DistinctWords();
  }

  lemma DifferenceWords()
    ensures var reduced := Reduction.Apply(Reduction.Difference, Reduction.Apply(Reduction.Difference, {FOO, BAR, BAZ}, {BAR, BAZ}), {BAR, QUUX});
      forall x :: x in [FOO] <==> x in reduced
  {
    DistinctWords();
  }

  /** test_union: foo bar baz, bar baz and bar quux give bar baz foo quux. */
  lemma UnionScenario(eolIn: seq<byte>)
    requires IsEol(eolIn)
    ensures OutputLines(Union, SetFiles(eolIn), []) == [BAR, BAZ, FOO, QUUX]
  {
    ReducedSetFiles(eolIn, Reduction.Union);
    UnionWords();
    AscendingWords();
    SetModeLines(Union, SetFiles(eolIn), [BAR, BAZ, FOO, QUUX]);
  }

  /** test_intersection: foo bar baz, bar baz and bar quux give bar. */
  lemma IntersectionScenario(eolIn: seq<byte>)
    requires IsEol(eolIn)
    ensures OutputLines(Intersection, SetFiles(eolIn), []) == [BAR]
  {
    ReducedSetFiles(eolIn, Reduction.Intersection);
    IntersectionWords();
    SetModeLines(Intersection, SetFiles(eolIn), [BAR]);
  }

  /** test_difference: foo bar baz minus bar baz minus bar quux gives foo. */
  lemma DifferenceScenario(eolIn: seq<byte>)
    requires IsEol(eolIn)
    ensures OutputLines(Difference, SetFiles(eolIn), []) == [FOO]
  {
    ReducedSetFiles(eolIn, Reduction.Difference);
    DifferenceWords();
    SetModeLines(Difference, SetFiles(eolIn), [FOO]);
  }

  const SPAM: Line := [115, 112, 97, 109]
  const HAM: Line := [104, 97, 109]

  /** The file of test_product: foo bar baz. */
  function ProductFile(eolIn: seq<byte>): seq<byte>
  {
    Join([FOO, BAR, BAZ], eolIn)
  }

  /** The standard input of test_product: spam and ham, each terminated. */
  function ProductStdin(eolIn: seq<byte>): seq<byte>
  {
    Emit([SPAM, HAM], eolIn)
  }

  lemma SortedProductFile(eolIn: seq<byte>)
    requires IsEol(eolIn)
    ensures SortedLines(Reader.LineSet(ProductFile(eolIn))) == [BAR, BAZ, FOO]
  {
    FileA(eolIn);
    assert Less(BAR, BAZ) && Less(BAZ, FOO);
    LessTransitive(BAR, BAZ, FOO);
    SortedLinesUnique([BAR, BAZ, FOO], {FOO, BAR, BAZ});
  }

  lemma SortedProductStdin(eolIn: seq<byte>)
    requires IsEol(eolIn)
    ensures SortedLines(Reader.LineSet(ProductStdin(eolIn))) == [HAM, SPAM]
  {
    assert Plain(SPAM) && Plain(HAM);
    ReadBackEmitted([SPAM, HAM], eolIn);
    assert Less(HAM, SPAM);
    SortedLinesUnique([HAM, SPAM], NonEmptyLines([SPAM, HAM]));
  }

  /** test_product, first case: `-p` with the one file prints its lines sorted. */
  lemma ProductOneFileScenario(eolIn: seq<byte>, delimiter: seq<byte>)
    requires IsEol(eolIn)
    ensures OutputLines(Product, [ProductFile(eolIn)], delimiter) == [BAR, BAZ, FOO]
  {
    ProductOfOneFile(ProductFile(eolIn), delimiter);
    SortedProductFile(eolIn);
  }

  /** The six product lines of the file and standard input, joined with a
      one-byte delimiter. */
  lemma ProductLines(eolIn: seq<byte>, d: byte)
    requires IsEol(eolIn)
    ensures OutputLines(Product, [ProductFile(eolIn), ProductStdin(eolIn)], [d]) ==
      [BAR + [d] + HAM, BAR + [d] + SPAM, BAZ + [d] + HAM,
       BAZ + [d] + SPAM, FOO + [d] + HAM, FOO + [d] + SPAM]
  {
    SortedProductFile(eolIn);
    SortedProductStdin(eolIn);
    SortedPair(ProductFile(eolIn), ProductStdin(eolIn), [BAR, BAZ, FOO], [HAM, SPAM]);
    ThreeByTwo(BAR, BAZ, FOO, HAM, SPAM);
    JoinSix(BAR, BAZ, FOO, HAM, SPAM, [d]);
  }

  /** test_product, second and third cases: the file foo bar baz and standard
      input spam ham under `-p`, with the default tab or with `-D :`, give
      the six joined pairs, file lines slowest, each followed by the EOL. */
  lemma ProductScenario(eolIn: seq<byte>, d: byte, newlines: Newlines)
    requires IsEol(eolIn)
    ensures var e := Eol(newlines);
      Output(Product, [ProductFile(eolIn), ProductStdin(eolIn)], [d], newlines) ==
        (BAR + [d] + HAM) + e + (BAR + [d] + SPAM) + e +
        (BAZ + [d] + HAM) + e + (BAZ + [d] + SPAM) + e +
        (FOO + [d] + HAM) + e + (FOO + [d] + SPAM) + e
  {
    ProductLines(eolIn, d);
    EmitSix(BAR + [d] + HAM, BAR + [d] + SPAM, BAZ + [d] + HAM,
            BAZ + [d] + SPAM, FOO + [d] + HAM, FOO + [d] + SPAM, Eol(newlines));
  }
}
