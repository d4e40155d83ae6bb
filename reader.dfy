/** The line reader `line_set` (setop.py): the raw bytes of one input become
    the set of its lines, trailing CR/LF bytes stripped and the empty line dropped. */
module Reader {
  import opened Bytes

  predicate IsNewlineByte(b: byte)
  {
    b == CR || b == LF
  }

  /** Length of the first line `readlines` returns: up to and including the
      first LF, or the whole of `data` when it holds no LF. */
  function FirstLineLength(data: seq<byte>): (n: nat)
    requires data != []
    ensures 0 < n <= |data|
    ensures forall i :: 0 <= i < n - 1 ==> data[i] != LF
    ensures n < |data| ==> data[n - 1] == LF
  {
    if data[0] == LF || |data| == 1 then 1 else 1 + FirstLineLength(data[1..])
  }

  /** `readlines()` on a binary stream: the input cut after every LF. */
  function ReadLines(data: seq<byte>): (lines: seq<seq<byte>>)
    decreases |data|
  {
    if data == [] then []
    else
      var n := FirstLineLength(data);
      [data[..n]] + ReadLines(data[n..])
  }

  /** The segments `readlines` returns partition the input: together they
      are the input, none is empty, each holds LF only as its last byte, and
      every one but the last ends in LF. */
  lemma {:induction false} ReadLinesPartition(data: seq<byte>)
    ensures Concat(ReadLines(data)) == data
    ensures forall k :: 0 <= k < |ReadLines(data)| ==> ReadLines(data)[k] != []
    ensures forall k, i :: 0 <= k < |ReadLines(data)| && 0 <= i < |ReadLines(data)[k]| - 1 ==>
      ReadLines(data)[k][i] != LF
    ensures forall k :: 0 <= k < |ReadLines(data)| - 1 ==>
      ReadLines(data)[k][|ReadLines(data)[k]| - 1] == LF
  {
    ReadLinesConcat(data);
    forall k | 0 <= k < |ReadLines(data)|
      ensures ReadLines(data)[k] != []
      ensures forall i :: 0 <= i < |ReadLines(data)[k]| - 1 ==> ReadLines(data)[k][i] != LF
      ensures k < |ReadLines(data)| - 1 ==> ReadLines(data)[k][|ReadLines(data)[k]| - 1] == LF
    {
      ReadLinesAt(data, k);
    }
  }

  lemma {:induction false} ReadLinesConcat(data: seq<byte>)
    ensures Concat(ReadLines(data)) == data
    decreases |data|
  {
    if data != [] {
      var n := FirstLineLength(data);
      ReadLinesConcat(data[n..]);
      assert ReadLines(data) == [data[..n]] + ReadLines(data[n..]);
      assert data[..n] + data[n..] == data;
    }
  }

  /** Segment `k` of `readlines`: non-empty, LF only as its last byte, and
      ending in LF unless it is the last segment. */
  lemma {:induction false} ReadLinesAt(data: seq<byte>, k: nat)
    requires k < |ReadLines(data)|
    ensures ReadLines(data)[k] != []
    ensures forall i :: 0 <= i < |ReadLines(data)[k]| - 1 ==> ReadLines(data)[k][i] != LF
    ensures k < |ReadLines(data)| - 1 ==> ReadLines(data)[k][|ReadLines(data)[k]| - 1] == LF
    decreases |data|
  {
    var n := FirstLineLength(data);
    var rest := ReadLines(data[n..]);
    assert ReadLines(data) == [data[..n]] + rest;
    if k > 0 {
      ReadLinesAt(data[n..], k - 1);
    } else if k < |ReadLines(data)| - 1 {
      assert data[n..] != [];
    }
  }

  /** `s.rstrip(b"\r\n")`: removes the whole trailing run of CR and LF bytes. */
  function StripTrailingNewlines(s: seq<byte>): (r: seq<byte>)
    ensures r <= s
    ensures r == [] || !IsNewlineByte(r[|r| - 1])
    ensures forall i :: |r| <= i < |s| ==> IsNewlineByte(s[i])
  {
    if s != [] && IsNewlineByte(s[|s| - 1]) then StripTrailingNewlines(s[..|s| - 1]) else s
  }

  /** `readlines()` followed by stripping every segment, as a set. */
  function StrippedSegments(data: seq<byte>): set<Line>
  {
    var segments := ReadLines(data);
    set k | 0 <= k < |segments| :: StripTrailingNewlines(segments[k])
  }

  /** `line_set(file)`: the stripped lines of the input as a set, then `discard(b"")`. */
  function LineSet(data: seq<byte>): (lines: set<Line>)
    ensures [] !in lines
    ensures forall l :: l in lines ==> LF !in l && !IsNewlineByte(l[|l| - 1])
  {
    StrippedSegmentsHaveNoLf(data);
    StrippedSegments(data) - {[]}
  }

  /** A `readlines` segment holds LF at most as its last byte, so after
      stripping it holds none. */
  lemma StrippedSegmentsHaveNoLf(data: seq<byte>)
    ensures forall l :: l in StrippedSegments(data) ==> LF !in l
  {
    var segments := ReadLines(data);
    forall l | l in StrippedSegments(data)
      ensures LF !in l
    {
      var k :| 0 <= k < |segments| && StripTrailingNewlines(segments[k]) == l;
      ReadLinesAt(data, k);
      StripRemovesLf(segments[k]);
    }
  }

  /** A segment whose LF, if any, is its last byte holds none after stripping. */
  lemma StripRemovesLf(segment: seq<byte>)
    requires forall i :: 0 <= i < |segment| - 1 ==> segment[i] != LF
    ensures LF !in StripTrailingNewlines(segment)
  {
    var r := StripTrailingNewlines(segment);
    forall i | 0 <= i < |r|
      ensures r[i] != LF
    {
      assert r[i] == segment[i];
    }
  }

  /** Membership in `line_set`: a line is read iff it is non-empty and it is
      some `readlines` segment with its trailing CR/LF run stripped. */
  lemma LineSetMembership(data: seq<byte>, x: Line)
    ensures x in LineSet(data) <==>
      x != [] && exists k :: 0 <= k < |ReadLines(data)| && StripTrailingNewlines(ReadLines(data)[k]) == x
  {
    var segments := ReadLines(data);
    if exists k :: 0 <= k < |segments| && StripTrailingNewlines(segments[k]) == x {
      var k :| 0 <= k < |segments| && StripTrailingNewlines(segments[k]) == x;
      assert x in StrippedSegments(data);
    }
  }

  /** `readlines` of a line that holds no LF, followed by a terminator that
      ends in its only LF, and more input: that line with its terminator comes first. */
  lemma {:induction false} ReadLinesCons(line: seq<byte>, eol: seq<byte>, rest: seq<byte>)
    requires LF !in line
    requires eol != [] && eol[|eol| - 1] == LF
    requires forall i :: 0 <= i < |eol| - 1 ==> eol[i] != LF
    ensures ReadLines(line + eol + rest) == [line + eol] + ReadLines(rest)
  {
    var data := line + eol + rest;
    var n := FirstLineLength(data);
    var m := |line| + |eol|;
    assert data[m - 1] == LF;
    assert forall i :: 0 <= i < m - 1 ==> data[i] != LF by {
      forall i | 0 <= i < m - 1
        ensures data[i] != LF
      {
        if i < |line| {
          assert data[i] == line[i];
        } else {
          assert data[i] == eol[i - |line|];
        }
      }
    }
    assert n == m;
    assert data[..n] == line + eol;
    assert data[n..] == rest;
  }

  /** An input without LF is read as one segment, or none if it is empty. */
  lemma ReadLinesNoLf(data: seq<byte>)
    requires LF !in data
    ensures ReadLines(data) == if data == [] then [] else [data]
  {
    if data != [] {
      var n := FirstLineLength(data);
      assert data[..n] == data;
      assert data[n..] == [];
    }
  }

  /** Stripping leaves a line that does not end in CR or LF, followed by CR
      and LF bytes only, as exactly that line. */
  lemma StripTerminated(line: seq<byte>, eol: seq<byte>)
    requires line == [] || !IsNewlineByte(line[|line| - 1])
    requires forall i :: 0 <= i < |eol| ==> IsNewlineByte(eol[i])
    ensures StripTrailingNewlines(line + eol) == line
  {
    var s := line + eol;
    var r := StripTrailingNewlines(s);
    assert r <= s;
    assert r == s[..|r|];
    assert line == s[..|line|];
  }
}
