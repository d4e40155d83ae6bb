/** Rendering (setop.py, `run`): product tuples joined with the delimiter,
    and every output line written to standard output followed by the EOL bytes. */
module Render {
  import opened Bytes
  import Reader

  /** `delimiter.join(parts)`. */
  function Join(parts: seq<Line>, delimiter: seq<byte>): Line
  {
    if |parts| == 0 then []
    else if |parts| == 1 then parts[0]
    else parts[0] + delimiter + Join(parts[1..], delimiter)
  }

  /** Position of the first `d` in `s` (a helper of `Split`). */
  function IndexOf(s: Line, d: byte): (i: nat)
    requires d in s
    ensures i < |s| && s[i] == d && d !in s[..i]
  {
    if s[0] == d then 0 else 1 + IndexOf(s[1..], d)
  }

  /** The pieces of `s` between the occurrences of `d`: the inverse of joining
      with the one-byte delimiter `d` (see `SplitJoin`). */
  function Split(s: Line, d: byte): (parts: seq<Line>)
    ensures parts != []
    ensures forall k :: 0 <= k < |parts| ==> d !in parts[k]
    ensures Join(parts, [d]) == s
    decreases |s|
  {
    if d !in s then [s]
    else
      var i := IndexOf(s, d);
      var rest := Split(s[i + 1..], d);
      assert s == s[..i] + [d] + s[i + 1..];
      [s[..i]] + rest
  }

  /** Joining with a one-byte delimiter that no part contains can be undone by
      splitting: a product line determines its tuple. */
  lemma {:induction false} SplitJoin(parts: seq<Line>, d: byte)
    requires parts != []
    requires forall k :: 0 <= k < |parts| ==> d !in parts[k]
    ensures Split(Join(parts, [d]), d) == parts
  {
    if |parts| > 1 {
      var s := Join(parts, [d]);
      var p := parts[0];
      assert s == p + [d] + Join(parts[1..], [d]);
      assert s[|p|] == d && s[..|p|] == p;
      var i := IndexOf(s, d);
      assert i == |p|;
      assert s[i + 1..] == Join(parts[1..], [d]);
      SplitJoin(parts[1..], d);
    }
  }

  /** The bytes written for `lines`: each line followed by `eol`. */
  function Emit(lines: seq<Line>, eol: seq<byte>): seq<byte>
  {
    if lines == [] then [] else lines[0] + eol + Emit(lines[1..], eol)
  }

  /** Writing one more line appends that line and `eol` to what was written. */
  lemma {:induction false} EmitSnoc(lines: seq<Line>, line: Line, eol: seq<byte>)
    ensures Emit(lines + [line], eol) == Emit(lines, eol) + line + eol
  {
    if lines != [] {
      assert (lines + [line])[1..] == lines[1..] + [line];
      EmitSnoc(lines[1..], line, eol);
    }
  }

  /** Writing two runs of lines writes their bytes one after the other. */
  lemma {:induction false} EmitAppend(lines: seq<Line>, more: seq<Line>, eol: seq<byte>)
    ensures Emit(lines + more, eol) == Emit(lines, eol) + Emit(more, eol)
  {
    if lines != [] {
      assert (lines + more)[1..] == lines[1..] + more;
      EmitAppend(lines[1..], more, eol);
    } else {
      assert lines + more == more;
    }
  }

  /** The size of the output: every line and one terminator per line. */
  function TotalLength(lines: seq<Line>): nat
  {
    if lines == [] then 0 else |lines[0]| + TotalLength(lines[1..])
  }

  lemma {:induction false} EmitLength(lines: seq<Line>, eol: seq<byte>)
    ensures |Emit(lines, eol)| == TotalLength(lines) + |lines| * |eol|
  {
    if lines != [] {
      EmitLength(lines[1..], eol);
    }
  }

  /** A line `line_set` could return, if non-empty: no LF, and no CR at the end. */
  predicate Plain(l: Line)
  {
    LF !in l && (l == [] || l[|l| - 1] != CR)
  }

  /** A terminator the reader accepts: LF or CR LF. */
  predicate IsEol(eol: seq<byte>)
  {
    eol == [LF] || eol == [CR, LF]
  }

  /** Every line with the terminator appended. */
  function Terminated(lines: seq<Line>, eol: seq<byte>): (r: seq<seq<byte>>)
    ensures |r| == |lines|
    ensures forall k :: 0 <= k < |lines| ==> r[k] == lines[k] + eol
  {
    if lines == [] then [] else [lines[0] + eol] + Terminated(lines[1..], eol)
  }

  /** What `readlines` makes of plain lines written one after another with a
      terminator, and more input. */
  lemma {:induction false} ReadEmitted(lines: seq<Line>, eol: seq<byte>, tail: seq<byte>)
    requires IsEol(eol)
    requires forall k :: 0 <= k < |lines| ==> Plain(lines[k])
    ensures Reader.ReadLines(Emit(lines, eol) + tail) == Terminated(lines, eol) + Reader.ReadLines(tail)
  {
    if lines != [] {
      ReadEmitted(lines[1..], eol, tail);
      assert Plain(lines[0]);
      ReadEmittedStep(lines[0], lines[1..], eol, tail);
      assert [lines[0]] + lines[1..] == lines;
    } else {
      assert Emit(lines, eol) + tail == tail;
      assert Terminated(lines, eol) + Reader.ReadLines(tail) == Reader.ReadLines(tail);
    }
  }

  lemma ReadEmittedStep(line: Line, lines: seq<Line>, eol: seq<byte>, tail: seq<byte>)
    requires IsEol(eol) && Plain(line)
    requires Reader.ReadLines(Emit(lines, eol) + tail) == Terminated(lines, eol) + Reader.ReadLines(tail)
    ensures Reader.ReadLines(Emit([line] + lines, eol) + tail) == Terminated([line] + lines, eol) + Reader.ReadLines(tail)
  {
    var rest := Emit(lines, eol) + tail;
    var all := [line] + lines;
    assert all[1..] == lines;
    assert Emit(all, eol) == line + eol + Emit(lines, eol);
    Reassociate(line + eol, Emit(lines, eol), tail);
    assert Terminated(all, eol) == [line + eol] + Terminated(lines, eol);
    Reader.ReadLinesCons(line, eol, rest);
    Reassociate([line + eol], Terminated(lines, eol), Reader.ReadLines(tail));
  }

  /** Concatenation regrouped. Stated over an arbitrary element type, it
      keeps `ReadEmittedStep` from reasoning about the byte strings inside. */
  lemma Reassociate<X>(a: seq<X>, b: seq<X>, c: seq<X>)
    ensures a + (b + c) == (a + b) + c
  {
  }

  /** The set of the non-empty lines of a sequence. */
  function NonEmptyLines(lines: seq<Line>): (s: set<Line>)
    ensures forall x :: x in s <==> x in lines && x != []
  {
    set k | 0 <= k < |lines| && lines[k] != [] :: lines[k]
  }

  /** Stripping segments one by one into given lines yields the non-empty ones. */
  lemma StrippedSet(segments: seq<seq<byte>>, lines: seq<Line>)
    requires |segments| == |lines|
    requires forall k :: 0 <= k < |lines| ==> Reader.StripTrailingNewlines(segments[k]) == lines[k]
    ensures (set k | 0 <= k < |segments| :: Reader.StripTrailingNewlines(segments[k])) - {[]} == NonEmptyLines(lines)
  {
  }

  /** Reading back what setop writes: plain lines, each followed by LF or by
      CR LF, are read as exactly the set of the non-empty ones. */
  lemma ReadBackEmitted(lines: seq<Line>, eol: seq<byte>)
    requires IsEol(eol)
    requires forall k :: 0 <= k < |lines| ==> Plain(lines[k])
    ensures Reader.LineSet(Emit(lines, eol)) == NonEmptyLines(lines)
  {
    ReadEmitted(lines, eol, []);
    assert Emit(lines, eol) + [] == Emit(lines, eol);
    var segments := Terminated(lines, eol);
    assert Reader.ReadLines(Emit(lines, eol)) == segments + [];
    assert segments + [] == segments;
    forall k | 0 <= k < |lines|
      ensures Reader.StripTrailingNewlines(segments[k]) == lines[k]
    {
      Reader.StripTerminated(lines[k], eol);
    }
    StrippedSet(segments, lines);
  }

  /** Joining lines with a terminator writes all but the last as with `Emit`,
      then the last one bare. */
  lemma {:induction false} JoinAsEmit(lines: seq<Line>, eol: seq<byte>)
    requires lines != []
    ensures Join(lines, eol) == Emit(lines[..|lines| - 1], eol) + lines[|lines| - 1]
  {
    if |lines| > 1 {
      JoinAsEmit(lines[1..], eol);
      assert lines[1..][..|lines| - 2] == lines[..|lines| - 1][1..];
    }
  }

  /** Reading a file whose plain lines are separated, not terminated, by LF
      or CR LF gives the same set. */
  lemma ReadBackJoined(lines: seq<Line>, eol: seq<byte>)
    requires IsEol(eol)
    requires forall k :: 0 <= k < |lines| ==> Plain(lines[k])
    ensures Reader.LineSet(Join(lines, eol)) == NonEmptyLines(lines)
  {
    if lines != [] {
      var n := |lines| - 1;
      var init := lines[..n];
      JoinAsEmit(lines, eol);
      assert lines == init + [lines[n]];
      if lines[n] == [] {
        ReadBackLastEmpty(init, eol);
      } else {
        ReadBackLastBare(init, lines[n], eol);
      }
    }
  }

  lemma ReadBackLastEmpty(init: seq<Line>, eol: seq<byte>)
    requires IsEol(eol)
    requires forall k :: 0 <= k < |init| ==> Plain(init[k])
    ensures Reader.LineSet(Emit(init, eol) + []) == NonEmptyLines(init + [[]])
  {
    assert Emit(init, eol) + [] == Emit(init, eol);
    ReadBackEmitted(init, eol);
    assert NonEmptyLines(init + [[]]) == NonEmptyLines(init);
  }

  lemma ReadBackLastBare(init: seq<Line>, last: Line, eol: seq<byte>)
    requires IsEol(eol)
    requires forall k :: 0 <= k < |init| ==> Plain(init[k])
    requires Plain(last) && last != []
    ensures Reader.LineSet(Emit(init, eol) + last) == NonEmptyLines(init + [last])
  {
    var lines := init + [last];
    ReadEmitted(init, eol, last);
    Reader.ReadLinesNoLf(last);
    var segments := Terminated(init, eol) + [last];
    assert Reader.ReadLines(Emit(init, eol) + last) == segments;
    forall k | 0 <= k < |lines|
      ensures Reader.StripTrailingNewlines(segments[k]) == lines[k]
    {
      if k < |init| {
        Reader.StripTerminated(init[k], eol);
      } else {
        Reader.StripTerminated(last, []);
        assert last + [] == last;
      }
    }
    StrippedSet(segments, lines);
  }

  /** The standard output byte stream (`sys.stdout.buffer`): what has been written so far. */
  class ByteStream {
    var written: seq<byte>

    constructor ()
      ensures written == []
    {
      written := [];
    }

    /** `write(data)`. */
    method Write(data: seq<byte>)
      modifies this
      ensures written == old(written) + data
    {
      written := written + data;
    }
  }

  /** The output loop: each line, then the EOL bytes. */
  method WriteLines(out: ByteStream, lines: seq<Line>, eol: seq<byte>)
    modifies out
    ensures out.written == old(out.written) + Emit(lines, eol)
  {
    for i := 0 to |lines|
      invariant out.written == old(out.written) + Emit(lines[..i], eol)
    {
      assert lines[..i + 1] == lines[..i] + [lines[i]];
      EmitSnoc(lines[..i], lines[i], eol);
      out.Write(lines[i]);
      out.Write(eol);
    }
    assert lines[..|lines|] == lines;
  }
}
