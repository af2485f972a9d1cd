/** newlib's reentrant `write`, redirected to two line buffers (stdout and
    stderr) whose completed lines go to the host's log sink: one record per
    line, at info level for stdout and warn level for stderr. */
module StdioShim {
  import opened Base

  const NL: Byte := 0x0A

  datatype Level = Info | Warn

  /** One record handed to the log sink; the message is kept as raw bytes. */
  datatype Record = Record(level: Level, msg: seq<Byte>)

  /** `s.iter().position(|c| *c == b'\n')` */
  function FirstNewline(s: seq<Byte>): (r: Option<nat>)
    ensures r.None? <==> NL !in s
    ensures r.Some? ==> r.value < |s| && s[r.value] == NL && NL !in s[..r.value]
  {
    if s == [] then None
    else if s[0] == NL then Some(0)
    else match FirstNewline(s[1..])
      case None => None
      case Some(i) => (assert s[..i + 1] == [s[0]] + s[1..][..i]; Some(i + 1))
  }

  /** The iterator search itself: a scan that stops at the first newline. */
  method FindNewline(s: seq<Byte>) returns (r: Option<nat>)
    ensures r == FirstNewline(s)
  {
    var i := 0;
    while i < |s|
      invariant 0 <= i <= |s|
      invariant NL !in s[..i]
    {
      if s[i] == NL {
        return Some(i);
      }
      assert s[..i + 1] == s[..i] + [s[i]];
      i := i + 1;
    }
    assert s[..i] == s;
    return None;
  }

  /** The outcome of pushing bytes through a line buffer: the completed lines,
      oldest first, and what stays buffered. */
  datatype Split = Split(lines: seq<seq<Byte>>, rest: seq<Byte>)

  /** The loop of `_write_r` over the input `s` with `pending` already
      buffered: each newline completes the buffer plus the bytes before it as
      a line and empties the buffer; bytes after the last newline stay
      buffered. */
  function Drain(pending: seq<Byte>, s: seq<Byte>): Split
    decreases |s|
  {
    if s == [] then Split([], pending)
    else match FirstNewline(s)
      case None => Split([], pending + s)
      case Some(eol) =>
        var tail := Drain([], s[eol + 1..]);
        Split([pending + s[..eol]] + tail.lines, tail.rest)
  }

  /** Each line followed by a newline, concatenated. */
  function Joined(lines: seq<seq<Byte>>): seq<Byte>
  {
    if lines == [] then [] else lines[0] + [NL] + Joined(lines[1..])
  }

  predicate NoNewlines(lines: seq<seq<Byte>>)
  {
    forall i | 0 <= i < |lines| :: NL !in lines[i]
  }

  function CountNewlines(s: seq<Byte>): nat
  {
    multiset(s)[NL]
  }

  /** Where the parts of `p`, a newline and `q` sit in their concatenation. */
  lemma NewlineJoin(p: seq<Byte>, q: seq<Byte>, x: seq<Byte>)
    requires x == p + [NL] + q
    ensures |p| < |x| && x[|p|] == NL && x[..|p|] == p && x[|p| + 1..] == q
  {
  }

  /** A newline at `eol` cuts `s` into the bytes before it and after it. */
  lemma NewlineCut(s: seq<Byte>, eol: nat)
    requires eol < |s| && s[eol] == NL
    ensures s == s[..eol] + [NL] + s[eol + 1..]
  {
  }

  /** The joined form of a non-empty list of lines starts with its first
      line and a newline. */
  lemma JoinedHead(a: seq<seq<Byte>>, r: seq<Byte>)
    requires a != []
    ensures Joined(a) + r == a[0] + [NL] + (Joined(a[1..]) + r)
  {
  }

  lemma JoinedCons(line: seq<Byte>, lines: seq<seq<Byte>>)
    ensures Joined([line] + lines) == line + [NL] + Joined(lines)
  {
    assert ([line] + lines)[1..] == lines;
  }

  /** One step of `Drain`: the first newline of a non-empty input completes
      the pending bytes plus what precedes it. */
  lemma DrainStep(pending: seq<Byte>, s: seq<Byte>, eol: nat)
    requires s != [] && FirstNewline(s) == Some(eol)
    ensures eol < |s|
    ensures Drain(pending, s).lines == [pending + s[..eol]] + Drain([], s[eol + 1..]).lines
    ensures Drain(pending, s).rest == Drain([], s[eol + 1..]).rest
  {
  }

  /** Nothing is lost or reordered: the completed lines, each with its
      newline, followed by what stays buffered, are exactly the old buffer
      followed by the input. */
  lemma {:induction false} DrainJoined(pending: seq<Byte>, s: seq<Byte>)
    ensures Joined(Drain(pending, s).lines) + Drain(pending, s).rest == pending + s
    decreases |s|
  {
    if s != [] && FirstNewline(s).Some? {
      var eol := FirstNewline(s).value;
      DrainStep(pending, s, eol);
      DrainJoined([], s[eol + 1..]);
      JoinedStep(pending, s, eol, Drain([], s[eol + 1..]).lines, Drain([], s[eol + 1..]).rest);
    }
  }

  lemma JoinedStep(pending: seq<Byte>, s: seq<Byte>, eol: nat, lines: seq<seq<Byte>>, rest: seq<Byte>)
    requires eol < |s| && s[eol] == NL && Joined(lines) + rest == s[eol + 1..]
    ensures Joined([pending + s[..eol]] + lines) + rest == pending + s
  {
    JoinedCons(pending + s[..eol], lines);
    NewlineCut(s, eol);
  }

  /** Neither a completed line nor the buffer left behind contains a newline,
      provided the old buffer did not. */
  lemma {:induction false} DrainNoNewlines(pending: seq<Byte>, s: seq<Byte>)
    requires NL !in pending
    ensures NoNewlines(Drain(pending, s).lines) && NL !in Drain(pending, s).rest
    decreases |s|
  {
    if s != [] && FirstNewline(s).Some? {
      var eol := FirstNewline(s).value;
      DrainStep(pending, s, eol);
      DrainNoNewlines([], s[eol + 1..]);
      assert NL !in pending + s[..eol];
    }
  }

  /** A newline between two pieces adds one to their newline counts. */
  lemma CountJoin(p: seq<Byte>, q: seq<Byte>, x: seq<Byte>)
    requires x == p + [NL] + q
    ensures CountNewlines(x) == CountNewlines(p) + 1 + CountNewlines(q)
  {
    assert multiset(x) == multiset(p) + multiset{NL} + multiset(q);
  }

  /** Every newline in the input completes exactly one line. */
  lemma {:induction false} DrainCount(pending: seq<Byte>, s: seq<Byte>)
    ensures |Drain(pending, s).lines| == CountNewlines(s)
    decreases |s|
  {
    if s != [] && FirstNewline(s).Some? {
      var eol := FirstNewline(s).value;
      DrainStep(pending, s, eol);
      DrainCount([], s[eol + 1..]);
      NewlineCut(s, eol);
      CountJoin(s[..eol], s[eol + 1..], s);
      assert NL !in multiset(s[..eol]);
    } else {
      assert NL !in multiset(s);
    }
  }

  /** A byte string splits in only one way into newline-free lines, each
      followed by a newline, and a newline-free remainder. */
  lemma {:induction false} JoinedUnique(a: seq<seq<Byte>>, ra: seq<Byte>, b: seq<seq<Byte>>, rb: seq<Byte>)
    requires NoNewlines(a) && NL !in ra && NoNewlines(b) && NL !in rb
    requires Joined(a) + ra == Joined(b) + rb
    ensures a == b && ra == rb
    decreases |a|
  {
    JoinedFirstNewline(a, ra);
    JoinedFirstNewline(b, rb);
    if a != [] {
      JoinedHead(a, ra);
      JoinedHead(b, rb);
      NewlineJoin(a[0], Joined(a[1..]) + ra, Joined(a) + ra);
      NewlineJoin(b[0], Joined(b[1..]) + rb, Joined(b) + rb);
      assert NoNewlines(a[1..]) && NoNewlines(b[1..]);
      JoinedUnique(a[1..], ra, b[1..], rb);
      assert a == [a[0]] + a[1..] && b == [b[0]] + b[1..];
    } else {
      assert ra == Joined(a) + ra;
      assert rb == Joined(b) + rb;
    }
  }

  /** The first newline of `x` is the one after a newline-free prefix. */
  lemma {:induction false} FirstNewlineAfter(p: seq<Byte>, q: seq<Byte>, x: seq<Byte>)
    requires NL !in p && x == p + [NL] + q
    ensures FirstNewline(x) == Some(|p|)
  {
    if p != [] {
      assert x[0] == p[0] && x[0] != NL;
      assert x[1..] == p[1..] + [NL] + q;
      FirstNewlineAfter(p[1..], q, x[1..]);
    }
  }

  /** In a joined string, the first newline ends the first line; there is
      none when there are no lines. */
  lemma JoinedFirstNewline(a: seq<seq<Byte>>, r: seq<Byte>)
    requires NoNewlines(a) && NL !in r
    ensures FirstNewline(Joined(a) + r) == if a == [] then None else Some(|a[0]|)
  {
    if a != [] {
      JoinedHead(a, r);
      assert NL !in a[0];
      FirstNewlineAfter(a[0], Joined(a[1..]) + r, Joined(a) + r);
    } else {
      assert Joined(a) + r == r;
    }
  }

  /** `Drain` is the line split of the old buffer followed by the input:
      any newline-free lines and newline-free remainder that reassemble
      into them are exactly what `Drain` produces. */
  lemma DrainIsTheSplit(pending: seq<Byte>, s: seq<Byte>, lines: seq<seq<Byte>>, rest: seq<Byte>)
    requires NL !in pending && NoNewlines(lines) && NL !in rest
    requires Joined(lines) + rest == pending + s
    ensures Drain(pending, s) == Split(lines, rest)
  {
    DrainJoined(pending, s);
    DrainNoNewlines(pending, s);
    JoinedUnique(Drain(pending, s).lines, Drain(pending, s).rest, lines, rest);
  }

  /** Joining two lists of lines is joining each. */
  lemma {:induction false} JoinedAppend(a: seq<seq<Byte>>, b: seq<seq<Byte>>)
    ensures Joined(a + b) == Joined(a) + Joined(b)
    decreases |a|
  {
    if a != [] {
      assert (a + b)[1..] == a[1..] + b;
      JoinedAppend(a[1..], b);
      JoinedCons(a[0], a[1..] + b);
      assert a + b == [a[0]] + (a[1..] + b);
    } else {
      assert a + b == b;
    }
  }

  /** Two consecutive splits combine into the split of the whole. */
  lemma SplitsCombine(pending: seq<Byte>, s1: seq<Byte>, s2: seq<Byte>,
                      l1: seq<seq<Byte>>, r1: seq<Byte>, l2: seq<seq<Byte>>, r2: seq<Byte>)
    requires NoNewlines(l1) && NoNewlines(l2)
    requires Joined(l1) + r1 == pending + s1 && Joined(l2) + r2 == r1 + s2
    ensures NoNewlines(l1 + l2)
    ensures Joined(l1 + l2) + r2 == pending + (s1 + s2)
  {
    JoinedAppend(l1, l2);
    var all := l1 + l2;
    forall i | 0 <= i < |all|
      ensures NL !in all[i]
    {
      if i < |l1| {
        assert all[i] == l1[i];
      } else {
        assert all[i] == l2[i - |l1|];
      }
    }
    calc {
      Joined(l1 + l2) + r2;
      (Joined(l1) + Joined(l2)) + r2;
      Joined(l1) + (Joined(l2) + r2);
      Joined(l1) + (r1 + s2);
      (Joined(l1) + r1) + s2;
      pending + (s1 + s2);
    }
  }

  /** Line buffering does not depend on how the output is cut into writes:
      writing `s1` and then `s2` completes the same lines, and leaves the
      same bytes buffered, as writing `s1 + s2` at once. */
  lemma DrainConcat(pending: seq<Byte>, s1: seq<Byte>, s2: seq<Byte>)
    requires NL !in pending
    ensures var first := Drain(pending, s1);
      var second := Drain(first.rest, s2);
      Drain(pending, s1 + s2) == Split(first.lines + second.lines, second.rest)
  {
    var first := Drain(pending, s1);
    DrainJoined(pending, s1);
    DrainNoNewlines(pending, s1);
    var second := Drain(first.rest, s2);
    DrainJoined(first.rest, s2);
    DrainNoNewlines(first.rest, s2);
    SplitsCombine(pending, s1, s2, first.lines, first.rest, second.lines, second.rest);
    DrainIsTheSplit(pending, s1 + s2, first.lines + second.lines, second.rest);
  }

  /** The records emitted for `lines` at `level`, in order. */
  function Records(level: Level, lines: seq<seq<Byte>>): (r: seq<Record>)
    ensures |r| == |lines|
    ensures forall i | 0 <= i < |r| :: r[i] == Record(level, lines[i])
  {
    if lines == [] then [] else [Record(level, lines[0])] + Records(level, lines[1..])
  }

  function LevelOf(fd: int): Level
  {
    if fd == 1 then Info else Warn
  }

  /** The process-wide `STDOUT` and `STDERR` buffers together with the log
      records emitted so far. */
  class Stdio {
    var out: seq<Byte>
    var err: seq<Byte>
    var log: seq<Record>

    /** Buffers only ever hold an unterminated fragment. */
    ghost predicate Valid()
      reads this
    {
      NL !in out && NL !in err
    }

    constructor ()
      ensures Valid() && out == [] && err == [] && log == []
    {
      out, err, log := [], [], [];
    }

    /** The buffer a stream id selects. */
    function Buffer(fd: int): seq<Byte>
      requires fd == 1 || fd == 2
      reads this
    {
      if fd == 1 then out else err
    }

    /** `_write_r`. A stream id other than 1 or 2 fails with EIO and changes
        no buffer; otherwise every newline completes a line that is logged
        and the rest stays buffered, and the whole input counts as written.
        The input slice is at most `isize::MAX` bytes long, as
        `slice::from_raw_parts` demands. */
    method Write(re: Reent, fd: int, buf: seq<Byte>) returns (r: int)
      requires Valid() && |buf| <= ISIZE_MAX
      modifies this, re
      ensures Valid()
      ensures fd != 1 && fd != 2 ==>
        r == -1 && re.errno == EIO && out == old(out) && err == old(err) && log == old(log)
      ensures fd == 1 || fd == 2 ==>
        && r == |buf|
        && re.errno == old(re.errno)
        && Buffer(fd) == Drain(old(Buffer(fd)), buf).rest
        && Buffer(3 - fd) == old(Buffer(3 - fd))
        && log == old(log) + Records(LevelOf(fd), Drain(old(Buffer(fd)), buf).lines)
    {
      if fd != 1 && fd != 2 {
        re.errno := EIO;
        return -1;
      }
      var level := LevelOf(fd);
      // `f` stands for the buffer the stream id selects; it is stored back below.
      var f := Buffer(fd);
      var s := buf;
      ghost var goal := Drain(f, s);
      ghost var emitted: seq<seq<Byte>> := [];
      DrainNoNewlines(f, s);
      while s != []
        invariant emitted + Drain(f, s).lines == goal.lines
        invariant Drain(f, s).rest == goal.rest
        invariant log == old(log) + Records(level, emitted)
        invariant out == old(out) && err == old(err) && re.errno == old(re.errno)
        decreases |s|
      {
        var eol := FindNewline(s);
        match eol {
          case None =>
            DrainLast(f, s);
            f := f + s;
            break;
          case Some(i) =>
            LoopStep(level, emitted, f, s, i, goal);
            LogAppend(old(log), level, emitted, f + s[..i]);
            f := f + s[..i];
            log := log + [Record(level, f)];
            emitted := emitted + [f];
            f := [];
            s := s[i + 1..];
        }
      }
      assert emitted == goal.lines && f == goal.rest;
      if fd == 1 {
        out := f;
      } else {
        err := f;
      }
      r := |buf|;
    }
  }

  /** One turn of the loop of `_write_r` that meets a newline keeps its
      invariant: the completed line moves from what `Drain` still has to
      produce to what has been emitted. */
  lemma LoopStep(level: Level, emitted: seq<seq<Byte>>, f: seq<Byte>, s: seq<Byte>, eol: nat, goal: Split)
    requires s != [] && FirstNewline(s) == Some(eol)
    requires emitted + Drain(f, s).lines == goal.lines && Drain(f, s).rest == goal.rest
    ensures eol < |s|
    ensures (emitted + [f + s[..eol]]) + Drain([], s[eol + 1..]).lines == goal.lines
    ensures Drain([], s[eol + 1..]).rest == goal.rest
  {
    DrainStep(f, s, eol);
    var line := f + s[..eol];
    var later := Drain([], s[eol + 1..]).lines;
    assert (emitted + [line]) + later == emitted + ([line] + later);
  }

  /** Logging one more line appends its record to the log. */
  lemma LogAppend(log: seq<Record>, level: Level, lines: seq<seq<Byte>>, line: seq<Byte>)
    ensures log + Records(level, lines + [line]) == (log + Records(level, lines)) + [Record(level, line)]
  {
  }

  /** The last step of `Drain`: with no newline left, the input joins the
      buffer and no line is completed. */
  lemma DrainLast(pending: seq<Byte>, s: seq<Byte>)
    requires s != [] && FirstNewline(s).None?
    ensures Drain(pending, s) == Split([], pending + s)
  {
  }

  /** A line that ends its input: its bytes, after what was pending, are
      completed and nothing stays buffered. */
  lemma DrainOneLine(pending: seq<Byte>, line: seq<Byte>, s: seq<Byte>)
    requires NL !in line && s == line + [NL]
    ensures Drain(pending, s) == Split([pending + line], [])
  {
    FirstNewlineAfter(line, [], s);
    NewlineJoin(line, [], s);
    DrainStep(pending, s, |line|);
    assert Drain([], s[|line| + 1..]) == Split([], []);
  }

  /** Two lines that make up the whole input are both completed. */
  lemma DrainTwoLines(line1: seq<Byte>, line2: seq<Byte>, s: seq<Byte>)
    requires NL !in line1 && NL !in line2 && s == line1 + [NL] + (line2 + [NL])
    ensures Drain([], s) == Split([line1, line2], [])
  {
    var rest := line2 + [NL];
    FirstNewlineAfter(line1, rest, s);
    NewlineJoin(line1, rest, s);
    DrainStep([], s, |line1|);
    DrainOneLine([], line2, rest);
    assert [] + line1 == line1 && [] + line2 == line2;
  }

  /** "abc" written to stdout stays buffered with nothing logged; a
      following "def\n" logs the single info record "abcdef" and empties the
      buffer. */
  method StdoutInTwoWrites() returns (buffered: seq<Byte>, logged: seq<Record>, out: seq<Byte>, log: seq<Record>)
    ensures buffered == [97, 98, 99] && logged == []
    ensures out == [] && log == [Record(Info, [97, 98, 99, 100, 101, 102])]
  {
    var re := new Reent();
    var io := new Stdio();
    var abc: seq<Byte> := [97, 98, 99];
    var def: seq<Byte> := [100, 101, 102];
    assert Drain([], abc) == Split([], abc) by {
      DrainLast([], abc);
      assert [] + abc == abc;
    }
    var r1 := io.Write(re, 1, abc);
    buffered, logged := io.out, io.log;
    assert Records(Info, []) == [];
    DrainOneLine(abc, def, def + [NL]);
    assert abc + def == [97, 98, 99, 100, 101, 102];
    var r2 := io.Write(re, 1, def + [NL]);
    out, log := io.out, io.log;
  }

  /** "line1\nline2\n" written to stderr at once logs two warn records,
      "line1" then "line2", and leaves the buffer empty. */
  method StderrTwoLines() returns (err: seq<Byte>, log: seq<Record>)
    ensures err == [] && log == [Record(Warn, [108, 105, 110, 101, 49]), Record(Warn, [108, 105, 110, 101, 50])]
  {
    var re := new Reent();
    var io := new Stdio();
    var line1: seq<Byte> := [108, 105, 110, 101, 49];
    var line2: seq<Byte> := [108, 105, 110, 101, 50];
    var s := line1 + [NL] + (line2 + [NL]);
    DrainTwoLines(line1, line2, s);
    assert Records(Warn, [line1, line2]) == [Record(Warn, line1), Record(Warn, line2)];
    var r := io.Write(re, 2, s);
    err, log := io.err, io.log;
  }

  /** A stream id other than 1 and 2 fails with EIO and touches no buffer. */
  method WriteToStreamThree(re: Reent, io: Stdio, buf: seq<Byte>) returns (r: int)
    requires io.Valid() && |buf| <= ISIZE_MAX
    modifies re, io
    ensures r == -1 && re.errno == EIO
    ensures io.out == old(io.out) && io.err == old(io.err) && io.log == old(io.log)
  {
    r := io.Write(re, 3, buf);
  }
}
