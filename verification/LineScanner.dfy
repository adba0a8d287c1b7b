/** The chunked line reader of the event agent: short reads, a seek back to the end of each line. */
module LineScanner {
  import opened Wrappers
  import opened Text

  const NEWLINE: Byte := 10
  const CHUNK: nat := 4096

  datatype Error = EndOfFile | Closed | ReadFailed | SeekFailed

  /** An open file: `content` is what can be read of it and `stop` what every read behind it returns, be it the end
      of the file, a read error, or that the file was closed. */
  class OsFile {
    const content: seq<Byte>
    const stop: Error
    const seekable: bool
    var offset: nat

    predicate Valid()
      reads this
    {
      offset <= |content|
    }

    constructor (content: seq<Byte>, stop: Error, seekable: bool)
      ensures Valid() && offset == 0
      ensures this.content == content && this.stop == stop && this.seekable == seekable
    {
      this.content, this.stop, this.seekable, this.offset := content, stop, seekable, 0;
    }

    /** Returns some number of bytes between 1 and `limit` while there are any: how many is not known. */
    method Read(limit: nat) returns (data: seq<Byte>, err: Option<Error>)
      requires Valid() && 0 < limit
      modifies this
      ensures Valid()
      ensures if old(offset) == |content| then data == [] && err == Some(stop) && offset == old(offset)
              else err == None && 0 < |data| <= limit && offset == old(offset) + |data| &&
                   data == content[old(offset)..offset]
    {
      if offset == |content| {
        return [], Some(stop);
      }
      var n :| 1 <= n <= limit && offset + n <= |content|;
      data, err := content[offset..offset + n], None;
      offset := offset + n;
    }

    method SeekBack(n: nat) returns (ok: bool)
      requires Valid() && n <= offset
      modifies this
      ensures Valid() && ok == seekable
      ensures offset == if ok then old(offset) - n else old(offset)
    {
      if seekable {
        offset := offset - n;
      }
      ok := seekable;
    }
  }

  // ---- Lines ---------------------------------------------------------------

  ghost predicate Unbroken(content: seq<Byte>, start: nat, end: nat) {
    start <= end <= |content| && forall k :: start <= k < end ==> content[k] != NEWLINE
  }

  /** The line starting at `offset` ends at `end`: at the first newline, or with the text. */
  ghost predicate IsLineEnd(content: seq<Byte>, offset: nat, end: nat) {
    && Unbroken(content, offset, end)
    && (end < |content| ==> content[end] == NEWLINE)
  }

  function LineEnd(content: seq<Byte>, offset: nat): (end: nat)
    requires offset <= |content|
    ensures IsLineEnd(content, offset, end)
    decreases |content| - offset
  {
    if offset == |content| || content[offset] == NEWLINE then offset else LineEnd(content, offset + 1)
  }

  /** The offset just past the newline at `end`, if there is one. */
  function Past(content: seq<Byte>, end: nat): nat {
    if end < |content| then end + 1 else end
  }

  /** The lines from an offset on. An unterminated last line is lost when the file is closed behind it. */
  function LinesFrom(content: seq<Byte>, offset: nat, stop: Error): seq<seq<Byte>>
    requires offset <= |content|
    decreases |content| - offset
  {
    if offset == |content| then []
    else
      var end := LineEnd(content, offset);
      if end == |content| && stop.Closed? then []
      else [content[offset..end]] + LinesFrom(content, Past(content, end), stop)
  }

  /** `line` is the line that starts at `offset`. */
  ghost predicate LineAt(content: seq<Byte>, offset: nat, line: seq<Byte>) {
    && IsLineEnd(content, offset, offset + |line|)
    && line == content[offset..offset + |line|]
  }

  /** `part` is what lies between `offset` and `here`, without a newline. */
  ghost predicate PartAt(content: seq<Byte>, offset: nat, part: seq<Byte>, here: nat) {
    && Unbroken(content, offset, here)
    && part == content[offset..here]
  }

  lemma PartGrows(content: seq<Byte>, offset: nat, part: seq<Byte>, here: nat, piece: seq<Byte>)
    requires PartAt(content, offset, part, here) && NEWLINE !in piece
    requires here + |piece| <= |content| && piece == content[here..here + |piece|]
    ensures PartAt(content, offset, part + piece, here + |piece|)
  {
    var next := here + |piece|;
    forall k | here <= k < next
      ensures content[k] != NEWLINE
    {
      assert content[k] == piece[k - here];
    }
    assert content[offset..next] == content[offset..here] + content[here..next];
  }

  /** The line ends inside a chunk. */
  lemma ChunkEnds(content: seq<Byte>, offset: nat, part: seq<Byte>, here: nat, chunk: seq<Byte>, i: nat)
    requires PartAt(content, offset, part, here)
    requires here + |chunk| <= |content| && chunk == content[here..here + |chunk|]
    requires i < |chunk| && chunk[i] == NEWLINE && NEWLINE !in chunk[..i]
    ensures LineAt(content, offset, part + chunk[..i])
  {
    var piece := chunk[..i];
    assert piece == content[here..here + |piece|];
    assert content[here + i] == chunk[i];
    PartGrows(content, offset, part, here, piece);
  }

  // ---- The scanner ---------------------------------------------------------

  class Scanner {
    const r: OsFile
    var buf: seq<Byte>
    var err: Option<Error>

    constructor (f: OsFile)
      ensures r == f && buf == [] && err == None
    {
      r, buf, err := f, [], None;
    }

    /** Puts the next line into `buf` and moves the offset exactly past it; a file that cannot seek keeps the
        rest of the chunk to itself. */
    method Scan() returns (more: bool)
      requires r.Valid()
      modifies this, r
      ensures r.Valid() && LineAt(r.content, old(r.offset), buf)
      ensures var end := old(r.offset) + |buf|;
              if end < |r.content| then
                && more && Past(r.content, end) <= r.offset
                && if r.seekable then r.offset == Past(r.content, end) && err == old(err) else err == Some(SeekFailed)
              else
                && r.offset == end
                && (more <==> old(r.offset) < end && !r.stop.Closed?)
                && err == if more || r.stop.Closed? then old(err) else Some(r.stop)
    {
      buf := [];
      ghost var start := r.offset;
      while true
        invariant r.Valid() && PartAt(r.content, start, buf, r.offset)
        invariant err == old(err)
        decreases |r.content| - r.offset
      {
        ghost var here := r.offset;
        var tmp, e := r.Read(CHUNK);
        if 0 < |tmp| {
          var idx := IndexOf(tmp, NEWLINE);
          if idx < |tmp| {
            ChunkEnds(r.content, start, buf, here, tmp, idx);
            buf := buf + tmp[..idx];
            var ok := r.SeekBack(|tmp| - idx - 1);
            if !ok {
              err := Some(SeekFailed);
            }
            return true;
          }
          PartGrows(r.content, start, buf, here, tmp);
          buf := buf + tmp;
        } else if e == Some(Closed) {
          return false;
        } else if 0 < |buf| {
          return true;
        } else {
          err := e;
          return false;
        }
      }
    }
  }

  lemma NextLine(content: seq<Byte>, offset: nat, end: nat, stop: Error)
    requires offset < |content| && IsLineEnd(content, offset, end)
    ensures LinesFrom(content, offset, stop) ==
            if end == |content| && stop.Closed? then []
            else [content[offset..end]] + LinesFrom(content, Past(content, end), stop)
  {
    assert LineEnd(content, offset) == end;
  }

  /** The search for the cgroup2 mount point: the loop over the lines of mountinfo, where `mountOf` takes one
      line apart and `n` lines were passed over. An open file without a mount point gives the error that ended it,
      end-of-file included; the "not found" error, None here, needs a closed file. */
  method FindMountpoint(f: OsFile, mountOf: seq<Byte> -> Option<seq<Byte>>)
    returns (mount: Option<seq<Byte>>, err: Option<Error>, ghost n: nat)
    requires f.Valid()
    modifies f
    ensures f.Valid() && (mount.Some? ==> err == None)
    ensures mount.None? && !f.stop.Closed? ==> err == Some(f.stop)
    ensures f.seekable ==>
              var all := LinesFrom(f.content, old(f.offset), f.stop);
              && n <= |all|
              && (forall i :: 0 <= i < n ==> mountOf(all[i]) == None)
              && (mount.Some? ==> n < |all| && mountOf(all[n]) == mount)
              && (mount.None? ==> n == |all| && err == if f.stop.Closed? then None else Some(f.stop))
  {
    var sc := new Scanner(f);
    n := 0;
    ghost var all := LinesFrom(f.content, f.offset, f.stop);
    while true
      invariant f.Valid() && sc.r == f && fresh(sc)
      invariant f.seekable ==> sc.err == None
      invariant f.seekable ==> n <= |all| && LinesFrom(f.content, f.offset, f.stop) == all[n..]
      invariant f.seekable ==> forall i :: 0 <= i < n ==> mountOf(all[i]) == None
      decreases |f.content| - f.offset
    {
      ghost var here := f.offset;
      var more := sc.Scan();
      if here < |f.content| {
        NextLine(f.content, here, here + |sc.buf|, f.stop);
      }
      if !more {
        return None, sc.err, n;
      }
      assert f.seekable ==> all[n] == sc.buf && all[n + 1..] == all[n..][1..];
      mount := mountOf(sc.buf);
      if mount.Some? {
        return mount, None, n;
      }
      n := n + 1;
    }
  }

  // ---- What the lines are --------------------------------------------------

  /** Each line followed by a newline. */
  function Terminated(lines: seq<seq<Byte>>): seq<Byte> {
    if lines == [] then [] else lines[0] + [NEWLINE] + Terminated(lines[1..])
  }

  lemma TerminatedCons(line: seq<Byte>, lines: seq<seq<Byte>>)
    ensures Terminated([line] + lines) == line + [NEWLINE] + Terminated(lines)
  {
    assert ([line] + lines)[1..] == lines;
  }

  lemma {:induction false} LinesAreFree(content: seq<Byte>, offset: nat, stop: Error)
    requires offset <= |content|
    ensures Free(LinesFrom(content, offset, stop), NEWLINE) && NEWLINE == '\n' as int as Byte
    decreases |content| - offset
  {
    if offset < |content| {
      var end := LineEnd(content, offset);
      if end < |content| {
        LinesAreFree(content, end + 1, stop);
      }
    }
  }

  /** The text up to `cut`, with a newline added where its last line has none. */
  function Completed(content: seq<Byte>, offset: nat, cut: nat): seq<Byte>
    requires offset <= cut <= |content|
  {
    content[offset..cut] + if cut == offset || content[cut - 1] == NEWLINE then [] else [NEWLINE]
  }

  lemma Regroup(a: seq<Byte>, b: seq<Byte>, c: seq<Byte>, d: seq<Byte>)
    ensures (a + b + c) + d == a + b + (c + d)
  {}

  lemma CompletedLine(content: seq<Byte>, offset: nat, end: nat, cut: nat)
    requires offset <= end < cut <= |content| && content[end] == NEWLINE
    ensures content[offset..end] + [NEWLINE] + Completed(content, end + 1, cut) == Completed(content, offset, cut)
  {
    assert content[offset..cut] == content[offset..end] + [NEWLINE] + content[end + 1..cut];
    Regroup(content[offset..end], [NEWLINE], content[end + 1..cut],
            if content[cut - 1] == NEWLINE then [] else [NEWLINE]);
  }

  /** How far the lines reach: to the end, or past the last newline if the file is closed behind its text. */
  function Cut(content: seq<Byte>, offset: nat, stop: Error): (cut: nat)
    requires offset <= |content|
    ensures offset <= cut <= |content|
    ensures cut < |content| ==> stop.Closed? && Unbroken(content, cut, |content|)
    ensures stop.Closed? ==> cut == offset || content[cut - 1] == NEWLINE
    decreases |content| - offset
  {
    if offset == |content| then offset
    else
      var end := LineEnd(content, offset);
      if end < |content| then Cut(content, end + 1, stop) else if stop.Closed? then offset else end
  }

  lemma UnterminatedLine(content: seq<Byte>, offset: nat, stop: Error)
    requires offset < |content| && LineEnd(content, offset) == |content|
    ensures Terminated(LinesFrom(content, offset, stop)) == Completed(content, offset, Cut(content, offset, stop))
  {
    if !stop.Closed? {
      var last := content[offset..|content|];
      assert LinesFrom(content, offset, stop) == [last];
      TerminatedCons(last, []);
      assert [last] + [] == [last];
    }
  }

  lemma TerminatedLine(content: seq<Byte>, offset: nat, end: nat, rest: seq<seq<Byte>>, cut: nat)
    requires offset <= end < cut <= |content| && content[end] == NEWLINE
    requires Terminated(rest) == Completed(content, end + 1, cut)
    ensures Terminated([content[offset..end]] + rest) == Completed(content, offset, cut)
  {
    TerminatedCons(content[offset..end], rest);
    CompletedLine(content, offset, end, cut);
  }

  ghost predicate Reassembles(content: seq<Byte>, offset: nat, stop: Error)
    requires offset <= |content|
  {
    Terminated(LinesFrom(content, offset, stop)) == Completed(content, offset, Cut(content, offset, stop))
  }

  lemma ReassemblesStep(content: seq<Byte>, offset: nat, stop: Error)
    requires offset < |content| && LineEnd(content, offset) < |content|
    requires Reassembles(content, LineEnd(content, offset) + 1, stop)
    ensures Reassembles(content, offset, stop)
  {
    var end := LineEnd(content, offset);
    var rest, cut := LinesFrom(content, end + 1, stop), Cut(content, end + 1, stop);
    TerminatedLine(content, offset, end, rest, cut);
    assert LinesFrom(content, offset, stop) == [content[offset..end]] + rest;
  }

  /** Put back together, the lines are the text up to the cut, with a newline added exactly where the last line had
      none. */
  lemma {:induction false} LinesReassemble(content: seq<Byte>, offset: nat, stop: Error)
    requires offset <= |content|
    ensures Reassembles(content, offset, stop)
    decreases |content| - offset
  {
    if offset < |content| {
      var end := LineEnd(content, offset);
      if end < |content| {
        LinesReassemble(content, end + 1, stop);
        ReassemblesStep(content, offset, stop);
      } else {
        UnterminatedLine(content, offset, stop);
      }
    }
  }

  lemma TerminatedHead(lines: seq<seq<Byte>>)
    requires lines != []
    ensures var t, n := Terminated(lines), |lines[0]|;
            && n < |t| && t[n] == NEWLINE
            && t[..n] == lines[0] && t[n + 1..] == Terminated(lines[1..])
            && forall k :: 0 <= k < n ==> t[k] == lines[0][k]
  {}

  /** No other newline-free lines make up the same text. */
  lemma {:induction false} TerminatedInjective(a: seq<seq<Byte>>, b: seq<seq<Byte>>)
    requires Free(a, NEWLINE) && Free(b, NEWLINE) && Terminated(a) == Terminated(b)
    ensures a == b
    decreases |a|
  {
    if a != [] {
      TerminatedHead(a);
    }
    if b != [] {
      TerminatedHead(b);
    }
    if a != [] && b != [] {
      assert |a[0]| == |b[0]|;
      TerminatedInjective(a[1..], b[1..]);
      assert a == [a[0]] + a[1..] && b == [b[0]] + b[1..];
    }
  }
}
