/**
  The backward chunked reader behind the JSONL log endpoints (internal/service/log_service.go).

  The file is read from its end in chunks; bytes of the line in progress are collected backwards
  in a carry-over buffer, and every decoded line is appended to the result, newest first, until
  the limit is reached.  The meaning is given by `Tail`: split the content on newlines, decode the
  lines from the last to the first, keep the first `limit` results.
 */
module LogTail {
  import opened Wrappers

  newtype Byte = b: int | 0 <= b < 256

  type Bytes = seq<Byte>

  const NEWLINE: Byte := 10

  /** Trimming white space and decoding JSON are library code: any two functions will do. */
  datatype Decoder<!E> = Decoder(trim: Bytes -> Bytes, parse: Bytes -> Option<E>)

  /** What the operating system may answer.  Seeking to or reading at an offset may fail. */
  datatype File =
    | Missing
    | StatFails
    | OpenFails(size: nat)
    | Readable(content: Bytes, readFails: nat -> bool)

  datatype IOError = StatError | OpenError | ReadError

  // ---------------------------------------------------------------- specification

  function Reverse<T>(s: seq<T>): (r: seq<T>)
    ensures |r| == |s|
  {
    if s == [] then [] else [s[|s| - 1]] + Reverse(s[..|s| - 1])
  }

  /** Splitting on the newline byte: n newlines give n + 1 lines, the last possibly empty. */
  function Split(s: Bytes): (lines: seq<Bytes>)
    ensures |lines| >= 1
  {
    if s == [] then [[]]
    else
      var rest := Split(s[1..]);
      if s[0] == NEWLINE then [[]] + rest else [[s[0]] + rest[0]] + rest[1..]
  }

  function Join(lines: seq<Bytes>): Bytes
    requires |lines| >= 1
  {
    if |lines| == 1 then lines[0] else lines[0] + [NEWLINE] + Join(lines[1..])
  }

  /** Zero or one entry for one line. */
  function DecodeLine<E>(d: Decoder<E>, line: Bytes): (r: seq<E>)
    ensures |r| <= 1
  {
    if line == [] then []
    else
      var trimmed := d.trim(line);
      if trimmed == [] then []
      else match d.parse(trimmed)
        case None => []
        case Some(e) => [e]
  }

  /** The entries of some lines, last line first. */
  function NewestFirst<E>(d: Decoder<E>, lines: seq<Bytes>): seq<E> {
    if lines == [] then []
    else DecodeLine(d, lines[|lines| - 1]) + NewestFirst(d, lines[..|lines| - 1])
  }

  /** All entries of a file, newest first. */
  function Entries<E>(d: Decoder<E>, content: Bytes): seq<E> {
    NewestFirst(d, Split(content))
  }

  /** The meaning of the tail: the newest `limit` entries. */
  function Tail<E>(d: Decoder<E>, content: Bytes, limit: int): seq<E> {
    if limit <= 0 then [] else Take(Entries(d, content), limit)
  }

  // ---------------------------------------------------------------- splitting is splitting

  /** No line of a split contains a newline, and joining the lines gives the content back. */
  lemma {:induction false} SplitJoin(s: Bytes)
    ensures Join(Split(s)) == s
    ensures forall i :: 0 <= i < |Split(s)| ==> NEWLINE !in Split(s)[i]
  {
    if s != [] {
      SplitJoin(s[1..]);
      var rest := Split(s[1..]);
      if s[0] == NEWLINE {
        assert Split(s)[1..] == rest;
        assert Join(Split(s)) == [] + [NEWLINE] + Join(rest);
      } else {
        assert Split(s)[1..] == rest[1..];
      }
      assert s == [s[0]] + s[1..];
    }
  }

  /** Newline-free lines survive joining and splitting, so Split is the only inverse of Join. */
  lemma {:induction false} JoinSplit(lines: seq<Bytes>)
    requires |lines| >= 1
    requires forall i :: 0 <= i < |lines| ==> NEWLINE !in lines[i]
    ensures Split(Join(lines)) == lines
    decreases |lines|, |lines[0]|
  {
    var s := Join(lines);
    if lines[0] == [] {
      if |lines| > 1 {
        assert s[1..] == Join(lines[1..]);
        JoinSplit(lines[1..]);
      }
    } else {
      var shorter := [lines[0][1..]] + lines[1..];
      assert shorter[1..] == lines[1..];
      assert s[1..] == Join(shorter);
      assert s[0] == lines[0][0] != NEWLINE;
      JoinSplit(shorter);
      assert lines[0] == [lines[0][0]] + lines[0][1..];
    }
  }

  // ---------------------------------------------------------------- what the tail of some lines is

  /** A file of several lines is the first one, a newline byte and the rest. */
  lemma JoinedText(first: Bytes, rest: seq<Bytes>)
    requires rest != []
    ensures Join([first]) == first && Join([first] + rest) == first + [10] + Join(rest)
  {
    assert ([first] + rest)[1..] == rest;
  }

  /** The line holds an entry: it is not empty, not blank, and decodes. */
  predicate HasEntry<E>(d: Decoder<E>, line: Bytes) {
    line != [] && d.trim(line) != [] && d.parse(d.trim(line)).Some?
  }

  lemma DecodedLine<E>(d: Decoder<E>, line: Bytes)
    ensures DecodeLine(d, line) == if HasEntry(d, line) then [d.parse(d.trim(line)).value] else []
  {
  }

  /** The positions of the lines that hold an entry, last line first. */
  function EntryLines<E>(d: Decoder<E>, lines: seq<Bytes>): seq<nat> {
    if lines == [] then []
    else
      var front, last := lines[..|lines| - 1], lines[|lines| - 1];
      (if HasEntry(d, last) then [|front|] else []) + EntryLines(d, front)
  }

  lemma {:induction false} EntryLineIff<E>(d: Decoder<E>, lines: seq<Bytes>, k: nat)
    ensures k in EntryLines(d, lines) <==> k < |lines| && HasEntry(d, lines[k])
  {
    if lines != [] {
      EntryLineIff(d, lines[..|lines| - 1], k);
    }
  }

  lemma EntryLineInRange<E>(d: Decoder<E>, lines: seq<Bytes>, i: nat)
    requires i < |EntryLines(d, lines)|
    ensures EntryLines(d, lines)[i] < |lines|
  {
    EntryLineIff(d, lines, EntryLines(d, lines)[i]);
  }

  lemma {:induction false} EntryLinesDescend<E>(d: Decoder<E>, lines: seq<Bytes>, i: nat, j: nat)
    requires i < j < |EntryLines(d, lines)|
    ensures EntryLines(d, lines)[i] > EntryLines(d, lines)[j]
  {
    var front, last := lines[..|lines| - 1], lines[|lines| - 1];
    if !HasEntry(d, last) {
      EntryLinesDescend(d, front, i, j);
    } else if i > 0 {
      EntryLinesDescend(d, front, i - 1, j - 1);
    } else {
      EntryLineInRange(d, front, j - 1);
    }
  }

  /** The entries are those of the lines at these positions, in this order. */
  lemma {:induction false} EntriesOfLines<E>(d: Decoder<E>, lines: seq<Bytes>)
    ensures |NewestFirst(d, lines)| == |EntryLines(d, lines)|
  {
    if lines != [] {
      EntriesOfLines(d, lines[..|lines| - 1]);
      DecodedLine(d, lines[|lines| - 1]);
    }
  }

  lemma {:induction false} EntryOfLine<E>(d: Decoder<E>, lines: seq<Bytes>, i: nat)
    requires i < |NewestFirst(d, lines)|
    ensures i < |EntryLines(d, lines)| && EntryLines(d, lines)[i] < |lines|
    ensures d.parse(d.trim(lines[EntryLines(d, lines)[i]])) == Some(NewestFirst(d, lines)[i])
  {
    var front, last := lines[..|lines| - 1], lines[|lines| - 1];
    EntriesOfLines(d, lines);
    DecodedLine(d, last);
    if !HasEntry(d, last) {
      EntryOfLine(d, front, i);
    } else if i > 0 {
      EntryOfLine(d, front, i - 1);
    }
  }

  /**
    The meaning of the tail, from the bytes: for any newline-free lines, the entries returned belong one
    to one, last line first, to the lines that are not empty, are not blank and decode; each entry is
    what the decoder makes of the trimmed line, and only the first `limit` are returned.
   */
  lemma TailOfLines<E>(d: Decoder<E>, lines: seq<Bytes>, limit: nat) returns (at: seq<nat>)
    requires lines != [] && forall i :: 0 <= i < |lines| ==> 10 !in lines[i]
    ensures forall i, j :: 0 <= i < j < |at| ==> at[i] > at[j]
    ensures forall k: nat :: k in at <==>
              k < |lines| && lines[k] != [] && d.trim(lines[k]) != [] && d.parse(d.trim(lines[k])).Some?
    ensures var tail := Tail(d, Join(lines), limit);
      && |tail| == (if |at| <= limit then |at| else limit)
      && forall i :: 0 <= i < |tail| ==> at[i] < |lines| && d.parse(d.trim(lines[at[i]])) == Some(tail[i])
  {
    JoinSplit(lines);
    at := EntryLines(d, lines);
    EntriesOfLines(d, lines);
    forall i, j | 0 <= i < j < |at| ensures at[i] > at[j] {
      EntryLinesDescend(d, lines, i, j);
    }
    forall k: nat ensures k in at <==> k < |lines| && HasEntry(d, lines[k]) {
      EntryLineIff(d, lines, k);
    }
    var all := NewestFirst(d, lines);
    forall i | 0 <= i < |all| ensures at[i] < |lines| && d.parse(d.trim(lines[at[i]])) == Some(all[i]) {
      EntryOfLine(d, lines, i);
    }
  }

  /** A log of one good record: the record's entry, and only that. */
  lemma TailOfOneRecord<E>(d: Decoder<E>, record: Bytes, e: E)
    requires 10 !in record && record != [] && d.trim(record) != [] && d.parse(d.trim(record)) == Some(e)
    ensures Tail(d, record + [10], 1) == [e]
  {
    var lines: seq<Bytes> := [record, []];
    JoinedText(record, [[]]);
    assert [record] + [[]] == lines;
    assert record + [10] + Join([[]]) == record + [10];
    var at := TailOfLines(d, lines, 1);
    assert lines[0] == record && lines[1] == [];
    assert 0 in at && 1 !in at;
    assert forall i :: 0 <= i < |at| ==> at[i] in at && at[i] == 0;
  }

  // ---------------------------------------------------------------- how the entries grow

  /** Putting one more (older) line in front appends its entry at the end. */
  lemma {:induction false} NewestFirstCons<E>(d: Decoder<E>, line: Bytes, lines: seq<Bytes>)
    ensures NewestFirst(d, [line] + lines) == NewestFirst(d, lines) + DecodeLine(d, line)
  {
    if lines != [] {
      var all := [line] + lines;
      assert all[..|all| - 1] == [line] + lines[..|lines| - 1];
      NewestFirstCons(d, line, lines[..|lines| - 1]);
    } else {
      assert [line][..0] == [];
    }
  }

  /** Entries completed when the scan stands at offset p: those of every line after the current one. */
  function Completed<E>(d: Decoder<E>, content: Bytes, p: nat): seq<E>
    requires p <= |content|
  {
    NewestFirst(d, Split(content[p..])[1..])
  }

  /** Stepping over one byte completes a line on a newline and extends the current line otherwise. */
  lemma StepBack<E>(d: Decoder<E>, content: Bytes, p: nat)
    requires 0 < p <= |content|
    ensures content[p - 1] == NEWLINE ==>
              Split(content[p - 1..])[0] == []
              && Completed(d, content, p - 1) == Completed(d, content, p) + DecodeLine(d, Split(content[p..])[0])
    ensures content[p - 1] != NEWLINE ==>
              Split(content[p - 1..])[0] == [content[p - 1]] + Split(content[p..])[0]
              && Completed(d, content, p - 1) == Completed(d, content, p)
  {
    var here, before := Split(content[p..]), Split(content[p - 1..]);
    assert content[p - 1..][1..] == content[p..];
    if content[p - 1] == NEWLINE {
      assert before[1..] == here == [here[0]] + here[1..];
      NewestFirstCons(d, here[0], here[1..]);
    } else {
      assert before[1..] == here[1..];
    }
  }

  /** The whole file is the completed entries at offset 0 followed by those of the first line. */
  lemma WholeFile<E>(d: Decoder<E>, content: Bytes)
    ensures Entries(d, content) == Completed(d, content, 0) + DecodeLine(d, Split(content)[0])
  {
    var lines := Split(content);
    assert content[0..] == content;
    assert lines == [lines[0]] + lines[1..];
    NewestFirstCons(d, lines[0], lines[1..]);
  }

  /** What is completed at any offset is a prefix of the final answer. */
  lemma {:induction false} CompletedIsPrefix<E>(d: Decoder<E>, content: Bytes, p: nat)
    requires p <= |content|
    ensures Completed(d, content, p) <= Entries(d, content)
  {
    if p == 0 {
      WholeFile(d, content);
    } else {
      StepBack(d, content, p);
      CompletedIsPrefix(d, content, p - 1);
    }
  }

  /** The scan stands at offset p: what it has emitted, and the line it holds backwards. */
  ghost predicate At<E>(d: Decoder<E>, content: Bytes, p: nat, entries: seq<E>, lineBuffer: Bytes) {
    p <= |content| && entries == Completed(d, content, p) && Reverse(lineBuffer) == Split(content[p..])[0]
  }

  lemma AtEnd<E>(d: Decoder<E>, content: Bytes)
    ensures At(d, content, |content|, [], [])
  {
    assert content[|content|..] == [];
  }

  /** Consuming the byte before p: a newline flushes the buffer, any other byte joins it. */
  lemma AtStep<E>(d: Decoder<E>, content: Bytes, p: nat, entries: seq<E>, lineBuffer: Bytes)
    requires p > 0 && At(d, content, p, entries, lineBuffer)
    ensures content[p - 1] == NEWLINE ==> At(d, content, p - 1, entries + DecodeLine(d, Reverse(lineBuffer)), [])
    ensures content[p - 1] != NEWLINE ==> At(d, content, p - 1, entries, lineBuffer + [content[p - 1]])
  {
    StepBack(d, content, p);
    var longer := lineBuffer + [content[p - 1]];
    assert longer[..|longer| - 1] == lineBuffer;
  }

  /** Going back further only adds entries. */
  lemma {:induction false} CompletedGrows<E>(d: Decoder<E>, content: Bytes, p: nat, q: nat)
    requires q <= p <= |content|
    ensures Completed(d, content, p) <= Completed(d, content, q)
    decreases p - q
  {
    if q < p {
      StepBack(d, content, p);
      CompletedGrows(d, content, p - 1, q);
    }
  }

  // ---------------------------------------------------------------- which reads happen

  /** The offset the scan stands at after k chunks. */
  function OffsetAfter(size: nat, chunkSize: nat, k: nat): (offset: nat)
    ensures offset <= size
  {
    if k == 0 then size
    else
      var before := OffsetAfter(size, chunkSize, k - 1);
      if before < chunkSize then 0 else before - chunkSize
  }

  lemma {:induction false} OffsetsAre(size: nat, chunkSize: nat, k: nat)
    ensures OffsetAfter(size, chunkSize, k) == if k * chunkSize <= size then size - k * chunkSize else 0
  {
    if k > 0 {
      OffsetsAre(size, chunkSize, k - 1);
      assert k * chunkSize == (k - 1) * chunkSize + chunkSize;
    }
  }

  lemma {:induction false} OffsetsShrink(size: nat, chunkSize: nat, k: nat, m: nat)
    requires k <= m
    ensures OffsetAfter(size, chunkSize, m) <= OffsetAfter(size, chunkSize, k)
  {
    if k < m {
      OffsetsShrink(size, chunkSize, k, m - 1);
    }
  }

  /** The read of chunk k fails and is needed: what was read before leaves bytes, and does not fill the limit. */
  ghost predicate NeededReadFails<E>(d: Decoder<E>, file: File, limit: nat, chunkSize: nat, k: nat)
    requires file.Readable?
  {
    var end := OffsetAfter(|file.content|, chunkSize, k);
    && end > 0 && |Completed(d, file.content, end)| < limit
    && file.readFails(OffsetAfter(|file.content|, chunkSize, k + 1))
  }

  /** Going on backwards from an offset, the scan meets a read that fails before it is done. */
  ghost predicate FailsFrom<E>(d: Decoder<E>, file: File, limit: nat, chunkSize: nat, pos: nat)
    requires file.Readable? && pos <= |file.content| && chunkSize >= 1
    decreases pos
  {
    && pos > 0 && |Completed(d, file.content, pos)| < limit
    && var next := if pos < chunkSize then 0 else pos - chunkSize;
       file.readFails(next) || FailsFrom(d, file, limit, chunkSize, next)
  }

  lemma NothingNeededBelow<E>(d: Decoder<E>, file: File, limit: nat, chunkSize: nat, k: nat, m: nat)
    requires file.Readable? && k <= m
    requires var end := OffsetAfter(|file.content|, chunkSize, k);
      end == 0 || |Completed(d, file.content, end)| >= limit
    ensures !NeededReadFails(d, file, limit, chunkSize, m)
  {
    var size := |file.content|;
    OffsetsShrink(size, chunkSize, k, m);
    CompletedGrows(d, file.content, OffsetAfter(size, chunkSize, k), OffsetAfter(size, chunkSize, m));
  }

  lemma NoneNeededFrom<E>(d: Decoder<E>, file: File, limit: nat, chunkSize: nat, k: nat)
    requires file.Readable?
    requires var end := OffsetAfter(|file.content|, chunkSize, k);
      end == 0 || |Completed(d, file.content, end)| >= limit
    ensures forall m: nat :: k <= m ==> !NeededReadFails(d, file, limit, chunkSize, m)
  {
    forall m: nat | k <= m ensures !NeededReadFails(d, file, limit, chunkSize, m) {
      NothingNeededBelow(d, file, limit, chunkSize, k, m);
    }
  }

  lemma {:induction false} FailsFromIff<E>(d: Decoder<E>, file: File, limit: nat, chunkSize: nat, k: nat)
    requires file.Readable? && chunkSize >= 1
    ensures FailsFrom(d, file, limit, chunkSize, OffsetAfter(|file.content|, chunkSize, k))
            <==> exists m: nat :: k <= m && NeededReadFails(d, file, limit, chunkSize, m)
    decreases OffsetAfter(|file.content|, chunkSize, k)
  {
    var pos := OffsetAfter(|file.content|, chunkSize, k);
    if pos == 0 || |Completed(d, file.content, pos)| >= limit {
      NoneNeededFrom(d, file, limit, chunkSize, k);
    } else if file.readFails(OffsetAfter(|file.content|, chunkSize, k + 1)) {
      assert NeededReadFails(d, file, limit, chunkSize, k);
    } else {
      FailsFromIff(d, file, limit, chunkSize, k + 1);
    }
  }

  /** The scan fails exactly when the read of some chunk that is needed fails. */
  lemma ScanFailsIff<E>(d: Decoder<E>, file: File, limit: nat, chunkSize: nat)
    requires file.Readable? && chunkSize >= 1
    ensures FailsFrom(d, file, limit, chunkSize, |file.content|)
            <==> exists k: nat :: NeededReadFails(d, file, limit, chunkSize, k)
  {
    FailsFromIff(d, file, limit, chunkSize, 0);
  }

  /**
    Reads that succeed cause no failure; the read of the newest chunk always counts, the next only without
    the limit.
   */
  lemma ScanFailures<E>(d: Decoder<E>, file: File, limit: nat, chunkSize: nat)
    requires file.Readable? && file.content != [] && chunkSize >= 1 && limit > 0
    ensures (forall p: nat :: p < |file.content| ==> !file.readFails(p)) ==>
              !FailsFrom(d, file, limit, chunkSize, |file.content|)
    ensures var start := if |file.content| < chunkSize then 0 else |file.content| - chunkSize;
      && (file.readFails(start) ==> FailsFrom(d, file, limit, chunkSize, |file.content|))
      && (!file.readFails(start) && start == 0 ==> !FailsFrom(d, file, limit, chunkSize, |file.content|))
      && (!file.readFails(start) && |Completed(d, file.content, start)| >= limit ==>
            !FailsFrom(d, file, limit, chunkSize, |file.content|))
      && (!file.readFails(start) && start > 0 && |Completed(d, file.content, start)| < limit
          && file.readFails(if start < chunkSize then 0 else start - chunkSize) ==>
            FailsFrom(d, file, limit, chunkSize, |file.content|))
  {
    assert file.content[|file.content|..] == [];
    if forall p: nat :: p < |file.content| ==> !file.readFails(p) {
      NoFailingRead(d, file, limit, chunkSize, |file.content|);
    }
  }

  lemma {:induction false} NoFailingRead<E>(d: Decoder<E>, file: File, limit: nat, chunkSize: nat, pos: nat)
    requires file.Readable? && pos <= |file.content| && chunkSize >= 1
    requires forall p: nat :: p < |file.content| ==> !file.readFails(p)
    ensures !FailsFrom(d, file, limit, chunkSize, pos)
    decreases pos
  {
    if pos > 0 {
      NoFailingRead(d, file, limit, chunkSize, if pos < chunkSize then 0 else pos - chunkSize);
    }
  }

  // ---------------------------------------------------------------- how the scan ends

  /** The limit is reached at offset p: what was emitted is the answer, and going further back would not change that. */
  lemma LimitReached<E>(d: Decoder<E>, content: Bytes, p: nat, start: nat, entries: seq<E>, limit: nat)
    requires start <= p <= |content| && entries == Completed(d, content, p) && |entries| == limit > 0
    ensures entries == Tail(d, content, limit) && |Completed(d, content, start)| >= limit
  {
    CompletedIsPrefix(d, content, p);
    CompletedGrows(d, content, p, start);
  }

  /** At the start of the file the buffer holds the first line. */
  lemma StartReached<E>(d: Decoder<E>, content: Bytes, entries: seq<E>, lineBuffer: Bytes, limit: nat)
    requires At(d, content, 0, entries, lineBuffer) && |entries| < limit
    ensures entries + DecodeLine(d, Reverse(lineBuffer)) == Tail(d, content, limit)
  {
    WholeFile(d, content);
    assert content[0..] == content;
  }

  /** Reading one more chunk either fails or moves on to the next. */
  lemma FailsFromStep<E>(d: Decoder<E>, file: File, limit: nat, chunkSize: nat, pos: nat, next: nat)
    requires file.Readable? && 0 < pos <= |file.content| && chunkSize >= 1
    requires |Completed(d, file.content, pos)| < limit && next == if pos < chunkSize then 0 else pos - chunkSize
    ensures FailsFrom(d, file, limit, chunkSize, pos)
            <==> file.readFails(next) || FailsFrom(d, file, limit, chunkSize, next)
  {
  }

  lemma NoFailureLeft<E>(d: Decoder<E>, file: File, limit: nat, chunkSize: nat, pos: nat)
    requires file.Readable? && pos <= |file.content| && chunkSize >= 1
    requires pos == 0 || |Completed(d, file.content, pos)| >= limit
    ensures !FailsFrom(d, file, limit, chunkSize, pos)
  {
  }

  // ---------------------------------------------------------------- the implementation

  /** Seek and ReadFull: fills the chunk from the given offset, or fails. */
  method ReadAt(file: File, pos: nat, chunk: array<Byte>) returns (ok: bool)
    requires file.Readable? && pos + chunk.Length <= |file.content|
    modifies chunk
    ensures ok == !file.readFails(pos)
    ensures ok ==> chunk[..] == file.content[pos..pos + chunk.Length]
  {
    ok := !file.readFails(pos);
    if ok {
      forall i | 0 <= i < chunk.Length {
        chunk[i] := file.content[pos + i];
      }
    }
  }

  /** Turns the backwards carry-over buffer into a line and decodes it. */
  method FlushLine<E>(d: Decoder<E>, lineBuffer: Bytes) returns (decoded: seq<E>)
    ensures decoded == DecodeLine(d, Reverse(lineBuffer))
  {
    decoded := [];
    if |lineBuffer| > 0 {
      var line: Bytes := [];
      var j := |lineBuffer|;
      assert lineBuffer[..j] == lineBuffer;
      while j > 0
        invariant 0 <= j <= |lineBuffer|
        invariant line + Reverse(lineBuffer[..j]) == Reverse(lineBuffer)
      {
        assert lineBuffer[..j][..j - 1] == lineBuffer[..j - 1];
        line := line + [lineBuffer[j - 1]];
        j := j - 1;
      }
      assert line == Reverse(lineBuffer);
      var trimmed := d.trim(line);
      if trimmed != [] {
        var parsed := d.parse(trimmed);
        if parsed.Some? {
          decoded := [parsed.value];
        }
      }
    }
  }

  /** tailJSONL, for every chunk size. */
  method TailJSONL<E>(d: Decoder<E>, file: File, limit: int, chunkSize: nat) returns (r: Result<seq<E>, IOError>)
    requires chunkSize >= 1
    ensures limit <= 0 ==> r == Ok([])
    ensures limit > 0 && file.Missing? ==> r == Ok([])
    ensures limit > 0 && file.StatFails? ==> r == Err(StatError)
    ensures limit > 0 && file.OpenFails? ==> r == if file.size == 0 then Ok([]) else Err(OpenError)
    ensures file.Readable? && r.Ok? ==> r.value == Tail(d, file.content, limit)
    ensures file.Readable? && r.Err? ==> r.error == ReadError
    ensures limit > 0 && file.Readable? ==> (r.Err? <==> FailsFrom(d, file, limit, chunkSize, |file.content|))
  {
    if limit <= 0 {
      return Ok([]);
    }
    match file {
      case Missing => return Ok([]);
      case StatFails => return Err(StatError);
      case OpenFails(size) =>
        if size == 0 {
          return Ok([]);
        }
        return Err(OpenError);
      case Readable(content, _) =>
        if |content| == 0 {
          assert content == [];
          NewestFirstSnoc(d, [], []);
          return Ok([]);
        }
        r := ScanBackwards(d, file, limit, chunkSize);
    }
  }

  /** The outer loop of the scan: one chunk after the other, from the end of the file. */
  method ScanBackwards<E>(d: Decoder<E>, file: File, limit: nat, chunkSize: nat) returns (r: Result<seq<E>, IOError>)
    requires file.Readable? && limit > 0 && chunkSize >= 1
    ensures r.Ok? ==> r.value == Tail(d, file.content, limit)
    ensures r.Err? ==> r.error == ReadError
    ensures r.Err? <==> FailsFrom(d, file, limit, chunkSize, |file.content|)
  {
    var size := |file.content|;
    var entries: seq<E> := [];
    var lineBuffer: Bytes := [];
    var pos := size;
    AtEnd(d, file.content);
    while pos > 0 && |entries| < limit
      invariant 0 <= pos <= size
      invariant FailsFrom(d, file, limit, chunkSize, size) <==> FailsFrom(d, file, limit, chunkSize, pos)
      invariant At(d, file.content, pos, entries, lineBuffer)
      invariant |entries| < limit
    {
      var readSize := if pos < chunkSize then pos else chunkSize;
      var ok, full;
      ok, entries, lineBuffer, full := ReadChunk(d, file, limit, chunkSize, pos, readSize, entries, lineBuffer);
      pos := pos - readSize;
      if !ok {
        return Err(ReadError);
      }
      if full {
        return Ok(entries);
      }
    }
    NoFailureLeft(d, file, limit, chunkSize, pos);
    StartReached(d, file.content, entries, lineBuffer, limit);
    var decoded := FlushLine(d, lineBuffer);
    r := Ok(entries + decoded);
  }

  /** One turn of the outer loop: reads the chunk before pos and scans it. */
  method ReadChunk<E>(d: Decoder<E>, file: File, limit: nat, ghost chunkSize: nat, pos: nat, readSize: nat,
                      entries0: seq<E>, lineBuffer0: Bytes)
    returns (ok: bool, entries: seq<E>, lineBuffer: Bytes, full: bool)
    requires file.Readable? && 0 < pos <= |file.content| && chunkSize >= 1
    requires readSize == if pos < chunkSize then pos else chunkSize
    requires At(d, file.content, pos, entries0, lineBuffer0) && |entries0| < limit
    ensures !ok ==> FailsFrom(d, file, limit, chunkSize, pos)
    ensures ok && full ==> entries == Tail(d, file.content, limit) && !FailsFrom(d, file, limit, chunkSize, pos)
    ensures ok && !full ==>
              At(d, file.content, pos - readSize, entries, lineBuffer) && |entries| < limit
    ensures ok && !full ==>
              (FailsFrom(d, file, limit, chunkSize, pos) <==> FailsFrom(d, file, limit, chunkSize, pos - readSize))
  {
    var start := pos - readSize;
    FailsFromStep(d, file, limit, chunkSize, pos, start);
    var chunk := new Byte[readSize];
    ok := ReadAt(file, start, chunk);
    if !ok {
      return false, entries0, lineBuffer0, false;
    }
    entries, lineBuffer, full := ScanChunk(d, file.content, start, chunk, entries0, lineBuffer0, limit);
    if full {
      NoFailureLeft(d, file, limit, chunkSize, start);
    }
  }

  /** The inner loop of the scan: the bytes of one chunk, backwards; stops as soon as the limit is reached. */
  method ScanChunk<E>(d: Decoder<E>, ghost content: Bytes, ghost pos: nat, chunk: array<Byte>,
                      entries0: seq<E>, lineBuffer0: Bytes, limit: nat)
    returns (entries: seq<E>, lineBuffer: Bytes, full: bool)
    requires pos + chunk.Length <= |content| && chunk[..] == content[pos..pos + chunk.Length]
    requires At(d, content, pos + chunk.Length, entries0, lineBuffer0) && |entries0| < limit
    ensures full ==> entries == Tail(d, content, limit) && |Completed(d, content, pos)| >= limit
    ensures !full ==> At(d, content, pos, entries, lineBuffer) && |entries| < limit
  {
    entries, lineBuffer := entries0, lineBuffer0;
    var i := chunk.Length;
    while i > 0
      invariant 0 <= i <= chunk.Length
      invariant At(d, content, pos + i, entries, lineBuffer) && |entries| < limit
    {
      AtStep(d, content, pos + i, entries, lineBuffer);
      i := i - 1;
      assert chunk[i] == chunk[..][i] == content[pos + i];
      if chunk[i] == NEWLINE {
        var decoded := FlushLine(d, lineBuffer);
        entries := entries + decoded;
        if |entries| >= limit {
          LimitReached(d, content, pos + i, pos, entries, limit);
          return entries, lineBuffer, true;
        }
        lineBuffer := [];
      } else {
        lineBuffer := lineBuffer + [chunk[i]];
      }
    }
    return entries, lineBuffer, false;
  }

  // ---------------------------------------------------------------- what callers rely on

  /** A smaller limit gives a prefix of what a larger limit gives. */
  lemma SmallerLimitIsPrefix<E>(d: Decoder<E>, content: Bytes, limit: int, larger: int)
    requires limit <= larger
    ensures Tail(d, content, limit) <= Tail(d, content, larger)
  {
    if limit > 0 {
      var all := Entries(d, content);
      assert Take(all, limit) <= all && Take(all, larger) <= all;
    }
  }

  lemma {:induction false} SplitConcat(a: Bytes, b: Bytes)
    requires NEWLINE !in b
    ensures Split(a + [NEWLINE] + b) == Split(a) + [b]
  {
    if a == [] {
      assert (a + [NEWLINE] + b)[1..] == b;
      JoinSplit([b]);
    } else {
      assert (a + [NEWLINE] + b)[1..] == a[1..] + [NEWLINE] + b;
      SplitConcat(a[1..], b);
    }
  }

  lemma NewestFirstSnoc<E>(d: Decoder<E>, lines: seq<Bytes>, line: Bytes)
    ensures NewestFirst(d, lines + [line]) == DecodeLine(d, line) + NewestFirst(d, lines)
  {
    assert (lines + [line])[..|lines|] == lines;
  }

  /** A newline-free line after a newline puts its entry in front; an empty one changes nothing. */
  lemma LaterLineComesFirst<E>(d: Decoder<E>, body: Bytes, line: Bytes)
    requires NEWLINE !in line
    ensures Entries(d, body + [NEWLINE] + line) == DecodeLine(d, line) + Entries(d, body)
    ensures line == [] ==> Entries(d, body + [NEWLINE] + line) == Entries(d, body)
  {
    SplitConcat(body, line);
    NewestFirstSnoc(d, Split(body), line);
  }

  lemma OnlyLine<E>(d: Decoder<E>, line: Bytes)
    requires NEWLINE !in line
    ensures Entries(d, line) == DecodeLine(d, line)
  {
    JoinSplit([line]);
    NewestFirstSnoc(d, [], line);
    assert [] + [line] == [line];
  }

  /**
    Logging one more record puts it in front: appending a newline-free record and its newline to
    a file of complete lines adds exactly that record's entry before all the older ones.
   */
  lemma AppendedRecordComesFirst<E>(d: Decoder<E>, content: Bytes, record: Bytes)
    requires content == [] || content[|content| - 1] == NEWLINE
    requires NEWLINE !in record
    ensures Entries(d, content + record + [NEWLINE]) == DecodeLine(d, record) + Entries(d, content)
  {
    LaterLineComesFirst(d, content + record, []);
    assert content + record + [NEWLINE] + [] == content + record + [NEWLINE];
    if content == [] {
      assert content + record == record;
      OnlyLine(d, record);
      OnlyLine(d, []);
    } else {
      var body := content[..|content| - 1];
      assert content == body + [NEWLINE] == body + [NEWLINE] + [];
      LaterLineComesFirst(d, body, record);
      LaterLineComesFirst(d, body, []);
    }
  }

  // ---------------------------------------------------------------- ReadLogErrors

  const MAX_ERROR_ENTRIES := 500
  const CHUNK_SIZE := 4096

  function ClampLimit(limit: int): int {
    if limit > MAX_ERROR_ENTRIES then MAX_ERROR_ENTRIES else limit
  }

  /** The request filter: no filter for an absent or empty request id. */
  predicate Keeps<E>(requestId: E -> Option<string>, wanted: Option<string>, e: E) {
    wanted.Some? && wanted.value != "" ==> requestId(e) == wanted
  }

  /** ReadLogErrors: the request filter runs over the already limited tail. */
  method ReadLogErrors<E>(d: Decoder<E>, requestId: E -> Option<string>, file: File, wanted: Option<string>, limit: int)
    returns (r: Result<seq<E>, IOError>)
    ensures limit <= 0 || file.Missing? ==> r == Ok([])
    ensures limit > 0 && file.StatFails? ==> r == Err(StatError)
    ensures limit > 0 && file.OpenFails? ==> r == if file.size == 0 then Ok([]) else Err(OpenError)
    ensures file.Readable? && r.Ok? ==> r.value == Returned(d, requestId, file.content, wanted, limit)
    ensures limit > 0 && file.Readable? ==>
              (r.Err? <==> FailsFrom(d, file, if limit > 500 then 500 else limit, 4096, |file.content|))
  {
    if limit <= 0 {
      return Ok([]);
    }
    var clamped := ClampLimit(limit);
    r := TailJSONL(d, file, clamped, CHUNK_SIZE);
    if r.Err? {
      return;
    }
    var filtered := FilterByRequest(r.value, requestId, wanted);
    r := Ok(filtered);
  }

  /** The request filter over the entries read. */
  method FilterByRequest<E>(entries: seq<E>, requestId: E -> Option<string>, wanted: Option<string>)
    returns (filtered: seq<E>)
    ensures filtered == Filter(entries, Wanted(requestId, wanted))
  {
    ghost var keep := Wanted(requestId, wanted);
    if wanted.None? || wanted.value == "" {
      FilterAll(entries, keep);
      return entries;
    }
    filtered := [];
    for i := 0 to |entries|
      invariant filtered == Filter(entries[..i], keep)
    {
      assert entries[..i + 1] == entries[..i] + [entries[i]];
      FilterConcat(entries[..i], [entries[i]], keep);
      if requestId(entries[i]) == wanted {
        filtered := filtered + [entries[i]];
      }
    }
    assert entries[..|entries|] == entries;
  }

  lemma CutAgrees<E>(kept: seq<E>, older: seq<E>, n: nat)
    requires |kept| <= n
    ensures kept == Take(kept + older, n) <==> |kept| == n || older == []
  {
    assert (kept + older)[..|kept|] == kept;
  }

  /** The newest n of more than n entries, filtered, against the older ones, filtered. */
  lemma FilterOfSplit<E>(all: seq<E>, n: nat, keep: E -> bool)
    requires n < |all|
    ensures Filter(all, keep) == Filter(all[..n], keep) + Filter(all[n..], keep)
    ensures |Filter(all[..n], keep)| == n <==> forall i :: 0 <= i < n ==> keep(all[i])
    ensures Filter(all[n..], keep) == [] <==> forall i :: n <= i < |all| ==> !keep(all[i])
  {
    var near, far := all[..n], all[n..];
    assert all == near + far;
    FilterConcat(near, far, keep);
    FilterAll(near, keep);
    FilterNone(far, keep);
    assert forall i :: 0 <= i < n ==> all[i] == near[i] && near[i] in near;
    assert forall i :: n <= i < |all| ==> all[i] == far[i - n] && far[i - n] in far;
  }

  /**
    "Filter, then return the last N" and "return the last N, then filter" agree exactly when the
    newest N entries all match or no older entry matches.
   */
  lemma FilterAfterLimitAgreesIff<E>(all: seq<E>, n: nat, keep: E -> bool)
    ensures Filter(Take(all, n), keep) == Take(Filter(all, keep), n)
            <==> (|all| <= n
                  || (forall i :: 0 <= i < n ==> keep(all[i]))
                  || (forall i :: n <= i < |all| ==> !keep(all[i])))
  {
    if |all| > n {
      FilterOfSplit(all, n, keep);
      CutAgrees(Filter(all[..n], keep), Filter(all[n..], keep), n);
    } else {
      assert Take(all, n) == all;
    }
  }

  /** What the request filter of an endpoint call keeps. */
  function Wanted<E>(requestId: E -> Option<string>, wanted: Option<string>): E -> bool {
    (e: E) => Keeps(requestId, wanted, e)
  }

  /** What ReadLogErrors documents: the newest entries of the request, up to the limit. */
  function Documented<E>(d: Decoder<E>, requestId: E -> Option<string>, content: Bytes, wanted: Option<string>,
                         limit: int): seq<E>
  {
    if limit <= 0 then [] else Take(Filter(Entries(d, content), Wanted(requestId, wanted)), ClampLimit(limit))
  }

  /** What it returns. */
  function Returned<E>(d: Decoder<E>, requestId: E -> Option<string>, content: Bytes, wanted: Option<string>,
                       limit: int): seq<E>
  {
    Filter(Tail(d, content, ClampLimit(limit)), Wanted(requestId, wanted))
  }

  /**
    What is returned, in full: of at most 500 newest entries those of the request; no request or an empty
    one keeps all.
   */
  lemma ReturnedIs<E>(d: Decoder<E>, requestId: E -> Option<string>, content: Bytes, wanted: Option<string>, limit: int)
    ensures Returned(d, requestId, content, wanted, limit)
         == Filter(Tail(d, content, if limit > 500 then 500 else limit),
                   (e: E) => wanted.None? || wanted.value == "" || requestId(e) == wanted)
  {
    FilterAlike(Tail(d, content, ClampLimit(limit)), Wanted(requestId, wanted),
                (e: E) => wanted.None? || wanted.value == "" || requestId(e) == wanted);
  }

  /**
    The endpoint returns what it documents exactly when the log holds no more entries than the clamped
    limit, or the newest ones up to that limit all belong to the request, or no older one does.
   */
  lemma ReadLogErrorsAgreesIff<E>(d: Decoder<E>, requestId: E -> Option<string>, content: Bytes,
                                  wanted: Option<string>, limit: int)
    requires limit > 0
    ensures var all, n := Entries(d, content), ClampLimit(limit);
      Returned(d, requestId, content, wanted, limit) == Documented(d, requestId, content, wanted, limit)
      <==> (|all| <= n
            || (forall i :: 0 <= i < n ==> Keeps(requestId, wanted, all[i]))
            || (forall i :: n <= i < |all| ==> !Keeps(requestId, wanted, all[i])))
  {
    FilterAfterLimitAgreesIff(Entries(d, content), ClampLimit(limit), Wanted(requestId, wanted));
  }

  /**
    For any decoder: after a record of the request comes one of another request, and one entry is
    asked for.  The documentation promises the former; nothing is returned.
   */
  lemma ReadLogErrorsLosesMatch<E>(d: Decoder<E>, requestId: E -> Option<string>, wanted: Option<string>,
                                   older: Bytes, newer: Bytes, a: E, b: E)
    requires NEWLINE !in older && NEWLINE !in newer
    requires DecodeLine(d, older) == [a] && DecodeLine(d, newer) == [b]
    requires Keeps(requestId, wanted, a) && !Keeps(requestId, wanted, b)
    ensures var log := older + [NEWLINE] + newer + [NEWLINE];
      && Returned(d, requestId, log, wanted, 1) == []
      && Documented(d, requestId, log, wanted, 1) == [a]
  {
    TwoRecordsEntries(d, older, newer);
    var keep := Wanted(requestId, wanted);
    FilterConcat([b], [a], keep);
    assert [b] + [a] == [b, a];
    assert Filter([b], keep) == [] && Filter([a], keep) == [a];
  }

  lemma TwoRecordsEntries<E>(d: Decoder<E>, older: Bytes, newer: Bytes)
    requires NEWLINE !in older && NEWLINE !in newer
    ensures Entries(d, older + [NEWLINE] + newer + [NEWLINE]) == DecodeLine(d, newer) + DecodeLine(d, older)
  {
    var first := older + [NEWLINE];
    AppendedRecordComesFirst(d, [], older);
    assert [] + older + [NEWLINE] == first;
    OnlyLine(d, []);
    AppendedRecordComesFirst(d, first, newer);
  }
}
