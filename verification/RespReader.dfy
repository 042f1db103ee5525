/** The buffered request reader: the in-place parser, the streamed parser and the choice
    between them, each proved to do what the grammar says of the remaining stream. */
module RespReader {
  import opened Bytes
  import opened Decimal
  import opened RespGrammar

  // ---- one line, one element, over bytes already in hand --------------------------------

  datatype Span = Span(length: nat, next: nat)

  /** The element at off when the frame holds all of it. */
  function SpanAt(frame: Bytes, off: nat): Option<Span>
    requires off <= |frame|
  {
    match ReadBulk(frame[off..])
    case Bulk(payload, rest) => Some(Span(|payload|, |frame| - |rest|))
    case NoBulk(_) => None
  }

  /** The line beginning at off, and the offset behind its terminator. */
  method NextLineAt(frame: Bytes, off: nat) returns (line: Bytes, next: nat, ok: bool)
    requires off <= |frame|
    ensures ok <==> NextLine(frame[off..]).Line?
    ensures ok ==> off < next <= |frame| && NextLine(frame[off..]) == Line(line, frame[next..])
  {
    var i := IndexOf(frame[off..], LF);
    if i == |frame[off..]| { return [], 0, false; }
    assert frame[off..][..i + 1] == frame[off..off + i + 1];
    assert frame[off..][i + 1..] == frame[off + i + 1..];
    return TrimCRLF(frame[off..off + i + 1]), off + i + 1, true;
  }

  method BulkSpan(frame: Bytes, off: nat) returns (length: nat, next: nat, ok: bool)
    requires off <= |frame|
    ensures ok <==> SpanAt(frame, off).Some?
    ensures ok ==> off + length + 2 <= next <= |frame|
    ensures ok ==> SpanAt(frame, off) == Some(Span(length, next))
    ensures ok ==> ReadBulk(frame[off..]) == Bulk(frame[next - 2 - length..next - 2], frame[next..])
  {
    hide CountOf;
    var hdr, after, found := NextLineAt(frame, off);
    if !found || |hdr| == 0 || hdr[0] != DOLLAR { return 0, 0, false; }
    var len, parsed := ParseCount(hdr[1..]);
    if !parsed || len < 0 || len > MAX_BULK_LEN { return 0, 0, false; }
    length := len;
    next := after + length + 2;
    if next > |frame| { return 0, 0, false; }
    assert frame[after..][..length] == frame[after..after + length];
    assert frame[after..][length + 2..] == frame[next..];
    return length, next, true;
  }

  // ---- what a frame in hand says about the whole stream --------------------------------

  lemma NextLineExtends(s: Bytes, t: Bytes)
    ensures NextLine(s).Line? ==> NextLine(s + t) == Line(NextLine(s).text, NextLine(s).rest + t)
  {
    hide TrimCRLF;
    var i := IndexOf(s, LF);
    if i < |s| {
      assert forall j :: 0 <= j < i ==> (s + t)[j] == s[j];
      IndexOfIs(s + t, LF, i);
      assert (s + t)[..i + 1] == s[..i + 1];
      assert (s + t)[i + 1..] == s[i + 1..] + t;
    }
  }

  /** An element wholly in hand is the element the longer stream has. */
  lemma ReadBulkExtends(s: Bytes, t: Bytes)
    ensures ReadBulk(s).Bulk? ==> ReadBulk(s + t) == Bulk(ReadBulk(s).payload, ReadBulk(s).rest + t)
  {
    hide NextLine, BulkHeader;
    NextLineExtends(s, t);
    match NextLine(s)
    case NoLine =>
    case Line(h, after) =>
      match BulkHeader(h)
      case Err(_) =>
      case Ok(len) =>
        if |after| >= len + 2 {
          assert (after + t)[..len] == after[..len];
          assert (after + t)[len + 2..] == after[len + 2..] + t;
        }
  }

  lemma {:induction false} ReadBulksExtends(s: Bytes, t: Bytes, n: nat)
    ensures var p := ReadBulks(s, n);
            p.result.Ok? ==> ReadBulks(s + t, n) == Parsed(p.result, p.rest + t, p.counted)
    decreases n
  {
    hide ReadBulk;
    if n > 0 {
      ReadBulkExtends(s, t);
      match ReadBulk(s)
      case NoBulk(_) =>
      case Bulk(payload, rest) => ReadBulksExtends(rest, t, n - 1);
    }
  }

  lemma PrefixedTwice(a: Command, c: nat, b: Command, d: nat, p: Parsed)
    ensures Prefixed(a, c, Prefixed(b, d, p)) == Prefixed(a + b, c + d, p)
  {
    if p.result.Ok? { assert a + (b + p.result.value) == a + b + p.result.value; }
  }

  lemma PrefixedNone(c: nat, p: Parsed)
    ensures Prefixed([], c, p) == Parsed(p.result, p.rest, c + p.counted)
  {
    if p.result.Ok? { assert [] + p.result.value == p.result.value; }
  }

  /** A walk over the n bulks of s that has read done and stands before rest. */
  ghost predicate Walk(s: Bytes, n: nat, done: Command, counted: int, rest: Bytes) {
    && 0 <= counted
    && |done| <= n
    && ReadBulks(s, n) == Prefixed(done, counted, ReadBulks(rest, n - |done|))
  }

  lemma WalkStart(s: Bytes, n: nat)
    ensures Walk(s, n, [], 0, s)
  {
    hide ReadBulks;
    PrefixedNone(0, ReadBulks(s, n));
  }

  lemma WalkStep(s: Bytes, n: nat, done: Command, counted: nat, rest: Bytes)
    requires |done| < n && Walk(s, n, done, counted, rest)
    ensures match ReadBulk(rest)
            case NoBulk(p) => ReadBulks(s, n) == Prefixed(done, counted, p)
            case Bulk(payload, more) => Walk(s, n, done + [payload], counted + |rest| - |more|, more)
  {
    hide ReadBulk;
    match ReadBulk(rest)
    case NoBulk(_) =>
    case Bulk(payload, more) =>
      PrefixedTwice(done, counted, [payload], |rest| - |more|, ReadBulks(more, n - |done| - 1));
  }

  lemma WalkEnd(s: Bytes, n: nat, done: Command, counted: nat, rest: Bytes)
    requires |done| == n && Walk(s, n, done, counted, rest)
    ensures ReadBulks(s, n) == Parsed(Ok(done), rest, counted)
  {
    assert done + [] == done;
  }

  /** A walk's payloads so far are the first of the whole command's. */
  lemma WalkAgrees(s: Bytes, n: nat, done: Command, counted: nat, rest: Bytes)
    requires Walk(s, n, done, counted, rest)
    ensures ReadBulks(s, n).result.Ok? ==> done <= ReadBulks(s, n).result.value
  {
  }

  /** The first walk: how many payload bytes the n elements at pos hold and where they end. */
  method MeasureBulks(frame: Bytes, pos: nat, n: nat) returns (total: nat, end: nat, ok: bool)
    requires pos <= |frame|
    ensures ok <==> ReadBulks(frame[pos..], n).result.Ok?
    ensures ok ==> pos <= end <= |frame|
    ensures ok ==> ReadBulks(frame[pos..], n).rest == frame[end..]
    ensures ok ==> total == PayloadLength(ReadBulks(frame[pos..], n).result.value)
  {
    hide ReadBulk, ReadBulks, Walk;
    total, end := 0, pos;
    ghost var done: Command := [];
    WalkStart(frame[pos..], n);
    for i := 0 to n
      invariant |done| == i && pos <= end <= |frame| && total == PayloadLength(done)
      invariant Walk(frame[pos..], n, done, end - pos, frame[end..])
    {
      WalkStep(frame[pos..], n, done, end - pos, frame[end..]);
      var length, next, spanned := BulkSpan(frame, end);
      if !spanned { return 0, 0, false; }
      PayloadLengthAppend(done, frame[next - 2 - length..next - 2]);
      done := done + [frame[next - 2 - length..next - 2]];
      total := total + length;
      end := next;
    }
    WalkEnd(frame[pos..], n, done, end - pos, frame[end..]);
    return total, end, true;
  }

  /** The second walk: the same elements again, each payload copied to its place in one block. */
  method CopyBulks(frame: Bytes, pos: nat, n: nat, total: nat) returns (args: Command)
    requires pos <= |frame|
    requires ReadBulks(frame[pos..], n).result.Ok?
    requires total == PayloadLength(ReadBulks(frame[pos..], n).result.value)
    ensures args == ReadBulks(frame[pos..], n).result.value
  {
    hide ReadBulk, ReadBulks, Walk, Placed;
    ghost var want := ReadBulks(frame[pos..], n).result.value;
    ghost var done: Command := [];
    var blk := new byte[total];
    var spans: seq<(nat, nat)> := [];
    var off, at := 0, pos;
    WalkStart(frame[pos..], n);
    PlacedNone(blk[..]);
    for i := 0 to n
      invariant pos <= at <= |frame| && |done| == |spans| == i
      invariant off == PayloadLength(done) <= total
      invariant Walk(frame[pos..], n, done, at - pos, frame[at..])
      invariant Placed(blk[..], spans, done, off)
    {
      WalkStep(frame[pos..], n, done, at - pos, frame[at..]);
      var length, next, spanned := BulkSpan(frame, at);
      var start := next - 2 - length;
      ghost var payload := frame[start..start + length];
      PayloadLengthAppend(done, payload);
      WalkAgrees(frame[pos..], n, done + [payload], next - pos, frame[next..]);
      PayloadLengthPrefix(want, done + [payload]);
      ghost var before := blk[..];
      Copy(blk, off, frame[start..start + length]);
      PlacedNext(before, blk[..], spans, done, off, payload);
      done := done + [payload];
      spans := spans + [(off, length)];
      off := off + length;
      at := next;
    }
    WalkEnd(frame[pos..], n, done, at - pos, frame[at..]);
    args := CutArguments(blk[..], spans, done, off);
  }

  /** The copy builtin, for a source that fits behind off. */
  method Copy(blk: array<byte>, off: nat, source: Bytes)
    requires off + |source| <= blk.Length
    modifies blk
    ensures forall k :: 0 <= k < off ==> blk[k] == old(blk[k])
    ensures forall k :: 0 <= k < |source| ==> blk[off + k] == source[k]
  {
    for i := 0 to |source|
      invariant forall k :: 0 <= k < off ==> blk[k] == old(blk[k])
      invariant forall k :: 0 <= k < i ==> blk[off + k] == source[k]
    {
      blk[off + i] := source[i];
    }
  }

  /** The arguments as the slices of the block that hold them. */
  method CutArguments(blk: Bytes, spans: seq<(nat, nat)>, ghost want: Command, ghost off: nat) returns (args: Command)
    requires Placed(blk, spans, want, off)
    ensures args == want
  {
    args := [];
    for i := 0 to |spans|
      invariant args == want[..i]
    {
      PlacedAt(blk, spans, want, off, i);
      args := args + [blk[spans[i].0..spans[i].0 + spans[i].1]];
    }
  }

  function PayloadLength(args: Command): nat {
    if args == [] then 0 else PayloadLength(args[..|args| - 1]) + |args[|args| - 1]|
  }

  lemma PayloadLengthAppend(args: Command, a: Bytes)
    ensures PayloadLength(args + [a]) == PayloadLength(args) + |a|
  {
    assert (args + [a])[..|args|] == args;
  }

  lemma {:induction false} PayloadLengthPrefix(args: Command, part: Command)
    requires part <= args
    ensures PayloadLength(part) <= PayloadLength(args)
    decreases |args|
  {
    if part != args { PayloadLengthPrefix(args[..|args| - 1], part); }
  }

  /** Every argument copied so far sits, whole and apart from the others, in the used part of
      the block. */
  ghost predicate Placed(blk: Bytes, spans: seq<(nat, nat)>, args: Command, off: nat) {
    && |spans| == |args|
    && off <= |blk|
    && forall j :: 0 <= j < |args| ==>
         && spans[j].0 + spans[j].1 <= off
         && blk[spans[j].0..spans[j].0 + spans[j].1] == args[j]
  }

  lemma PlacedNone(blk: Bytes)
    ensures Placed(blk, [], [], 0)
  {
  }

  lemma PlacedAt(blk: Bytes, spans: seq<(nat, nat)>, args: Command, off: nat, j: nat)
    requires Placed(blk, spans, args, off) && j < |args|
    ensures |spans| == |args| && spans[j].0 + spans[j].1 <= |blk|
    ensures blk[spans[j].0..spans[j].0 + spans[j].1] == args[j]
  {
  }

  lemma PlacedNext(before: Bytes, blk: Bytes, spans: seq<(nat, nat)>, args: Command, off: nat, a: Bytes)
    requires Placed(before, spans, args, off) && |blk| == |before| && off + |a| <= |blk|
    requires forall k :: 0 <= k < off ==> blk[k] == before[k]
    requires forall k :: 0 <= k < |a| ==> blk[off + k] == a[k]
    ensures Placed(blk, spans + [(off, |a|)], args + [a], off + |a|)
  {
    forall j | 0 <= j < |args|
      ensures blk[spans[j].0..spans[j].0 + spans[j].1] == args[j]
    {
      assert blk[spans[j].0..spans[j].0 + spans[j].1] == before[spans[j].0..spans[j].0 + spans[j].1];
    }
    assert blk[off..off + |a|] == a;
  }

  /** How a read of one line from the buffer ended. */
  datatype SliceEnd = Found | Full | Ended

  /** A reader over one connection. input is everything the peer will still deliver; its first
      buffered bytes are already in the buffer of the given size, and reads of the connection
      may bring in any further amount. n is the Consumed count. */
  class Reader {
    const split: Splitter
    const size: nat
    var input: Bytes
    var buffered: nat
    var n: nat

    ghost predicate Valid()
      reads this
    {
      0 < size && buffered <= size && buffered <= |input|
    }

    constructor (stream: Bytes, split: Splitter, size: nat)
      requires 0 < size
      ensures Valid() && input == stream && n == 0 && this.split == split
    {
      this.split, this.size := split, size;
      input, buffered, n := stream, 0, 0;
    }

    /** One read of the connection: at least a byte, unless the stream has ended. */
    method Fill()
      requires Valid() && buffered < size
      modifies this`buffered
      ensures Valid() && old(buffered) <= buffered
      ensures old(buffered) < |input| ==> old(buffered) < buffered
    {
      if buffered < |input| {
        var more: nat :| 0 < more && buffered + more <= |input| && buffered + more <= size;
        buffered := buffered + more;
      }
    }

    method Discard(k: nat)
      requires Valid() && k <= buffered
      modifies this`input, this`buffered
      ensures Valid() && input == old(input)[k..] && buffered == old(buffered) - k
    {
      input := input[k..];
      buffered := buffered - k;
    }

    /** The bytes up to the next line feed, or all the buffer can hold, or all there is. */
    method ReadSlice() returns (line: Bytes, end: SliceEnd)
      requires Valid()
      modifies this`input, this`buffered
      ensures Valid() && old(input) == line + input
      ensures end.Found? ==> line != [] && IndexOf(line, LF) == |line| - 1
      ensures !end.Found? ==> IndexOf(line, LF) == |line|
      ensures end.Full? ==> line != []
      ensures end.Ended? ==> input == []
    {
      while true
        invariant Valid() && input == old(input)
        decreases size - buffered
      {
        var i := IndexOf(input[..buffered], LF);
        if i < buffered {
          line, end := input[..i + 1], Found;
          IndexOfIs(line, LF, i);
          break;
        }
        if buffered == size { line, end := input[..buffered], Full; break; }
        if buffered == |input| { line, end := input[..buffered], Ended; break; }
        Fill();
      }
      Discard(|line|);
    }

    /** The next line without its terminator, however many buffer fills it takes. */
    method ReadLine() returns (line: Bytes, ok: bool)
      requires Valid()
      modifies this`input, this`buffered, this`n
      ensures Valid()
      ensures ok ==> NextLine(old(input)) == Line(line, input)
      ensures !ok ==> NextLine(old(input)).NoLine? && input == []
      ensures n == old(n) + |old(input)| - |input|
    {
      hide NextLine, TrimCRLF, IndexOf;
      var buf := [];
      while true
        invariant Valid() && old(input) == buf + input
        invariant IndexOf(buf, LF) == |buf|
        invariant n == old(n) + |buf|
        decreases |input|
      {
        var part, end := ReadSlice();
        n := n + |part|;
        LineGrows(buf, part);
        buf := buf + part;
        assert old(input) == buf + input;
        if end.Found? {
          LineComplete(buf, input);
          return TrimCRLF(buf), true;
        }
        if end.Ended? {
          assert buf + input == buf;
          LineMissing(buf);
          return [], false;
        }
      }
    }

    /** Exactly k bytes, or none and the rest of the stream is gone. */
    method ReadFull(k: nat) returns (b: Bytes, ok: bool)
      requires Valid()
      modifies this`input, this`buffered
      ensures Valid() && (ok <==> k <= |old(input)|)
      ensures ok ==> b == old(input)[..k] && input == old(input)[k..]
      ensures !ok ==> b == old(input) && input == []
    {
      b := [];
      while |b| < k
        invariant Valid() && old(input) == b + input && |b| <= k
        decreases k - |b|, size - buffered
      {
        if buffered == 0 {
          if input == [] { return b, false; }
          Fill();
        }
        var take := if k - |b| < buffered then k - |b| else buffered;
        b := b + input[..take];
        Discard(take);
      }
      return b, true;
    }

    /** One whole multibulk frame out of the bytes already buffered, or nothing consumed. Every
        payload is copied into one block of exactly the right size. */
    method ReadBufferedCommand() returns (args: Command, ok: bool)
      requires Valid()
      modifies this`input, this`buffered, this`n
      ensures Valid()
      ensures ok <==> WholeFrame(old(input[..buffered]))
      ensures !ok ==> unchanged(this)
      ensures ok ==> ReadsAs(old(input), split, Ok(args), input, n - old(n))
    {
      hide NextLine, ReadBulks, CountOf, RespGrammar.ReadCommand;
      if buffered == 0 { return [], false; }
      var frame := input[..buffered];
      if frame[0] != STAR { return [], false; }
      var hdr, pos, found := NextLineAt(frame, 0);
      if !found { return [], false; }
      assert frame[0..] == frame;
      HeaderKept(frame);
      var count, parsed := ParseCount(hdr[1..]);
      if !parsed || count <= 0 || count > MAX_MULTIBULK { return [], false; }
      var total, end, walked := MeasureBulks(frame, pos, count);
      if !walked { return [], false; }
      args := CopyBulks(frame, pos, count, total);
      BufferedFrame(frame, input[buffered..], hdr, pos, count, args, end, split);
      assert frame + input[buffered..] == input;
      assert frame[end..] + input[buffered..] == input[end..];
      Discard(end);
      n := n + end;
      ok := true;
    }

    /** The command parser that takes bytes as they arrive and owns every rejection. */
    method ReadStreamedCommand() returns (r: Result<Command>)
      requires Valid()
      modifies this`input, this`buffered, this`n
      ensures Valid() && ReadsAs(old(input), split, r, input, n - old(n))
      decreases |input|, 0
    {
      hide NextLine, ReadBulks, ReadBulk, CountOf;
      var line, found := ReadLine();
      if !found { return Err(EOF); }
      label afterLine:
      if |line| == 0 {
        r := ReadCommand();
        ReadsAfterSkip(old(input), split, old@afterLine(input), r, input, n - old@afterLine(n));
        return;
      }
      if line[0] != STAR {
        r := split(line);
        if r.Err? || r.value != [] { return; }
        r := ReadCommand();
        ReadsAfterSkip(old(input), split, old@afterLine(input), r, input, n - old@afterLine(n));
        return;
      }
      var count, parsed := ParseCount(line[1..]);
      if !parsed || count > MAX_MULTIBULK { return Err(InvalidMultibulk); }
      if count <= 0 {
        r := ReadCommand();
        ReadsAfterSkip(old(input), split, old@afterLine(input), r, input, n - old@afterLine(n));
        return;
      }
      r := ReadStreamedBulks(count);
      PrefixedNone(|old(input)| - |old@afterLine(input)|, ReadBulks(old@afterLine(input), count));
    }

    /** The bulks behind a multibulk header, read one header and one payload at a time. */
    method ReadStreamedBulks(count: nat) returns (r: Result<Command>)
      requires Valid()
      modifies this`input, this`buffered, this`n
      ensures Valid() && n >= old(n) && ReadBulks(old(input), count) == Parsed(r, input, n - old(n))
    {
      hide NextLine, ReadBulks, CountOf, Walk;
      var args: Command := [];
      WalkStart(input, count);
      for i := 0 to count
        invariant Valid() && |args| == i && n >= old(n)
        invariant Walk(old(input), count, args, n - old(n), input)
      {
        WalkStep(old(input), count, args, n - old(n), input);
        var hdr, found := ReadLine();
        if !found { return Err(EOF); }
        if |hdr| == 0 { return Err(ExpectedBulk(CR)); }
        if hdr[0] != DOLLAR { return Err(ExpectedBulk(hdr[0])); }
        var length, parsed := ParseCount(hdr[1..]);
        if !parsed || length < 0 || length > MAX_BULK_LEN { return Err(InvalidBulk); }
        ghost var after := input;
        var buf, whole := ReadFull(length + 2);
        assert whole ==> buf[..length] == after[..length];
        if !whole { return Err(ShortRead(buf)); }
        n := n + |buf|;
        args := args + [buf[..length]];
      }
      WalkEnd(old(input), count, args, n - old(n), input);
      return Ok(args);
    }

    /** One command: in place when the buffer holds all of it, streamed otherwise. What it
        returns, what it leaves and what it counts depend on the stream alone, never on how much
        of it was buffered. */
    method ReadCommand() returns (r: Result<Command>)
      requires Valid()
      modifies this`input, this`buffered, this`n
      ensures Valid() && ReadsAs(old(input), split, r, input, n - old(n))
      decreases |input|, 1
    {
      var args, ok := ReadBufferedCommand();
      if ok { return Ok(args); }
      if buffered == 0 {
        if input == [] { return Err(EOF); }
        Fill();
        args, ok := ReadBufferedCommand();
        if ok { return Ok(args); }
      }
      r := ReadStreamedCommand();
    }
  }

  /** Reading one command from before has the given outcome and leaves after. */
  ghost predicate ReadsAs(before: Bytes, split: Splitter, r: Result<Command>, after: Bytes, counted: int) {
    counted >= 0 && ReadCommand(before, split) == Parsed(r, after, counted)
  }

  /** The bytes in hand hold a complete multibulk frame with a positive, permitted count. */
  ghost predicate WholeFrame(frame: Bytes) {
    && frame != []
    && frame[0] == STAR
    && NextLine(frame).Line?
    && NextLine(frame).text != []
    && var c := CountOf(NextLine(frame).text[1..]);
    && c.Some?
    && 0 < c.value <= MAX_MULTIBULK
    && ReadBulks(NextLine(frame).rest, c.value).result.Ok?
  }

  /** A read that begins with a line to skip continues behind that line. */
  lemma ReadsAfterSkip(before: Bytes, split: Splitter, after: Bytes, r: Result<Command>, rest: Bytes, counted: int)
    requires ReadStep(before, split) == Skip(after) && ReadsAs(after, split, r, rest, counted)
    ensures ReadsAs(before, split, r, rest, |before| - |after| + counted)
  {
    hide ReadStep;
    PrefixedNone(|before| - |after|, ReadCommand(after, split));
  }

  lemma HeaderKept(s: Bytes)
    requires s != [] && s[0] == STAR && NextLine(s).Line?
    ensures var h := NextLine(s).text; h != [] && h[0] == STAR
  {
    var i := IndexOf(s, LF);
    assert s[..i + 1][0] == STAR;
  }

  lemma LineGrows(buf: Bytes, part: Bytes)
    requires IndexOf(buf, LF) == |buf|
    ensures IndexOf(buf + part, LF) == |buf| + IndexOf(part, LF)
  {
    var i := IndexOf(part, LF);
    assert forall j :: 0 <= j < |buf| ==> (buf + part)[j] == buf[j];
    assert forall j :: 0 <= j < |part| ==> (buf + part)[|buf| + j] == part[j];
  }

  lemma LineMissing(buf: Bytes)
    requires IndexOf(buf, LF) == |buf|
    ensures NextLine(buf).NoLine?
  {
  }

  lemma LineComplete(line: Bytes, rest: Bytes)
    requires line != [] && IndexOf(line, LF) == |line| - 1
    ensures NextLine(line + rest) == Line(TrimCRLF(line), rest)
  {
    hide TrimCRLF;
    NextLineExtends(line, rest);
    assert line[..|line|] == line && line[|line|..] + rest == rest;
  }

  /** A frame the two walks accepted is the command the whole stream begins with. */
  lemma BufferedFrame(frame: Bytes, more: Bytes, hdr: Bytes, pos: nat, n: int, args: Command, end: nat, split: Splitter)
    requires pos <= end <= |frame|
    requires NextLine(frame) == Line(hdr, frame[pos..])
    requires hdr != [] && hdr[0] == STAR && CountOf(hdr[1..]) == Some(n) && 0 < n <= MAX_MULTIBULK
    requires ReadBulks(frame[pos..], n) == Parsed(Ok(args), frame[end..], end - pos)
    ensures ReadsAs(frame + more, split, Ok(args), frame[end..] + more, end)
  {
    hide NextLine, ReadBulks, CountOf;
    NextLineExtends(frame, more);
    ReadBulksExtends(frame[pos..], more, n);
    assert ReadStep(frame + more, split) == Done(Prefixed([], pos, ReadBulks(frame[pos..] + more, n)));
    PrefixedNone(pos, ReadBulks(frame[pos..] + more, n));
  }
}
