/** The request grammar as a function of the byte stream alone: what reading one command from
    a given remaining input yields, whichever way the bytes happen to arrive.

    A stream is everything the peer will ever send; running out of it is an end of file. */
module RespGrammar {
  import opened Bytes
  import opened Decimal

  const MAX_MULTIBULK: int := 1048576
  const MAX_BULK_LEN: int := 536870912

  datatype ReadError =
    | EOF
    | UnexpectedEOF
    | InvalidMultibulk
    | InvalidBulk
    | ExpectedBulk(got: byte)
    | UnbalancedQuotes
    | Protocol
    | ReplyType
    | ReplyTooDeep

  datatype Result<+T> = Ok(value: T) | Err(error: ReadError)

  type Command = seq<Bytes>

  /** The splitting of an inline command line into arguments: any total function on a line. */
  type Splitter = Bytes -> Result<Command>

  datatype LineResult = Line(text: Bytes, rest: Bytes) | NoLine

  /** The next line, trimmed, and the input behind its terminator. */
  function NextLine(s: Bytes): (r: LineResult)
    ensures r.Line? ==> |r.rest| < |s|
    ensures r.NoLine? <==> LF !in s
  {
    var i := IndexOf(s, LF);
    if i == |s| then NoLine else Line(TrimCRLF(s[..i + 1]), s[i + 1..])
  }

  /** One read: its outcome, the input left, and how many bytes it added to Consumed. */
  datatype Parsed = Parsed(result: Result<Command>, rest: Bytes, counted: nat)

  function Rejected(e: ReadError, rest: Bytes, counted: nat): Parsed { Parsed(Err(e), rest, counted) }

  function Prefixed(done: Command, counted: nat, p: Parsed): Parsed {
    Parsed(if p.result.Ok? then Ok(done + p.result.value) else p.result, p.rest, counted + p.counted)
  }

  /** The length a bulk header announces, or the error it is. */
  function BulkHeader(h: Bytes): (r: Result<nat>)
    ensures r.Ok? ==> r.value <= MAX_BULK_LEN
  {
    if h == [] then Err(ExpectedBulk(CR))
    else if h[0] != DOLLAR then Err(ExpectedBulk(h[0]))
    else
      match CountOf(h[1..])
      case Some(n) => if 0 <= n <= MAX_BULK_LEN then Ok(n) else Err(InvalidBulk)
      case None => Err(InvalidBulk)
  }

  /** Reading need bytes in one piece when only the input s is left. A failed read takes
      everything and counts nothing. */
  function ShortRead(s: Bytes): ReadError { if s == [] then EOF else UnexpectedEOF }

  /** One "$<len>" element: its payload, or the rejection it causes. The two bytes after the
      payload are taken without being looked at. */
  datatype BulkResult = Bulk(payload: Bytes, rest: Bytes) | NoBulk(rejected: Parsed)

  function ReadBulk(s: Bytes): (r: BulkResult)
    ensures r.Bulk? ==> |r.rest| < |s|
    ensures r.NoBulk? ==> r.rejected.result.Err? && |r.rejected.rest| <= |s|
  {
    match NextLine(s)
    case NoLine => NoBulk(Rejected(EOF, [], |s|))
    case Line(h, after) =>
      var header := |s| - |after|;
      match BulkHeader(h)
      case Err(e) => NoBulk(Rejected(e, after, header))
      case Ok(len) =>
        if |after| < len + 2 then NoBulk(Rejected(ShortRead(after), [], header))
        else Bulk(after[..len], after[len + 2..])
  }

  /** The n bulk strings that follow a multibulk header. */
  function ReadBulks(s: Bytes, n: nat): (p: Parsed)
    ensures |p.rest| <= |s|
    ensures p.result.Ok? ==> |p.result.value| == n && p.counted == |s| - |p.rest|
    decreases n
  {
    if n == 0 then Parsed(Ok([]), s, 0)
    else
      match ReadBulk(s)
      case NoBulk(p) => p
      case Bulk(payload, rest) => Prefixed([payload], |s| - |rest|, ReadBulks(rest, n - 1))
  }

  /** What the first line of the input leads to: something to skip, or a finished read. */
  datatype Step = Skip(after: Bytes) | Done(parsed: Parsed)

  ghost predicate WellCounted(p: Parsed, s: Bytes) {
    && |p.rest| <= |s|
    && (p.result.Ok? ==> p.result.value != [] && |p.rest| < |s| && p.counted == |s| - |p.rest|)
  }

  function ReadStep(s: Bytes, split: Splitter): (r: Step)
    ensures r.Skip? ==> |r.after| < |s|
    ensures r.Done? ==> WellCounted(r.parsed, s)
  {
    match NextLine(s)
    case NoLine => Done(Rejected(EOF, [], |s|))
    case Line(line, after) =>
      var header := |s| - |after|;
      if line == [] then Skip(after)
      else if line[0] != STAR then
        match split(line)
        case Err(e) => Done(Rejected(e, after, header))
        case Ok(args) => if args == [] then Skip(after) else Done(Parsed(Ok(args), after, header))
      else
        match CountOf(line[1..])
        case None => Done(Rejected(InvalidMultibulk, after, header))
        case Some(n) =>
          if n > MAX_MULTIBULK then Done(Rejected(InvalidMultibulk, after, header))
          else if n <= 0 then Skip(after)
          else Done(Prefixed([], header, ReadBulks(after, n)))
  }

  /** One command. Blank lines, separator-only inline lines and non-positive counts are skipped.
      A successful read returns at least one argument, leaves strictly less input
      and counts exactly the bytes it took. */
  function ReadCommand(s: Bytes, split: Splitter): (p: Parsed)
    ensures WellCounted(p, s)
    decreases |s|
  {
    match ReadStep(s, split)
    case Done(p) => p
    case Skip(after) => Prefixed([], |s| - |after|, ReadCommand(after, split))
  }

  /** Every command of a stream up to its first error, as a replay loop collects them. */
  function ReadAll(s: Bytes, split: Splitter): seq<Command>
    decreases |s|
  {
    var p := ReadCommand(s, split);
    if p.result.Err? then [] else [p.result.value] + ReadAll(p.rest, split)
  }
}
