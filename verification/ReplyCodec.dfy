/** Replies: the trees the writer can serialize in RESP2 or RESP3, the values the reply reader
    makes of a byte stream, and the proof that the second inverts the first. */
module ReplyCodec {
  import opened Bytes
  import opened Decimal
  import opened RespGrammar
  import opened RespReader
  import opened CommandCodec
  import opened RespWriter

  const MAX_DEPTH: nat := 32

  /** The conversions between a double and its text, taken as given. */
  datatype Floats<!D> = Floats(parse: Bytes -> Option<D>, format: D -> Bytes)

  /** A reply as a handler writes it. A map is its keys and values in turn, as the handler
      writes them behind the header. An attributed reply carries metadata only RESP3 can send. */
  datatype Reply =
    | Simple(text: Bytes)
    | Error(text: Bytes)
    | Int(n: int)
    | BulkText(data: Bytes)
    | Null
    | NullArray
    | Bool(b: bool)
    | Double(text: Bytes)
    | BigNumber(text: Bytes)
    | Verbatim(format: Bytes, payload: Bytes)
    | Array(items: seq<Reply>)
    | Set(items: seq<Reply>)
    | Push(items: seq<Reply>)
    | Map(items: seq<Reply>)
    | Attributed(items: seq<Reply>, reply: Reply)

  /** A decoded reply. */
  datatype Value<D> =
    | VText(text: Bytes)
    | VError(text: Bytes)
    | VInt(n: int)
    | VDouble(d: D)
    | VBool(b: bool)
    | VNil
    | VArray(values: seq<Value<D>>)
    | VMap(entries: map<Bytes, Value<D>>)

  // ---- writing ------------------------------------------------------------------------

  function Encode(resp3: bool, r: Reply): Bytes
    decreases r, 1
  {
    match r
    case Simple(text) => TextLine(PLUS, text)
    case Error(text) => TextLine(MINUS, text)
    case Int(n) => Header(COLON, n)
    case BulkText(data) => EncodeBulk(data)
    case Null => NullBytes(resp3)
    case NullArray => NullArrayBytes(resp3)
    case Bool(b) => BoolBytes(resp3, b)
    case Double(text) => TaggedBytes(resp3, COMMA, text)
    case BigNumber(text) => TaggedBytes(resp3, PAREN, text)
    case Verbatim(format, payload) => VerbatimBytes(resp3, format, payload)
    case Array(items) => Header(STAR, |items|) + EncodeItems(resp3, items)
    case Set(items) => Header(if resp3 then TILDE else STAR, |items|) + EncodeItems(resp3, items)
    case Push(items) => Header(if resp3 then GREATER else STAR, |items|) + EncodeItems(resp3, items)
    case Map(items) =>
      (if resp3 then Header(PERCENT, |items| / 2) else Header(STAR, |items|)) + EncodeItems(resp3, items)
    case Attributed(items, reply) =>
      if resp3 then Header(BAR, |items| / 2) + EncodeItems(resp3, items) + Encode(resp3, reply)
      else Encode(resp3, reply)
  }

  function EncodeItems(resp3: bool, items: seq<Reply>): Bytes
    decreases items, 0
  {
    if items == [] then [] else Encode(resp3, items[0]) + EncodeItems(resp3, items[1..])
  }

  // ---- reading ------------------------------------------------------------------------

  /** A value and the input behind it, or an error, the input left, and the bytes taken from it that
      the reader does not count. */
  datatype Decoded<D> = Decoded(value: Value<D>, rest: Bytes) | Failed(error: ReadError, rest: Bytes, uncounted: nat)

  datatype DecodedItems<D> =
    | DecodedItems(values: seq<Value<D>>, rest: Bytes)
    | FailedItems(error: ReadError, rest: Bytes, uncounted: nat)

  /** One reply at the given nesting depth. */
  function Decode<D>(s: Bytes, depth: nat, fl: Floats<D>): (r: Decoded<D>)
    ensures r.Decoded? ==> |r.rest| < |s|
    decreases |s|, 0
  {
    if depth > MAX_DEPTH then Failed(ReplyTooDeep, s, 0)
    else
      match NextLine(s)
      case NoLine => Failed(EOF, [], 0)
      case Line(line, rest) =>
        if line == [] then Failed(ReplyType, rest, 0)
        else
          var body := line[1..];
          match KindOf(line[0])
          case Scalar => DecodeScalar(line[0], body, rest, fl)
          case Text => DecodeBulk(body, rest, line[0] == EQUALS)
          case List =>
            (match CountWithin(body, -1)
             case None => Failed(InvalidMultibulk, rest, 0)
             case Some(n) => if n < 0 then Decoded(VNil, rest) else AsArray(DecodeItems(rest, n, depth + 1, fl)))
          case Pairs =>
            (match CountWithin(body, 0)
             case None => Failed(InvalidMultibulk, rest, 0)
             case Some(n) =>
               match DecodeItems(rest, 2 * n, depth + 1, fl)
               case FailedItems(e, left, k) => Failed(e, left, k)
               case DecodedItems(values, more) =>
                 if line[0] == PERCENT then Decoded(VMap(MapOf(values, fl)), more)
                 else Decode(more, depth, fl))
          case Unknown => Failed(ReplyType, rest, 0)
  }

  function DecodeItems<D>(s: Bytes, n: nat, depth: nat, fl: Floats<D>): (r: DecodedItems<D>)
    ensures r.DecodedItems? ==> |r.rest| <= |s| && |r.values| == n
    decreases |s|, 1, n
  {
    if n == 0 then DecodedItems([], s)
    else
      match Decode(s, depth, fl)
      case Failed(e, left, k) => FailedItems(e, left, k)
      case Decoded(v, rest) =>
        match DecodeItems(rest, n - 1, depth, fl)
        case FailedItems(e, left, k) => FailedItems(e, left, k)
        case DecodedItems(values, more) => DecodedItems([v] + values, more)
  }

  function AsArray<D>(r: DecodedItems<D>): Decoded<D> {
    match r
    case FailedItems(e, left, k) => Failed(e, left, k)
    case DecodedItems(values, rest) => Decoded(VArray(values), rest)
  }

  datatype Kind = Scalar | Text | List | Pairs | Unknown

  function KindOf(mark: byte): Kind {
    if mark in [PLUS, MINUS, COLON, UNDERSCORE, HASH, COMMA, PAREN] then Scalar
    else if mark in [DOLLAR, EQUALS] then Text
    else if mark in [STAR, TILDE, GREATER] then List
    else if mark in [PERCENT, BAR] then Pairs
    else Unknown
  }

  function DecodeScalar<D>(mark: byte, body: Bytes, rest: Bytes, fl: Floats<D>): (r: Decoded<D>)
    ensures r.rest == rest && (r.Failed? ==> r.uncounted == 0)
  {
    if mark == PLUS || mark == PAREN then Decoded(VText(body), rest)
    else if mark == MINUS then Decoded(VError(body), rest)
    else if mark == UNDERSCORE then Decoded(VNil, rest)
    else if mark == COLON then
      match AtoiOf(body)
      case Some(n) => Decoded(VInt(n), rest)
      case None => Failed(Protocol, rest, 0)
    else if mark == COMMA then
      match fl.parse(body)
      case Some(d) => Decoded(VDouble(d), rest)
      case None => Failed(Protocol, rest, 0)
    else if body == [116] then Decoded(VBool(true), rest)
    else if body == [102] then Decoded(VBool(false), rest)
    else Failed(Protocol, rest, 0)
  }

  /** A verbatim payload without its three-character format and the colon behind it. */
  function StripFormat(payload: Bytes): Bytes {
    if |payload| >= 4 && payload[3] == COLON then payload[4..] else payload
  }

  function DecodeBulk<D>(body: Bytes, rest: Bytes, verbatim: bool): (r: Decoded<D>)
    ensures r.Decoded? ==> |r.rest| <= |rest|
  {
    match AtoiOf(body)
    case None => Failed(InvalidBulk, rest, 0)
    case Some(n) =>
      if n < -1 || n > MAX_BULK_LEN then Failed(InvalidBulk, rest, 0)
      else if n < 0 then Decoded(VNil, rest)
      else if |rest| < n + 2 then Failed(ShortRead(rest), [], |rest|)
      else Decoded(VText(if verbatim then StripFormat(rest[..n]) else rest[..n]), rest[n + 2..])
  }

  /** A collection count between low and the element limit. */
  function CountWithin(body: Bytes, low: int): (r: Option<int>)
    ensures r.Some? ==> low <= r.value <= MAX_MULTIBULK
  {
    match AtoiOf(body)
    case None => None
    case Some(n) => if low <= n <= MAX_MULTIBULK then Some(n) else None
  }

  const TRUE_TEXT: Bytes := [116, 114, 117, 101]
  const FALSE_TEXT: Bytes := [102, 97, 108, 115, 101]

  /** The key a decoded value becomes: every key is rendered as text rather than refused. */
  function KeyText<D>(v: Value<D>, fl: Floats<D>): Bytes {
    match v
    case VText(t) => t
    case VError(t) => t
    case VInt(n) => Itoa(n)
    case VDouble(d) => fl.format(d)
    case VBool(b) => if b then TRUE_TEXT else FALSE_TEXT
    case _ => []
  }

  /** Keys and values in turn as a map; a later pair replaces an earlier one. */
  function MapOf<D>(values: seq<Value<D>>, fl: Floats<D>): map<Bytes, Value<D>> {
    if |values| < 2 then map[]
    else
      var last := |values| - 2;
      MapOf(values[..last], fl)[KeyText(values[last], fl) := values[last + 1]]
  }

  // ---- what a reply means -------------------------------------------------------------

  /** The documented value of a reply under a protocol version. */
  function Meaning<D>(resp3: bool, r: Reply, fl: Floats<D>): Value<D>
    requires HasDoubles(resp3, r, fl)
    decreases r, 1
  {
    match r
    case Simple(text) => VText(text)
    case Error(text) => VError(text)
    case Int(n) => VInt(n)
    case BulkText(data) => VText(data)
    case Null => VNil
    case NullArray => VNil
    case Bool(b) => if resp3 then VBool(b) else VInt(if b then 1 else 0)
    case Double(text) => if resp3 then VDouble(fl.parse(text).value) else VText(text)
    case BigNumber(text) => VText(text)
    case Verbatim(format, payload) =>
      VText(if resp3 then StripFormat(format + [COLON] + payload) else payload)
    case Array(items) => VArray(Meanings(resp3, items, fl))
    case Set(items) => VArray(Meanings(resp3, items, fl))
    case Push(items) => VArray(Meanings(resp3, items, fl))
    case Map(items) =>
      if resp3 then VMap(MapOf(Meanings(resp3, items, fl), fl)) else VArray(Meanings(resp3, items, fl))
    case Attributed(_, reply) => Meaning(resp3, reply, fl)
  }

  function Meanings<D>(resp3: bool, items: seq<Reply>, fl: Floats<D>): (r: seq<Value<D>>)
    requires HaveDoubles(resp3, items, fl)
    ensures |r| == |items|
    decreases items, 0
  {
    if items == [] then [] else [Meaning(resp3, items[0], fl)] + Meanings(resp3, items[1..], fl)
  }

  /** Every double written as one has a text the reader accepts. */
  predicate HasDoubles<D>(resp3: bool, r: Reply, fl: Floats<D>)
    decreases r, 1
  {
    match r
    case Double(text) => resp3 ==> fl.parse(text).Some?
    case Array(items) => HaveDoubles(resp3, items, fl)
    case Set(items) => HaveDoubles(resp3, items, fl)
    case Push(items) => HaveDoubles(resp3, items, fl)
    case Map(items) => HaveDoubles(resp3, items, fl)
    case Attributed(items, reply) =>
      (resp3 ==> HaveDoubles(resp3, items, fl)) && HasDoubles(resp3, reply, fl)
    case _ => true
  }

  predicate HaveDoubles<D>(resp3: bool, items: seq<Reply>, fl: Floats<D>)
    decreases items, 0
  {
    items == [] || (HasDoubles(resp3, items[0], fl) && HaveDoubles(resp3, items[1..], fl))
  }

  /** Within the protocol's limits when read at the given depth, with line-safe text. */
  predicate Fits(resp3: bool, r: Reply, depth: nat)
    decreases r, 1
  {
    && depth <= MAX_DEPTH
    && match r
       case Simple(text) => LineSafe(text)
       case Error(text) => LineSafe(text)
       case Int(n) => -MAX_INT - 1 <= n <= MAX_INT
       case BulkText(data) => |data| <= MAX_BULK_LEN
       case Double(text) => if resp3 then LineSafe(text) else |text| <= MAX_BULK_LEN
       case BigNumber(text) => if resp3 then LineSafe(text) else |text| <= MAX_BULK_LEN
       case Verbatim(format, payload) =>
         (if resp3 then |format| + 1 + |payload| else |payload|) <= MAX_BULK_LEN
       case Array(items) => |items| <= MAX_MULTIBULK && AllFit(resp3, items, depth + 1)
       case Set(items) => |items| <= MAX_MULTIBULK && AllFit(resp3, items, depth + 1)
       case Push(items) => |items| <= MAX_MULTIBULK && AllFit(resp3, items, depth + 1)
       case Map(items) =>
         && |items| % 2 == 0
         && (if resp3 then |items| / 2 else |items|) <= MAX_MULTIBULK
         && AllFit(resp3, items, depth + 1)
       case Attributed(items, reply) =>
         && (resp3 ==> |items| % 2 == 0 && |items| / 2 <= MAX_MULTIBULK && AllFit(resp3, items, depth + 1))
         && Fits(resp3, reply, depth)
       case _ => true
  }

  predicate AllFit(resp3: bool, items: seq<Reply>, depth: nat)
    decreases items, 0
  {
    items == [] || (Fits(resp3, items[0], depth) && AllFit(resp3, items[1..], depth))
  }

  // ---- the reader on what the writer writes -------------------------------------------

  lemma MarkedLine(mark: byte, text: Bytes, rest: Bytes)
    requires mark != CR && mark != LF && LineSafe(text)
    ensures NextLine(TextLine(mark, text) + rest) == Line([mark] + text, rest)
    ensures ([mark] + text)[1..] == text
  {
    hide NextLine;
    var line := [mark] + text;
    assert text != [] ==> line[|line| - 1] == text[|text| - 1];
    NextLineOfText(line, rest);
  }

  lemma HeaderLine(mark: byte, n: int, rest: Bytes)
    requires mark != CR && mark != LF
    ensures NextLine(Header(mark, n) + rest) == Line([mark] + Itoa(n), rest)
    ensures ([mark] + Itoa(n))[1..] == Itoa(n)
  {
    hide NextLine, Itoa;
    ItoaRoundTrip(n);
    MarkedLine(mark, Itoa(n), rest);
  }

  lemma ScalarLine<D>(mark: byte, text: Bytes, rest: Bytes, depth: nat, fl: Floats<D>)
    requires KindOf(mark).Scalar? && LineSafe(text) && depth <= MAX_DEPTH
    ensures Decode(TextLine(mark, text) + rest, depth, fl) == DecodeScalar(mark, text, rest, fl)
  {
    hide NextLine, DecodeScalar;
    MarkedLine(mark, text, rest);
  }

  lemma BulkLine<D>(mark: byte, n: int, rest: Bytes, depth: nat, fl: Floats<D>)
    requires KindOf(mark).Text? && depth <= MAX_DEPTH
    ensures Decode(Header(mark, n) + rest, depth, fl) == DecodeBulk(Itoa(n), rest, mark == EQUALS)
  {
    hide NextLine, Itoa, DecodeBulk;
    HeaderLine(mark, n, rest);
  }

  lemma ListLine<D>(mark: byte, n: int, rest: Bytes, depth: nat, fl: Floats<D>)
    requires KindOf(mark).List? && -1 <= n <= MAX_MULTIBULK && depth <= MAX_DEPTH
    ensures Decode(Header(mark, n) + rest, depth, fl)
         == if n < 0 then Decoded(VNil, rest) else AsArray(DecodeItems(rest, n, depth + 1, fl))
  {
    hide NextLine, Itoa, DecodeItems, AtoiOf;
    HeaderLine(mark, n, rest);
    ItoaRoundTrip(n);
  }

  lemma PairsLine<D>(mark: byte, n: nat, rest: Bytes, depth: nat, fl: Floats<D>)
    requires KindOf(mark).Pairs? && n <= MAX_MULTIBULK && depth <= MAX_DEPTH
    requires DecodeItems(rest, 2 * n, depth + 1, fl).DecodedItems?
    ensures Decode(Header(mark, n) + rest, depth, fl)
         == var items := DecodeItems(rest, 2 * n, depth + 1, fl);
            if mark == PERCENT then Decoded(VMap(MapOf(items.values, fl)), items.rest)
            else Decode(items.rest, depth, fl)
  {
    hide NextLine, Itoa, DecodeItems, AtoiOf, MapOf;
    HeaderLine(mark, n, rest);
    ItoaRoundTrip(n);
  }

  lemma PayloadRead<D>(mark: byte, payload: Bytes, rest: Bytes, depth: nat, fl: Floats<D>)
    requires KindOf(mark).Text? && |payload| <= MAX_BULK_LEN && depth <= MAX_DEPTH
    ensures Decode(Header(mark, |payload|) + payload + CRLF + rest, depth, fl)
         == Decoded(VText(if mark == EQUALS then StripFormat(payload) else payload), rest)
  {
    hide Header, Itoa, AtoiOf, Decode, StripFormat;
    var more := payload + CRLF + rest;
    assert Header(mark, |payload|) + payload + CRLF + rest == Header(mark, |payload|) + more;
    BulkLine(mark, |payload|, more, depth, fl);
    ItoaRoundTrip(|payload|);
    assert more[..|payload|] == payload;
    assert more[|payload| + 2..] == rest;
  }

  lemma NegativeRead<D>(mark: byte, rest: Bytes, depth: nat, fl: Floats<D>)
    requires (mark == DOLLAR || mark == STAR) && depth <= MAX_DEPTH
    ensures Decode(Header(mark, -1) + rest, depth, fl) == Decoded(VNil, rest)
  {
    hide Header, Itoa, AtoiOf, Decode;
    ItoaRoundTrip(-1);
    if mark == DOLLAR { BulkLine(mark, -1, rest, depth, fl); } else { ListLine(mark, -1, rest, depth, fl); }
  }

  /** The replies that are not collections. */
  predicate IsLeaf(r: Reply) {
    !r.Array? && !r.Set? && !r.Push? && !r.Map? && !r.Attributed?
  }

  lemma IntRead<D>(n: int, tail: Bytes, depth: nat, fl: Floats<D>)
    requires -MAX_INT - 1 <= n <= MAX_INT && depth <= MAX_DEPTH
    ensures Decode(Header(COLON, n) + tail, depth, fl) == Decoded(VInt(n), tail)
  {
    hide Itoa, AtoiOf, Decode;
    ItoaRoundTrip(n);
    ScalarLine(COLON, Itoa(n), tail, depth, fl);
  }

  lemma LeafRoundTrip<D>(resp3: bool, r: Reply, tail: Bytes, depth: nat, fl: Floats<D>)
    requires IsLeaf(r) && Fits(resp3, r, depth) && HasDoubles(resp3, r, fl)
    ensures Decode(Encode(resp3, r) + tail, depth, fl) == Decoded(Meaning(resp3, r, fl), tail)
  {
    hide Header, Decode, StripFormat;
    match r
    case Simple(text) => ScalarLine(PLUS, text, tail, depth, fl);
    case Error(text) => ScalarLine(MINUS, text, tail, depth, fl);
    case Int(n) => IntRead(n, tail, depth, fl);
    case BulkText(data) => PayloadRead(DOLLAR, data, tail, depth, fl);
    case Null =>
      if resp3 {
        ScalarLine(UNDERSCORE, [], tail, depth, fl);
        NullText();
      } else {
        NegativeRead(DOLLAR, tail, depth, fl);
      }
    case NullArray =>
      if resp3 {
        ScalarLine(UNDERSCORE, [], tail, depth, fl);
        NullText();
      } else {
        NegativeRead(STAR, tail, depth, fl);
      }
    case Bool(b) =>
      if resp3 {
        BoolText(b);
        ScalarLine(HASH, [if b then 116 else 102], tail, depth, fl);
      } else {
        IntRead(if b then 1 else 0, tail, depth, fl);
      }
    case Double(text) =>
      if resp3 { ScalarLine(COMMA, text, tail, depth, fl); } else { PayloadRead(DOLLAR, text, tail, depth, fl); }
    case BigNumber(text) =>
      if resp3 { ScalarLine(PAREN, text, tail, depth, fl); } else { PayloadRead(DOLLAR, text, tail, depth, fl); }
    case Verbatim(format, payload) =>
      if resp3 {
        var whole := format + [COLON] + payload;
        var head := Header(EQUALS, |whole|);
        assert head + format + [COLON] + payload + CRLF == head + whole + CRLF;
        PayloadRead(EQUALS, whole, tail, depth, fl);
      } else {
        PayloadRead(DOLLAR, payload, tail, depth, fl);
      }
  }

  lemma NullText()
    ensures NullBytes(true) == NullArrayBytes(true) == TextLine(UNDERSCORE, [])
  {
  }

  lemma BoolText(b: bool)
    ensures BoolBytes(true, b) == TextLine(HASH, [if b then 116 else 102])
  {
  }

  /** Decoding a reply the writer wrote, followed by anything, returns its documented value and
      leaves what followed. */
  lemma {:induction false} ReplyRoundTrip<D>(resp3: bool, r: Reply, tail: Bytes, depth: nat, fl: Floats<D>)
    requires Fits(resp3, r, depth) && HasDoubles(resp3, r, fl)
    ensures Decode(Encode(resp3, r) + tail, depth, fl) == Decoded(Meaning(resp3, r, fl), tail)
    decreases r, 1
  {
    hide Encode, Decode, Meaning, Fits, HasDoubles;
    if IsLeaf(r) {
      LeafRoundTrip(resp3, r, tail, depth, fl);
    } else if r.Attributed? {
      AttributedRoundTrip(resp3, r, tail, depth, fl);
    } else if r.Map? && resp3 {
      MapRoundTrip(resp3, r, tail, depth, fl);
    } else {
      ListRoundTrip(resp3, r, tail, depth, fl);
    }
  }

  lemma {:induction false} ListRoundTrip<D>(resp3: bool, r: Reply, tail: Bytes, depth: nat, fl: Floats<D>)
    requires !IsLeaf(r) && !r.Attributed? && !(r.Map? && resp3) && Fits(resp3, r, depth) && HasDoubles(resp3, r, fl)
    ensures Decode(Encode(resp3, r) + tail, depth, fl) == Decoded(Meaning(resp3, r, fl), tail)
    decreases r, 0
  {
    hide Header, Decode, DecodeItems, MapOf, NextLine;
    var rest := EncodeItems(resp3, r.items) + tail;
    ItemsRoundTrip(resp3, r.items, tail, depth + 1, fl);
    var mark := if !resp3 || r.Array? then STAR else if r.Set? then TILDE else GREATER;
    assert Encode(resp3, r) + tail == Header(mark, |r.items|) + rest;
    ListLine(mark, |r.items|, rest, depth, fl);
  }

  lemma {:induction false} MapRoundTrip<D>(resp3: bool, r: Reply, tail: Bytes, depth: nat, fl: Floats<D>)
    requires r.Map? && resp3 && Fits(resp3, r, depth) && HasDoubles(resp3, r, fl)
    ensures Decode(Encode(resp3, r) + tail, depth, fl) == Decoded(Meaning(resp3, r, fl), tail)
    decreases r, 0
  {
    hide Header, Decode, DecodeItems, MapOf, NextLine;
    var rest := EncodeItems(resp3, r.items) + tail;
    ItemsRoundTrip(resp3, r.items, tail, depth + 1, fl);
    assert Encode(resp3, r) + tail == Header(PERCENT, |r.items| / 2) + rest;
    assert 2 * (|r.items| / 2) == |r.items|;
    PairsLine(PERCENT, |r.items| / 2, rest, depth, fl);
  }

  lemma {:induction false} AttributedRoundTrip<D>(resp3: bool, r: Reply, tail: Bytes, depth: nat, fl: Floats<D>)
    requires r.Attributed? && Fits(resp3, r, depth) && HasDoubles(resp3, r, fl)
    ensures Decode(Encode(resp3, r) + tail, depth, fl) == Decoded(Meaning(resp3, r, fl), tail)
    decreases r, 0
  {
    hide Header, Decode, DecodeItems, MapOf, NextLine;
    ReplyRoundTrip(resp3, r.reply, tail, depth, fl);
    if resp3 {
      var inner := Encode(resp3, r.reply) + tail;
      var rest := EncodeItems(resp3, r.items) + inner;
      assert Encode(resp3, r) + tail == Header(BAR, |r.items| / 2) + rest;
      ItemsRoundTrip(resp3, r.items, inner, depth + 1, fl);
      assert 2 * (|r.items| / 2) == |r.items|;
      PairsLine(BAR, |r.items| / 2, rest, depth, fl);
    }
  }

  lemma {:induction false} ItemsRoundTrip<D>(resp3: bool, items: seq<Reply>, tail: Bytes, depth: nat, fl: Floats<D>)
    requires AllFit(resp3, items, depth) && HaveDoubles(resp3, items, fl)
    ensures DecodeItems(EncodeItems(resp3, items) + tail, |items|, depth, fl)
         == DecodedItems(Meanings(resp3, items, fl), tail)
    decreases items, 0
  {
    hide Decode, Encode, Meaning, Fits, HasDoubles;
    if items == [] {
      assert EncodeItems(resp3, items) + tail == tail;
    } else {
      var rest := EncodeItems(resp3, items[1..]) + tail;
      assert EncodeItems(resp3, items) + tail == Encode(resp3, items[0]) + rest;
      ReplyRoundTrip(resp3, items[0], rest, depth, fl);
      ItemsRoundTrip(resp3, items[1..], tail, depth, fl);
    }
  }

  // ---- the two protocol versions compared ---------------------------------------------

  /** No map, no double, no boolean, and every verbatim format three bytes long. */
  predicate VersionFree(r: Reply)
    decreases r, 1
  {
    match r
    case Bool(_) => false
    case Double(_) => false
    case Map(_) => false
    case Verbatim(format, _) => |format| == 3
    case Array(items) => AllVersionFree(items)
    case Set(items) => AllVersionFree(items)
    case Push(items) => AllVersionFree(items)
    case Attributed(_, reply) => VersionFree(reply)
    case _ => true
  }

  predicate AllVersionFree(items: seq<Reply>)
    decreases items, 0
  {
    items == [] || (VersionFree(items[0]) && AllVersionFree(items[1..]))
  }

  lemma FormatStripped(format: Bytes, payload: Bytes)
    ensures StripFormat(format + [COLON] + payload) == payload <==> |format| == 3
  {
    var whole := format + [COLON] + payload;
    if |format| == 3 { assert whole[4..] == payload; }
  }

  /** A reply decodes to the same value under both protocol versions exactly when it is free of
      the shapes RESP3 changed -- the boolean among them. */
  lemma {:induction false} SameInBothVersions<D>(r: Reply, fl: Floats<D>)
    requires HasDoubles(false, r, fl) && HasDoubles(true, r, fl)
    ensures Meaning(false, r, fl) == Meaning(true, r, fl) <==> VersionFree(r)
    decreases r, 1
  {
    hide MapOf, StripFormat;
    match r
    case Verbatim(format, payload) => FormatStripped(format, payload);
    case Array(items) => SameItemsInBothVersions(items, fl);
    case Set(items) => SameItemsInBothVersions(items, fl);
    case Push(items) => SameItemsInBothVersions(items, fl);
    case Attributed(_, reply) => SameInBothVersions(reply, fl);
    case _ =>
  }

  lemma {:induction false} SameItemsInBothVersions<D>(items: seq<Reply>, fl: Floats<D>)
    requires HaveDoubles(false, items, fl) && HaveDoubles(true, items, fl)
    ensures Meanings(false, items, fl) == Meanings(true, items, fl) <==> AllVersionFree(items)
    decreases items, 0
  {
    hide Meaning, VersionFree, HasDoubles;
    if items != [] {
      SameInBothVersions(items[0], fl);
      SameItemsInBothVersions(items[1..], fl);
      var a, b := Meanings(false, items, fl), Meanings(true, items, fl);
      assert a == b <==> a[0] == b[0] && a[1..] == b[1..];
    }
  }

  /** An array nested k levels around a null. */
  function Nested(k: nat): Reply { if k == 0 then Null else Array([Nested(k - 1)]) }

  /** Nesting is accepted up to the limit and refused beyond it. */
  lemma {:induction false} NestingLimit<D>(resp3: bool, k: nat, depth: nat, fl: Floats<D>)
    ensures var r := Decode(Encode(resp3, Nested(k)), depth, fl);
            if depth + k <= MAX_DEPTH then r.Decoded? && r.rest == [] else r.Failed? && r.error == ReplyTooDeep
    decreases k
  {
    hide Header, Decode, DecodeItems, Encode, EncodeItems;
    if depth > MAX_DEPTH {
      TooDeep(Encode(resp3, Nested(k)), depth, fl);
    } else if k == 0 {
      LeafRoundTrip(resp3, Null, [], depth, fl);
      assert Encode(resp3, Null) + [] == Encode(resp3, Null);
    } else {
      NestingLimit(resp3, k - 1, depth + 1, fl);
      NestedBytes(resp3, k);
      var inner := Encode(resp3, Nested(k - 1));
      ListLine(STAR, 1, inner, depth, fl);
      OneItem(inner, depth + 1, fl);
    }
  }

  lemma TooDeep<D>(s: Bytes, depth: nat, fl: Floats<D>)
    requires depth > MAX_DEPTH
    ensures Decode(s, depth, fl) == Failed(ReplyTooDeep, s, 0)
  {
    hide NextLine;
  }

  lemma NestedBytes(resp3: bool, k: nat)
    requires k > 0
    ensures Encode(resp3, Nested(k)) == Header(STAR, 1) + Encode(resp3, Nested(k - 1))
  {
    hide Header;
    var items := [Nested(k - 1)];
    assert items[1..] == [];
    assert EncodeItems(resp3, items) == Encode(resp3, items[0]) + [];
  }

  lemma OneItem<D>(s: Bytes, depth: nat, fl: Floats<D>)
    ensures DecodeItems(s, 1, depth, fl)
         == match Decode(s, depth, fl)
            case Failed(e, left, k) => FailedItems(e, left, k)
            case Decoded(v, rest) => DecodedItems([v], rest)
  {
    hide Decode;
  }

  // ---- the writer and the reader in the source ----------------------------------------

  /** A handler serializing a reply through the connection's writer. */
  method Serialize(w: Writer, r: Reply)
    modifies w`buf, w`out, w`errs
    ensures w.Wrote(old(w.Sent()), Encode(w.resp3, r))
    decreases r, 1
  {
    hide Header;
    match r
    case Simple(text) => w.WriteSimple(text);
    case Error(text) => w.WriteError(text);
    case Int(n) => w.WriteInt(n);
    case BulkText(data) => w.WriteBulkString(data);
    case Null => w.WriteNull();
    case NullArray => w.WriteNullArray();
    case Bool(b) => w.WriteBool(b);
    case Double(text) => w.WriteTagged(COMMA, text);
    case BigNumber(text) => w.WriteTagged(PAREN, text);
    case Verbatim(format, payload) => w.WriteVerbatim(format, payload);
    case Array(items) => SerializeCollection(w, STAR, |items|, items);
    case Set(items) => SerializeCollection(w, if w.resp3 then TILDE else STAR, |items|, items);
    case Push(items) => SerializeCollection(w, if w.resp3 then GREATER else STAR, |items|, items);
    case Map(items) =>
      if w.resp3 { SerializeCollection(w, PERCENT, |items| / 2, items); }
      else { SerializeCollection(w, STAR, |items|, items); }
    case Attributed(items, reply) =>
      ghost var before, head := w.Sent(), Header(BAR, |items| / 2) + EncodeItems(true, items);
      if w.resp3 { SerializeCollection(w, BAR, |items| / 2, items); }
      Serialize(w, reply);
      if w.resp3 { w.WroteMore(before, head, Encode(true, reply)); }
  }

  method SerializeCollection(w: Writer, mark: byte, n: int, items: seq<Reply>)
    modifies w`buf, w`out, w`errs
    ensures w.Wrote(old(w.Sent()), Header(mark, n) + EncodeItems(w.resp3, items))
    decreases items, 0
  {
    hide Header, Encode;
    ghost var before := w.Sent();
    w.WriteLen(mark, n);
    ghost var so := Header(mark, n);
    for i := 0 to |items|
      invariant w.Wrote(before, so)
      invariant so == Header(mark, n) + EncodeItems(w.resp3, items[..i])
    {
      Serialize(w, items[i]);
      w.WroteMore(before, so, Encode(w.resp3, items[i]));
      so := so + Encode(w.resp3, items[i]);
      EncodeItemsAppend(w.resp3, items[..i], items[i]);
      assert items[..i + 1] == items[..i] + [items[i]];
    }
    assert items[..|items|] == items;
  }

  lemma {:induction false} EncodeItemsAppend(resp3: bool, items: seq<Reply>, r: Reply)
    ensures EncodeItems(resp3, items + [r]) == EncodeItems(resp3, items) + Encode(resp3, r)
    decreases |items|
  {
    hide Encode;
    if items == [] {
      assert (items + [r])[1..] == [];
    } else {
      assert (items + [r])[1..] == items[1..] + [r];
      EncodeItemsAppend(resp3, items[1..], r);
    }
  }

  /** One reply off the connection. */
  method ReadReply<D>(r: Reader, depth: nat, fl: Floats<D>) returns (v: Value<D>, err: Option<ReadError>)
    requires r.Valid()
    modifies r
    ensures r.Valid() && |r.input| <= |old(r.input)|
    ensures Reads(Decode(old(r.input), depth, fl), old(r.input), v, err, r.input, r.n - old(r.n))
    decreases |r.input|, 0
  {
    hide NextLine, DecodeItems, DecodeScalar, DecodeBulk, CountWithin, MapOf;
    if depth > MAX_DEPTH { return VNil, Some(ReplyTooDeep); }
    var line, found := r.ReadLine();
    if !found { return VNil, Some(EOF); }
    if |line| == 0 { return VNil, Some(ReplyType); }
    var body := line[1..];
    match KindOf(line[0])
    case Scalar =>
      match DecodeScalar(line[0], body, r.input, fl) {
        case Decoded(value, _) => v, err := value, None;
        case Failed(e, _, _) => v, err := VNil, Some(e);
      }
    case Text => v, err := ReadReplyBulk(r, body, line[0] == EQUALS);
    case List => v, err := ReadReplyArray(r, body, depth, fl);
    case Pairs =>
      v, err := ReadReplyMap(r, body, depth, fl);
      if line[0] == BAR && err.None? { v, err := ReadReply(r, depth, fl); }
    case Unknown => return VNil, Some(ReplyType);
  }

  /** The outcome of a read: the decoded value or the error, the input left and the bytes counted. */
  ghost predicate Reads<D>(spec: Decoded<D>, s: Bytes, v: Value<D>, err: Option<ReadError>, rest: Bytes, counted: int) {
    match spec
    case Decoded(value, more) => err.None? && v == value && rest == more && counted == |s| - |more|
    case Failed(e, left, k) => err == Some(e) && v == VNil && rest == left && counted == |s| - |left| - k
  }

  method ReadReplyBulk<D>(r: Reader, body: Bytes, verbatim: bool) returns (v: Value<D>, err: Option<ReadError>)
    requires r.Valid()
    modifies r
    ensures r.Valid() && |r.input| <= |old(r.input)|
    ensures Reads(DecodeBulk<D>(body, old(r.input), verbatim), old(r.input), v, err, r.input, r.n - old(r.n))
  {
    hide AtoiOf;
    var parsed := AtoiOf(body);
    if parsed.None? || parsed.value < -1 || parsed.value > MAX_BULK_LEN { return VNil, Some(InvalidBulk); }
    var n := parsed.value;
    if n < 0 { return VNil, None; }
    var buf, whole := r.ReadFull(n + 2);
    if !whole { return VNil, Some(ShortRead(buf)); }
    r.n := r.n + |buf|;
    var payload := buf[..n];
    assert payload == old(r.input)[..n];
    if verbatim && |payload| >= 4 && payload[3] == COLON { payload := payload[4..]; }
    return VText(payload), None;
  }

  method ReadReplyArray<D>(r: Reader, body: Bytes, depth: nat, fl: Floats<D>)
    returns (v: Value<D>, err: Option<ReadError>)
    requires r.Valid()
    modifies r
    ensures r.Valid() && |r.input| <= |old(r.input)|
    ensures Reads(ArrayFrom(body, old(r.input), depth, fl), old(r.input), v, err, r.input, r.n - old(r.n))
    decreases |r.input|, 1
  {
    hide DecodeItems, Decode, AtoiOf, ItemsWalk;
    var parsed := AtoiOf(body);
    if parsed.None? || parsed.value < -1 || parsed.value > MAX_MULTIBULK { return VNil, Some(InvalidMultibulk); }
    var n := parsed.value;
    if n < 0 { return VNil, None; }
    var out: seq<Value<D>> := [];
    ItemsWalkStart(r.input, n, depth + 1, fl);
    for i := 0 to n
      invariant r.Valid() && |out| == i && |r.input| <= |old(r.input)|
      invariant ItemsWalk(old(r.input), n, depth + 1, fl, out, r.input)
      invariant r.n == old(r.n) + |old(r.input)| - |r.input|
    {
      ItemsWalkStep(old(r.input), n, depth + 1, fl, out, r.input);
      var item, failed := ReadReply(r, depth + 1, fl);
      if failed.Some? { return VNil, failed; }
      out := out + [item];
    }
    ItemsWalkEnd(old(r.input), n, depth + 1, fl, out, r.input);
    return VArray(out), None;
  }

  /** The pairs behind a map or attribute header, keyed by their rendered keys. */
  method ReadReplyMap<D>(r: Reader, body: Bytes, depth: nat, fl: Floats<D>)
    returns (v: Value<D>, err: Option<ReadError>)
    requires r.Valid()
    modifies r
    ensures r.Valid() && |r.input| <= |old(r.input)|
    ensures Reads(MapFrom(body, old(r.input), depth, fl), old(r.input), v, err, r.input, r.n - old(r.n))
    decreases |r.input|, 1
  {
    hide DecodeItems, Decode, AtoiOf, ItemsWalk, KeyText;
    var parsed := AtoiOf(body);
    if parsed.None? || parsed.value < 0 || parsed.value > MAX_MULTIBULK { return VNil, Some(InvalidMultibulk); }
    var n := parsed.value;
    var out: map<Bytes, Value<D>> := map[];
    ghost var done: seq<Value<D>> := [];
    ItemsWalkStart(r.input, 2 * n, depth + 1, fl);
    for i := 0 to n
      invariant r.Valid() && |done| == 2 * i && |r.input| <= |old(r.input)|
      invariant ItemsWalk(old(r.input), 2 * n, depth + 1, fl, done, r.input)
      invariant r.n == old(r.n) + |old(r.input)| - |r.input|
      invariant out == MapOf(done, fl)
    {
      ItemsWalkStep(old(r.input), 2 * n, depth + 1, fl, done, r.input);
      var key, noKey := ReadReply(r, depth + 1, fl);
      if noKey.Some? { return VNil, noKey; }
      ItemsWalkStep(old(r.input), 2 * n, depth + 1, fl, done + [key], r.input);
      var value, noValue := ReadReply(r, depth + 1, fl);
      if noValue.Some? { return VNil, noValue; }
      MapOfAppend(done, key, value, fl);
      done := done + [key] + [value];
      out := out[KeyText(key, fl) := value];
    }
    ItemsWalkEnd(old(r.input), 2 * n, depth + 1, fl, done, r.input);
    return VMap(out), None;
  }

  lemma MapOfAppend<D>(values: seq<Value<D>>, key: Value<D>, value: Value<D>, fl: Floats<D>)
    ensures MapOf(values + [key] + [value], fl) == MapOf(values, fl)[KeyText(key, fl) := value]
  {
    hide KeyText;
    var all := values + [key] + [value];
    assert all[..|all| - 2] == values;
  }

  /** A walk over n items of s that has decoded done and stands before rest. */
  ghost predicate ItemsWalk<D>(s: Bytes, n: nat, depth: nat, fl: Floats<D>, done: seq<Value<D>>, rest: Bytes) {
    && |done| <= n
    && DecodeItems(s, n, depth, fl)
       == match DecodeItems(rest, n - |done|, depth, fl)
          case FailedItems(e, left, k) => FailedItems(e, left, k)
          case DecodedItems(values, more) => DecodedItems(done + values, more)
  }

  lemma ItemsWalkStart<D>(s: Bytes, n: nat, depth: nat, fl: Floats<D>)
    ensures ItemsWalk(s, n, depth, fl, [], s)
  {
    hide DecodeItems;
    var r := DecodeItems(s, n, depth, fl);
    if r.DecodedItems? { assert [] + r.values == r.values; }
  }

  lemma ItemsWalkStep<D>(s: Bytes, n: nat, depth: nat, fl: Floats<D>, done: seq<Value<D>>, rest: Bytes)
    requires |done| < n && ItemsWalk(s, n, depth, fl, done, rest)
    ensures match Decode(rest, depth, fl)
            case Failed(e, left, k) => DecodeItems(s, n, depth, fl) == FailedItems(e, left, k)
            case Decoded(v, more) => ItemsWalk(s, n, depth, fl, done + [v], more)
  {
    hide Decode;
    match Decode(rest, depth, fl)
    case Failed(_, _, _) =>
    case Decoded(v, more) =>
      var tail := DecodeItems(more, n - |done| - 1, depth, fl);
      if tail.DecodedItems? { assert done + ([v] + tail.values) == done + [v] + tail.values; }
  }

  lemma ItemsWalkEnd<D>(s: Bytes, n: nat, depth: nat, fl: Floats<D>, done: seq<Value<D>>, rest: Bytes)
    requires |done| == n && ItemsWalk(s, n, depth, fl, done, rest)
    ensures DecodeItems(s, n, depth, fl) == DecodedItems(done, rest)
  {
    hide Decode;
    assert done + [] == done;
  }

  function ArrayFrom<D>(body: Bytes, rest: Bytes, depth: nat, fl: Floats<D>): Decoded<D> {
    match CountWithin(body, -1)
    case None => Failed(InvalidMultibulk, rest, 0)
    case Some(n) => if n < 0 then Decoded(VNil, rest) else AsArray(DecodeItems(rest, n, depth + 1, fl))
  }

  function MapFrom<D>(body: Bytes, rest: Bytes, depth: nat, fl: Floats<D>): Decoded<D> {
    match CountWithin(body, 0)
    case None => Failed(InvalidMultibulk, rest, 0)
    case Some(n) =>
      match DecodeItems(rest, 2 * n, depth + 1, fl)
      case FailedItems(e, left, k) => Failed(e, left, k)
      case DecodedItems(values, more) => Decoded(VMap(MapOf(values, fl)), more)
  }
}
