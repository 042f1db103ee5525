/** The reply writer of a connection: its buffer, the switch that discards replies, the frames
    exempt from it, and the bytes each kind of reply puts on the wire. */
module RespWriter {
  import opened Bytes
  import opened Decimal
  import opened RespGrammar
  import opened RespReader
  import opened CommandCodec

  const UNDERSCORE: byte := 95  // '_'
  const HASH: byte := 35        // '#'
  const PAREN: byte := 40       // '('
  const EQUALS: byte := 61      // '='
  const PERCENT: byte := 37     // '%'
  const TILDE: byte := 126      // '~'
  const BAR: byte := 124        // '|'

  function TextLine(mark: byte, text: Bytes): Bytes { [mark] + text + CRLF }

  function NullBytes(resp3: bool): Bytes {
    if resp3 then [UNDERSCORE] + CRLF else Header(DOLLAR, -1)
  }

  function NullArrayBytes(resp3: bool): Bytes {
    if resp3 then [UNDERSCORE] + CRLF else Header(STAR, -1)
  }

  function BoolBytes(resp3: bool, b: bool): Bytes {
    if resp3 then [HASH, if b then 116 else 102] + CRLF else Header(COLON, if b then 1 else 0)
  }

  /** A double or a big number: tagged text in RESP3, the same text as a bulk string in RESP2. */
  function TaggedBytes(resp3: bool, mark: byte, text: Bytes): Bytes {
    if resp3 then TextLine(mark, text) else EncodeBulk(text)
  }

  function VerbatimBytes(resp3: bool, format: Bytes, payload: Bytes): Bytes {
    if resp3 then Header(EQUALS, |format| + 1 + |payload|) + format + [COLON] + payload + CRLF
    else EncodeBulk(payload)
  }

  /** A command argument as the writers take it: nil is not the empty string. */
  type Argument = Option<Bytes>

  function ArgumentBytes(resp3: bool, a: Argument): Bytes {
    if a.Some? then EncodeBulk(a.value) else NullBytes(resp3)
  }

  function ArgumentsBytes(resp3: bool, args: seq<Argument>): Bytes {
    if args == [] then [] else ArgumentBytes(resp3, args[0]) + ArgumentsBytes(resp3, args[1..])
  }

  /** The wire form of a command that may carry nil arguments. */
  function CommandBytes(resp3: bool, args: seq<Argument>): Bytes {
    Header(STAR, |args|) + ArgumentsBytes(resp3, args)
  }

  function Kept(toOut: bool, b: Bytes): Bytes { if toOut then b else [] }

  class Writer {
    var resp3: bool
    var buf: Bytes        // what the buffered writer holds
    var toOut: bool       // whether the buffer drains to the connection or to the void
    var out: Bytes        // every byte the connection has been given
    var suppressed: bool
    var pushDepth: nat
    var errs: nat

    /** What the peer will have received once the buffer drains. */
    ghost function Sent(): Bytes
      reads this
    {
      if toOut then out + buf else out
    }

    /** The peer has been sent before and then b, unless what is written now is discarded. */
    ghost predicate Wrote(before: Bytes, b: Bytes)
      reads this
    {
      Sent() == before + Kept(toOut, b)
    }

    constructor ()
      ensures !resp3 && buf == [] && toOut && out == [] && !suppressed && pushDepth == 0 && errs == 0
    {
      resp3, buf, toOut, out, suppressed, pushDepth, errs := false, [], true, [], false, 0, 0;
    }

    /** Every byte goes through the buffer, which may drain any part of itself at any time. */
    method Put(b: Bytes)
      modifies this`buf, this`out
      ensures Wrote(old(Sent()), b)
    {
      buf := buf + b;
      var k: nat :| k <= |buf|;
      if toOut { out := out + buf[..k]; }
      buf := buf[k..];
    }

    method Flush()
      modifies this`buf, this`out
      ensures Sent() == old(Sent()) && buf == [] && out == old(Sent())
    {
      if toOut { out := out + buf; }
      buf := [];
    }

    /** The buffer is emptied and pointed elsewhere. */
    method Redirect(toOut: bool)
      modifies this`buf, this`toOut
      ensures buf == [] && this.toOut == toOut
    {
      buf := [];
      this.toOut := toOut;
    }

    method Suppress()
      modifies this`buf, this`toOut, this`suppressed
      ensures suppressed
      ensures old(suppressed) ==> unchanged(this)
      ensures !old(suppressed) ==> !toOut && buf == []
    {
      if suppressed { return; }
      suppressed := true;
      Redirect(false);
    }

    method Resume()
      modifies this`buf, this`toOut, this`suppressed
      ensures !suppressed
      ensures !old(suppressed) ==> unchanged(this)
      ensures old(suppressed) ==> toOut && buf == []
    {
      if !suppressed { return; }
      suppressed := false;
      Redirect(true);
    }

    /** An out-of-band frame begins; it is delivered even while replies are suppressed. */
    method BeginPush()
      modifies this`buf, this`toOut, this`pushDepth
      ensures pushDepth == old(pushDepth) + 1
      ensures if old(pushDepth) == 0 && suppressed then toOut && buf == []
              else buf == old(buf) && toOut == old(toOut)
    {
      pushDepth := pushDepth + 1;
      if pushDepth == 1 && suppressed { Redirect(true); }
    }

    /** The frame ends; the outermost one leaves before the buffer goes back to the void. */
    method EndPush()
      modifies this`buf, this`out, this`toOut, this`pushDepth
      ensures pushDepth == if old(pushDepth) == 0 then 0 else old(pushDepth) - 1
      ensures if old(pushDepth) == 1 && suppressed then !toOut && buf == [] && out == old(Sent())
              else buf == old(buf) && toOut == old(toOut) && out == old(out)
    {
      if pushDepth == 0 { return; }
      pushDepth := pushDepth - 1;
      if pushDepth == 0 && suppressed {
        Flush();
        Redirect(false);
      }
    }

    method WriteSimple(text: Bytes)
      modifies this`buf, this`out
      ensures Wrote(old(Sent()), TextLine(PLUS, text))
    {
      Put([PLUS] + text + CRLF);
    }

    method WriteError(text: Bytes)
      modifies this`buf, this`out, this`errs
      ensures Wrote(old(Sent()), TextLine(MINUS, text)) && errs == old(errs) + 1
    {
      errs := errs + 1;
      Put([MINUS] + text + CRLF);
    }

    method WriteLen(mark: byte, n: int)
      modifies this`buf, this`out
      ensures Wrote(old(Sent()), Header(mark, n))
    {
      Put([mark] + Itoa(n) + CRLF);
    }

    method WriteInt(n: int)
      modifies this`buf, this`out
      ensures Wrote(old(Sent()), Header(COLON, n))
    {
      WriteLen(COLON, n);
    }

    method WriteNull()
      modifies this`buf, this`out
      ensures Wrote(old(Sent()), NullBytes(resp3))
    {
      if resp3 { Put([UNDERSCORE] + CRLF); } else { WriteLen(DOLLAR, -1); }
    }

    method WriteNullArray()
      modifies this`buf, this`out
      ensures Wrote(old(Sent()), NullArrayBytes(resp3))
    {
      if resp3 { Put([UNDERSCORE] + CRLF); } else { WriteLen(STAR, -1); }
    }

    method WriteBulkString(s: Bytes)
      modifies this`buf, this`out
      ensures Wrote(old(Sent()), EncodeBulk(s))
    {
      Put(Header(DOLLAR, |s|) + s + CRLF);
    }

    method WriteBulk(a: Argument)
      modifies this`buf, this`out
      ensures Wrote(old(Sent()), ArgumentBytes(resp3, a))
    {
      if a.None? { WriteNull(); } else { WriteBulkString(a.value); }
    }

    method WriteBool(b: bool)
      modifies this`buf, this`out
      ensures Wrote(old(Sent()), BoolBytes(resp3, b))
    {
      if !resp3 {
        if b { WriteInt(1); } else { WriteInt(0); }
        return;
      }
      if b { Put([HASH, 116] + CRLF); } else { Put([HASH, 102] + CRLF); }
    }

    method WriteTagged(mark: byte, text: Bytes)
      modifies this`buf, this`out
      ensures Wrote(old(Sent()), TaggedBytes(resp3, mark, text))
    {
      if !resp3 { WriteBulkString(text); return; }
      Put([mark] + text + CRLF);
    }

    method WriteVerbatim(format: Bytes, payload: Bytes)
      modifies this`buf, this`out
      ensures Wrote(old(Sent()), VerbatimBytes(resp3, format, payload))
    {
      if !resp3 { WriteBulkString(payload); return; }
      Put(Header(EQUALS, |format| + 1 + |payload|) + format + [COLON] + payload + CRLF);
    }

    method WriteCommand(args: seq<Argument>)
      modifies this`buf, this`out
      ensures Wrote(old(Sent()), CommandBytes(resp3, args))
    {
      hide Header, ArgumentBytes, Kept, Wrote;
      WriteLen(STAR, |args|);
      assert Header(STAR, |args|) + ArgumentsBytes(resp3, args[..0]) == Header(STAR, |args|);
      for i := 0 to |args|
        invariant Wrote(old(Sent()), Header(STAR, |args|) + ArgumentsBytes(resp3, args[..i]))
      {
        ghost var so := Header(STAR, |args|) + ArgumentsBytes(resp3, args[..i]);
        SentIs(old(Sent()), so);
        WriteBulk(args[i]);
        WroteMore(old(Sent()), so, ArgumentBytes(resp3, args[i]));
        ArgumentsBytesAppend(resp3, args[..i], args[i]);
        assert args[..i + 1] == args[..i] + [args[i]];
        assert so + ArgumentBytes(resp3, args[i]) == Header(STAR, |args|) + ArgumentsBytes(resp3, args[..i + 1]);
      }
      assert args[..|args|] == args;
    }

    lemma SentIs(before: Bytes, b: Bytes)
      requires Wrote(before, b)
      ensures Sent() == before + Kept(toOut, b)
    {
    }

    /** Two writes in a row are one write of both. */
    lemma WroteMore(before: Bytes, a: Bytes, b: Bytes)
      requires Wrote(before + Kept(toOut, a), b)
      ensures Wrote(before, a + b)
    {
    }
  }

  lemma {:induction false} ArgumentsBytesAppend(resp3: bool, args: seq<Argument>, a: Argument)
    ensures ArgumentsBytes(resp3, args + [a]) == ArgumentsBytes(resp3, args) + ArgumentBytes(resp3, a)
    decreases |args|
  {
    hide ArgumentBytes;
    if args == [] {
      assert (args + [a])[1..] == [];
    } else {
      assert (args + [a])[1..] == args[1..] + [a];
      ArgumentsBytesAppend(resp3, args[1..], a);
    }
  }

  // ---- nil arguments: where the two encoders part -------------------------------------

  /** The arguments as the other encoder and the size formula see them: nil is empty. */
  function Plain(args: seq<Argument>): (r: Command)
    ensures |r| == |args|
  {
    if args == [] then []
    else [if args[0].Some? then args[0].value else []] + Plain(args[1..])
  }

  lemma {:induction false} NilShortens(resp3: bool, args: seq<Argument>)
    ensures None !in args ==> ArgumentsBytes(resp3, args) == EncodeBulks(Plain(args))
    ensures None in args ==> |ArgumentsBytes(resp3, args)| < |EncodeBulks(Plain(args))|
    decreases |args|
  {
    hide EncodeBulk;
    if args != [] {
      NilShortens(resp3, args[1..]);
      assert Plain(args)[1..] == Plain(args[1..]);
      assert None in args <==> args[0].None? || None in args[1..];
      if args[0].None? { NilIsShorter(resp3); }
    }
  }

  lemma NilIsShorter(resp3: bool)
    ensures |NullBytes(resp3)| < |EncodeBulk([])|
  {
    assert Itoa(0) == [ZERO] && Digits(1) == [ZERO + 1];
  }

  /** The connection writer and the backlog's encoder produce the same bytes for a command
      exactly when it has no nil argument. */
  lemma EncodersAgree(resp3: bool, args: seq<Argument>)
    ensures CommandBytes(resp3, args) == EncodeCommand(Plain(args)) <==> None !in args
  {
    hide EncodeBulks, ArgumentsBytes, Header;
    NilShortens(resp3, args);
  }

  predicate ArgumentsFit(args: seq<Argument>) {
    forall i :: 0 <= i < |args| && args[i].Some? ==> |args[i].value| <= MAX_BULK_LEN
  }

  lemma NullHeaderRejected(tail: Bytes)
    ensures ReadBulk(NullBytes(false) + tail).NoBulk?
    ensures ReadBulk(NullBytes(false) + tail).rejected.result == Err(InvalidBulk)
  {
    hide NextLine, CountOf, Itoa;
    var h := [DOLLAR] + Itoa(-1);
    HeaderText(DOLLAR, -1);
    ItoaRoundTrip(-1);
    NextLineOfText(h, tail);
    assert NullBytes(false) + tail == h + CRLF + tail;
  }

  lemma {:induction false} NilStopsBulks(args: seq<Argument>, tail: Bytes)
    requires ArgumentsFit(args) && None in args
    ensures ReadBulks(ArgumentsBytes(false, args) + tail, |args|).result == Err(InvalidBulk)
    decreases |args|
  {
    hide ReadBulk, EncodeBulk, NullBytes;
    var rest := ArgumentsBytes(false, args[1..]) + tail;
    assert ArgumentsBytes(false, args) + tail == ArgumentBytes(false, args[0]) + rest;
    if args[0].None? {
      NullHeaderRejected(rest);
    } else {
      ReadBulkOfEncoded(args[0].value, rest);
      NilStopsBulks(args[1..], tail);
    }
  }

  /** A logged command is read back with its arguments exactly when none of them was nil; one
      that carries a nil is refused as malformed, which ends a replay. */
  lemma LoggedCommandReadBack(args: seq<Argument>, tail: Bytes, split: Splitter)
    requires 0 < |args| <= MAX_MULTIBULK && ArgumentsFit(args)
    ensures var p := ReadCommand(CommandBytes(false, args) + tail, split);
            if None !in args then p == Parsed(Ok(Plain(args)), tail, |CommandBytes(false, args)|)
            else p.result == Err(InvalidBulk)
  {
    hide ReadCommand, EncodeCommand, CommandBytes;
    if None !in args {
      EncodersAgree(false, args);
      PlainFits(args);
      CommandRoundTrip(Plain(args), tail, split);
    } else {
      NilStopsCommand(args, tail, split);
    }
  }

  lemma {:induction false} PlainFits(args: seq<Argument>)
    requires ArgumentsFit(args)
    ensures forall i :: 0 <= i < |args| ==> |Plain(args)[i]| <= MAX_BULK_LEN
    decreases |args|
  {
    if args != [] { PlainFits(args[1..]); }
  }

  lemma NilStopsCommand(args: seq<Argument>, tail: Bytes, split: Splitter)
    requires 0 < |args| <= MAX_MULTIBULK && ArgumentsFit(args) && None in args
    ensures ReadCommand(CommandBytes(false, args) + tail, split).result == Err(InvalidBulk)
  {
    hide NextLine, Itoa, CountOf, ReadBulks, ArgumentsBytes;
    var h := [STAR] + Itoa(|args|);
    var body := ArgumentsBytes(false, args) + tail;
    CountOfHeader(|args|);
    assert CommandBytes(false, args) + tail == h + CRLF + body;
    NextLineOfText(h, body);
    NilStopsBulks(args, tail);
    assert ReadStep(CommandBytes(false, args) + tail, split) == Done(Prefixed([], |h| + 2, ReadBulks(body, |args|)));
  }
}
