/** Commands as bytes: the encoding shared by the append-only file, the replication stream and
    the node-to-node connections, and what the request grammar makes of it, whole or cut off. */
module CommandCodec {
  import opened Bytes
  import opened Decimal
  import opened RespGrammar
  import opened RespReader

  function Header(mark: byte, n: int): Bytes { [mark] + Itoa(n) + CRLF }

  function EncodeBulk(a: Bytes): Bytes { Header(DOLLAR, |a|) + a + CRLF }

  function EncodeBulks(args: Command): Bytes {
    if args == [] then [] else EncodeBulk(args[0]) + EncodeBulks(args[1..])
  }

  /** A command as a RESP array of bulk strings. */
  function EncodeCommand(args: Command): Bytes { Header(STAR, |args|) + EncodeBulks(args) }

  function EncodeAll(cmds: seq<Command>): Bytes {
    if cmds == [] then [] else EncodeCommand(cmds[0]) + EncodeAll(cmds[1..])
  }

  /** A non-empty command within the protocol's limits. */
  predicate Sendable(args: Command) {
    0 < |args| <= MAX_MULTIBULK && forall i :: 0 <= i < |args| ==> |args[i]| <= MAX_BULK_LEN
  }

  predicate AllSendable(cmds: seq<Command>) {
    forall i :: 0 <= i < |cmds| ==> Sendable(cmds[i])
  }

  // ---- one line -----------------------------------------------------------------------

  lemma NextLineOfText(text: Bytes, rest: Bytes)
    requires LineSafe(text)
    ensures NextLine(text + CRLF + rest) == Line(text, rest)
  {
    hide TrimCRLF;
    var s := text + CRLF + rest;
    IndexOfIs(s, LF, |text| + 1);
    assert s[..|text| + 2] == text + CRLF;
    assert s[|text| + 2..] == rest;
    TrimOfSafeLine(text);
  }

  lemma NoLineInCutText(text: Bytes, cut: Bytes)
    requires LineSafe(text) && cut < text + CRLF
    ensures NextLine(cut).NoLine?
  {
    hide TrimCRLF;
    assert forall j :: 0 <= j < |cut| ==> cut[j] == (text + CRLF)[j];
  }

  lemma HeaderText(mark: byte, n: int)
    requires mark != LF && mark != CR
    ensures LineSafe([mark] + Itoa(n)) && ([mark] + Itoa(n))[1..] == Itoa(n)
  {
    hide Itoa;
    ItoaRoundTrip(n);
    var t := [mark] + Itoa(n);
    assert t[|t| - 1] == Itoa(n)[|Itoa(n)| - 1];
  }

  // ---- one element --------------------------------------------------------------------

  lemma BulkHeaderOfEncoded(a: Bytes)
    requires |a| <= MAX_BULK_LEN
    ensures BulkHeader([DOLLAR] + Itoa(|a|)) == Ok(|a|)
  {
    hide Itoa, CountOf;
    HeaderText(DOLLAR, |a|);
    ItoaRoundTrip(|a|);
  }

  lemma ReadBulkOfEncoded(a: Bytes, tail: Bytes)
    requires |a| <= MAX_BULK_LEN
    ensures ReadBulk(EncodeBulk(a) + tail) == Bulk(a, tail)
  {
    hide NextLine, Itoa, BulkHeader;
    var h := [DOLLAR] + Itoa(|a|);
    HeaderText(DOLLAR, |a|);
    assert EncodeBulk(a) + tail == h + CRLF + (a + CRLF + tail);
    NextLineOfText(h, a + CRLF + tail);
    BulkHeaderOfEncoded(a);
    assert (a + CRLF + tail)[..|a|] == a;
    assert (a + CRLF + tail)[|a| + 2..] == tail;
  }

  predicate EndOfInput(r: Result<Command>) { r == Err(EOF) || r == Err(UnexpectedEOF) }

  /** A cut of an element behind at least one byte of its payload. */
  predicate CutInPayload(a: Bytes, size: nat) { |Header(DOLLAR, |a|)| < size < |EncodeBulk(a)| }

  predicate CutInSomePayload(args: Command, size: nat) {
    args != [] &&
      if size < |EncodeBulk(args[0])| then CutInPayload(args[0], size)
      else CutInSomePayload(args[1..], size - |EncodeBulk(args[0])|)
  }

  /** How a command cut off after some bytes ends the read: with a bare end of input, unless the cut
      is inside an argument. */
  function CutError(args: Command, size: nat): ReadError {
    if size >= |Header(STAR, |args|)| && CutInSomePayload(args, size - |Header(STAR, |args|)|)
    then UnexpectedEOF else EOF
  }

  /** An element cut off anywhere ends the read as an end of input. */
  lemma ReadBulkOfCut(a: Bytes, cut: Bytes)
    requires |a| <= MAX_BULK_LEN && cut < EncodeBulk(a)
    ensures ReadBulk(cut).NoBulk?
    ensures ReadBulk(cut).rejected.result == Err(if CutInPayload(a, |cut|) then UnexpectedEOF else EOF)
  {
    hide NextLine, Itoa, BulkHeader;
    var h := [DOLLAR] + Itoa(|a|);
    HeaderText(DOLLAR, |a|);
    assert EncodeBulk(a) == h + CRLF + (a + CRLF);
    if |cut| < |h| + 2 {
      assert cut == (h + CRLF)[..|cut|];
      NoLineInCutText(h, cut);
    } else {
      var after := cut[|h| + 2..];
      assert cut == h + CRLF + after;
      NextLineOfText(h, after);
      BulkHeaderOfEncoded(a);
    }
  }

  // ---- all elements -------------------------------------------------------------------

  lemma {:induction false} ReadBulksOfEncoded(args: Command, tail: Bytes)
    requires forall i :: 0 <= i < |args| ==> |args[i]| <= MAX_BULK_LEN
    ensures ReadBulks(EncodeBulks(args) + tail, |args|) == Parsed(Ok(args), tail, |EncodeBulks(args)|)
    decreases |args|
  {
    hide ReadBulk, EncodeBulk;
    if args == [] {
      assert EncodeBulks(args) + tail == tail;
    } else {
      var rest := EncodeBulks(args[1..]) + tail;
      assert EncodeBulks(args) + tail == EncodeBulk(args[0]) + rest;
      ReadBulkOfEncoded(args[0], rest);
      ReadBulksOfEncoded(args[1..], tail);
      assert [args[0]] + args[1..] == args;
    }
  }

  lemma {:induction false} ReadBulksOfCut(args: Command, cut: Bytes)
    requires forall i :: 0 <= i < |args| ==> |args[i]| <= MAX_BULK_LEN
    requires cut < EncodeBulks(args)
    ensures ReadBulks(cut, |args|).result == Err(if CutInSomePayload(args, |cut|) then UnexpectedEOF else EOF)
    decreases |args|
  {
    hide ReadBulk, EncodeBulk, CutInPayload;
    var first := EncodeBulk(args[0]);
    if |cut| < |first| {
      assert cut == first[..|cut|];
      ReadBulkOfCut(args[0], cut);
    } else {
      var rest := cut[|first|..];
      assert cut == first + rest;
      ReadBulkOfEncoded(args[0], rest);
      ReadBulksOfCut(args[1..], rest);
    }
  }

  // ---- a command ----------------------------------------------------------------------

  lemma CountOfHeader(n: nat)
    requires n <= MAX_MULTIBULK
    ensures LineSafe([STAR] + Itoa(n)) && CountOf(([STAR] + Itoa(n))[1..]) == Some(n)
  {
    hide Itoa, CountOf;
    HeaderText(STAR, n);
    ItoaRoundTrip(n);
  }

  /** Reading back an encoded command recovers its arguments, leaves exactly what followed it
      and counts exactly its bytes. */
  lemma CommandRoundTrip(args: Command, tail: Bytes, split: Splitter)
    requires Sendable(args)
    ensures ReadCommand(EncodeCommand(args) + tail, split) == Parsed(Ok(args), tail, |EncodeCommand(args)|)
  {
    hide NextLine, Itoa, CountOf, ReadBulks, EncodeBulks;
    var h := [STAR] + Itoa(|args|);
    var body := EncodeBulks(args) + tail;
    CountOfHeader(|args|);
    assert EncodeCommand(args) + tail == h + CRLF + body;
    NextLineOfText(h, body);
    ReadBulksOfEncoded(args, tail);
    PrefixedNone(|h| + 2, ReadBulks(body, |args|));
    assert ReadStep(EncodeCommand(args) + tail, split) == Done(Prefixed([], |h| + 2, ReadBulks(body, |args|)));
  }

  lemma CutHeaderEnds(n: nat, cut: Bytes, split: Splitter)
    requires cut < Header(STAR, n)
    ensures ReadCommand(cut, split).result == Err(EOF)
  {
    hide NextLine, Itoa, CountOf, ReadBulks;
    var h := [STAR] + Itoa(n);
    HeaderText(STAR, n);
    assert cut == (h + CRLF)[..|cut|];
    NoLineInCutText(h, cut);
  }

  lemma BodyDecides(args: Command, after: Bytes, split: Splitter)
    requires Sendable(args) && ReadBulks(after, |args|).result.Err?
    ensures ReadCommand(Header(STAR, |args|) + after, split).result == ReadBulks(after, |args|).result
  {
    hide NextLine, Itoa, CountOf, ReadBulks;
    var h := [STAR] + Itoa(|args|);
    CountOfHeader(|args|);
    assert Header(STAR, |args|) + after == h + CRLF + after;
    NextLineOfText(h, after);
    assert ReadStep(h + CRLF + after, split) == Done(Prefixed([], |h| + 2, ReadBulks(after, |args|)));
  }

  /** A command cut off anywhere is reported as the end of the input, never as a command. */
  lemma CutCommandEndsInput(args: Command, cut: Bytes, split: Splitter)
    requires Sendable(args) && cut < EncodeCommand(args)
    ensures ReadCommand(cut, split).result == Err(CutError(args, |cut|))
    ensures EndOfInput(ReadCommand(cut, split).result)
  {
    hide Header, ReadCommand, ReadBulks, EncodeBulks, CutInSomePayload;
    var head := Header(STAR, |args|);
    if |cut| < |head| {
      assert cut == head[..|cut|];
      CutHeaderEnds(|args|, cut, split);
    } else {
      var after := cut[|head|..];
      assert cut == head + after;
      ReadBulksOfCut(args, after);
      BodyDecides(args, after, split);
    }
  }

  // ---- a stream of commands -----------------------------------------------------------

  lemma {:induction false} EncodeAllAppend(a: seq<Command>, b: seq<Command>)
    ensures EncodeAll(a + b) == EncodeAll(a) + EncodeAll(b)
    decreases |a|
  {
    hide EncodeCommand;
    if a == [] {
      assert a + b == b;
    } else {
      assert (a + b)[1..] == a[1..] + b;
      EncodeAllAppend(a[1..], b);
    }
  }

  lemma EncodeOne(args: Command)
    ensures EncodeAll([args]) == EncodeCommand(args)
  {
    hide EncodeCommand;
    assert [args][1..] == [];
    assert EncodeCommand(args) + [] == EncodeCommand(args);
  }

  /** How many of the commands lie wholly within the first size bytes of their encoding. */
  function CompleteIn(cmds: seq<Command>, size: nat): (k: nat)
    ensures k <= |cmds|
  {
    if cmds == [] || |EncodeCommand(cmds[0])| > size then 0
    else 1 + CompleteIn(cmds[1..], size - |EncodeCommand(cmds[0])|)
  }

  /** CompleteIn is the largest number of commands whose encoding fits. */
  lemma {:induction false} CompleteInIsMaximal(cmds: seq<Command>, size: nat)
    ensures var k := CompleteIn(cmds, size);
            && |EncodeAll(cmds[..k])| <= size
            && (k < |cmds| ==> |EncodeAll(cmds[..k + 1])| > size)
    decreases |cmds|
  {
    hide EncodeCommand;
    if cmds != [] && |EncodeCommand(cmds[0])| <= size {
      var rest := cmds[1..];
      var k := CompleteIn(rest, size - |EncodeCommand(cmds[0])|);
      CompleteInIsMaximal(rest, size - |EncodeCommand(cmds[0])|);
      assert cmds[..k + 1][1..] == rest[..k];
      if k < |rest| { assert cmds[..k + 2][1..] == rest[..k + 1]; }
    } else if cmds != [] {
      assert cmds[..1][1..] == [];
    }
  }

  /** Replaying any byte prefix of a log of commands yields exactly the commands whose frames
      are complete in that prefix. */
  lemma {:induction false} ReplayOfPrefix(cmds: seq<Command>, cut: Bytes, split: Splitter)
    requires AllSendable(cmds) && cut <= EncodeAll(cmds)
    ensures ReadAll(cut, split) == cmds[..CompleteIn(cmds, |cut|)]
    decreases |cmds|
  {
    hide ReadCommand, EncodeCommand;
    if cmds == [] || |cut| < |EncodeCommand(cmds[0])| {
      if cmds == [] {
        ReadCommandOfNothing(split);
      } else {
        assert cut == EncodeCommand(cmds[0])[..|cut|];
        CutCommandEndsInput(cmds[0], cut, split);
      }
    } else {
      var first := EncodeCommand(cmds[0]);
      var rest := cut[|first|..];
      assert cut == first + rest;
      CommandRoundTrip(cmds[0], rest, split);
      ReplayOfPrefix(cmds[1..], rest, split);
      var k := CompleteIn(cmds[1..], |rest|);
      assert cmds[..k + 1] == [cmds[0]] + cmds[1..][..k];
    }
  }

  lemma ReadCommandOfNothing(split: Splitter)
    ensures ReadCommand([], split) == Parsed(Err(EOF), [], 0)
  {
  }

  lemma ReplayOfWhole(cmds: seq<Command>, split: Splitter)
    requires AllSendable(cmds)
    ensures ReadAll(EncodeAll(cmds), split) == cmds
  {
    hide ReadAll, CompleteIn;
    ReplayOfPrefix(cmds, EncodeAll(cmds), split);
    CompleteInIsMaximal(cmds, |EncodeAll(cmds)|);
    var k := CompleteIn(cmds, |EncodeAll(cmds)|);
    if k < |cmds| {
      assert cmds == cmds[..k + 1] + cmds[k + 1..];
      EncodeAllAppend(cmds[..k + 1], cmds[k + 1..]);
    }
    assert cmds[..|cmds|] == cmds;
  }

  // ---- the encoders in the source -----------------------------------------------------

  /** The size formula, kept apart from the encoder on purpose. */
  method CommandSize(args: Command) returns (n: nat)
    ensures n == |EncodeCommand(args)|
  {
    hide Itoa;
    n := 1 + |Itoa(|args|)| + 2;
    for i := 0 to |args|
      invariant n == |Header(STAR, |args|)| + |EncodeBulks(args[..i])|
    {
      EncodeBulksAppend(args[..i], args[i]);
      assert args[..i + 1] == args[..i] + [args[i]];
      n := n + 1 + |Itoa(|args[i]|)| + 2 + |args[i]| + 2;
    }
    assert args[..|args|] == args;
  }

  /** The backlog's encoder: one buffer, grown piece by piece. */
  method EncodeCommandBytes(args: Command) returns (buf: Bytes)
    ensures buf == EncodeCommand(args)
  {
    hide Itoa;
    buf := [STAR];
    buf := buf + Itoa(|args|);
    buf := buf + [CR, LF];
    ghost var head := Header(STAR, |args|);
    assert head + EncodeBulks(args[..0]) == head;
    assert buf == head;
    hide EncodeBulks, EncodeBulk, Header;
    for i := 0 to |args|
      invariant buf == head + EncodeBulks(args[..i])
    {
      OneMoreBulk(buf, args[i]);
      buf := buf + [DOLLAR];
      buf := buf + Itoa(|args[i]|);
      buf := buf + [CR, LF];
      buf := buf + args[i];
      buf := buf + [CR, LF];
      EncodeBulksAppend(args[..i], args[i]);
      assert args[..i + 1] == args[..i] + [args[i]];
    }
    assert args[..|args|] == args;
  }

  lemma OneMoreBulk(buf: Bytes, a: Bytes)
    ensures buf + [DOLLAR] + Itoa(|a|) + [CR, LF] + a + [CR, LF] == buf + EncodeBulk(a)
  {
    hide Itoa;
  }

  lemma {:induction false} EncodeBulksAppend(args: Command, a: Bytes)
    ensures EncodeBulks(args + [a]) == EncodeBulks(args) + EncodeBulk(a)
    decreases |args|
  {
    hide EncodeBulk;
    if args == [] {
      assert (args + [a])[1..] == [];
    } else {
      assert (args + [a])[1..] == args[1..] + [a];
      EncodeBulksAppend(args[1..], a);
    }
  }
}
