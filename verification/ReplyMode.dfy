/** CLIENT REPLY: which replies of a connection are delivered, whatever is buffered, flushed or
    pushed in between. */
module ReplyMode {
  import opened Bytes
  import opened RespWriter

  /** What is written on a connection: part of the reply to the command that is running, a frame
      exempt from suppression, or a flush of the buffer. */
  datatype Write = Reply(b: Bytes) | Push(b: Bytes) | Flush

  /** One thing that happens on a connection. A command's handler writes in any pieces, with pushes
      and flushes among them; `Pump` is a write from outside the command loop. */
  datatype Event =
    | Command(writes: seq<Write>)
    | ReplyOn
    | ReplyOff
    | ReplySkip
    | Reset
    | Pump(write: Write)

  const OK: Bytes := [79, 75]
  const RESET: Bytes := [82, 69, 83, 69, 84]

  // ---- the specification: on, off, or skip the next command ----------------------------------

  datatype Mode = On | Off | SkipNext

  /** What a list of writes delivers: every push, and the reply if it is kept. */
  function Delivered(writes: seq<Write>, kept: bool): Bytes {
    if writes == [] then []
    else
      var last := writes[|writes| - 1];
      Delivered(writes[..|writes| - 1], kept) + Shown(last, kept)
  }

  function Shown(w: Write, kept: bool): Bytes {
    match w
    case Reply(b) => if kept then b else []
    case Push(b) => b
    case Flush => []
  }

  lemma DeliveredMore(before: Bytes, writes: seq<Write>, i: nat, kept: bool)
    requires i < |writes|
    ensures before + Delivered(writes[..i + 1], kept) == before + Delivered(writes[..i], kept) + Shown(writes[i], kept)
  {
    hide Shown;
    assert writes[..i + 1][..i] == writes[..i];
  }

  function After(m: Mode, e: Event): Mode {
    match e
    case Command(_) => if m == Off then Off else On
    case ReplyOn => On
    case Reset => On
    case ReplyOff => Off
    case ReplySkip => if m == Off then Off else SkipNext
    case Pump(_) => m
  }

  /** What the client receives of one event. A pump only ever pushes or flushes. */
  function Received(m: Mode, e: Event): Bytes {
    match e
    case Command(writes) => Delivered(writes, m == On)
    case ReplyOn => TextLine(PLUS, OK)
    case Reset => TextLine(PLUS, RESET)
    case ReplyOff => []
    case ReplySkip => []
    case Pump(w) => Shown(w, false)
  }

  function ModeAfter(events: seq<Event>): Mode {
    if events == [] then On else After(ModeAfter(events[..|events| - 1]), events[|events| - 1])
  }

  function AllReceived(events: seq<Event>): Bytes {
    if events == [] then []
    else
      var before := events[..|events| - 1];
      AllReceived(before) + Received(ModeAfter(before), events[|events| - 1])
  }

  /** A pump writes only frames exempt from suppression, and flushes. */
  predicate PumpsOnlyPush(events: seq<Event>) {
    forall i :: 0 <= i < |events| && events[i].Pump? ==> !events[i].write.Reply?
  }

  // ---- the connection --------------------------------------------------------------------------

  class Connection {
    const w: Writer
    var replyOff: bool
    var replySkipNext: bool
    var replySkipping: bool

    /** The state between two commands, and the mode it stands for. */
    ghost predicate Standing(m: Mode)
      reads this, w
    {
      && !replySkipNext
      && replyOff == (m == Off)
      && replySkipping == (m == SkipNext)
      && w.suppressed == (m != On)
      && w.toOut == (m == On)
      && w.pushDepth == 0
    }

    constructor (w: Writer)
      requires w.toOut && !w.suppressed && w.pushDepth == 0
      ensures this.w == w && Standing(On)
    {
      this.w, replyOff, replySkipNext, replySkipping := w, false, false, false;
    }

    /** One write of a handler or a pump. */
    method Emit(x: Write)
      requires w.pushDepth == 0 && w.toOut == !w.suppressed
      modifies w`buf, w`out, w`toOut, w`pushDepth
      ensures w.Sent() == old(w.Sent()) + Shown(x, !w.suppressed)
      ensures w.pushDepth == 0 && w.toOut == old(w.toOut)
    {
      match x {
        case Reply(b) => w.Put(b);
        case Push(b) =>
          w.BeginPush();
          w.Put(b);
          w.EndPush();
        case Flush => w.Flush();
      }
    }

    method Run(writes: seq<Write>)
      requires w.pushDepth == 0 && w.toOut == !w.suppressed
      modifies w`buf, w`out, w`toOut, w`pushDepth
      ensures w.Sent() == old(w.Sent()) + Delivered(writes, !w.suppressed)
      ensures w.pushDepth == 0 && w.toOut == old(w.toOut)
    {
      assert old(w.Sent()) + Delivered(writes[..0], !w.suppressed) == old(w.Sent());
      hide Delivered, Shown;
      for i := 0 to |writes|
        invariant w.pushDepth == 0 && w.toOut == old(w.toOut)
        invariant w.Sent() == old(w.Sent()) + Delivered(writes[..i], !w.suppressed)
      {
        DeliveredMore(old(w.Sent()), writes, i, !w.suppressed);
        Emit(writes[i]);
      }
      assert writes[..|writes|] == writes;
    }

    /** Replies again, whatever was asked before, and says so. */
    method SwitchOn(answer: Bytes, ghost m: Mode)
      requires Standing(m)
      modifies this, w`buf, w`out, w`toOut, w`suppressed
      ensures Standing(On) && w.Sent() == old(w.Sent()) + TextLine(PLUS, answer)
    {
      replyOff, replySkipNext, replySkipping := false, false, false;
      w.Resume();
      assert w.Sent() == old(w.Sent());
      w.WriteSimple(answer);
    }

    /** Ends the delivery of replies; what was promised before leaves first. */
    method Silence()
      requires w.toOut == !w.suppressed
      modifies w`buf, w`out, w`toOut, w`suppressed
      ensures w.suppressed && !w.toOut && w.Sent() == old(w.Sent())
    {
      w.Flush();
      w.Suppress();
    }

    method Advance()
      modifies this`replySkipNext, this`replySkipping, w`buf, w`toOut, w`suppressed
      ensures old(replySkipNext) ==> !replySkipNext && replySkipping && unchanged(w)
      ensures !old(replySkipNext) && !old(replySkipping) ==> unchanged(this) && unchanged(w)
      ensures !old(replySkipNext) && old(replySkipping) ==> !replySkipNext && !replySkipping
      ensures !old(replySkipNext) && old(replySkipping) && replyOff ==> unchanged(w)
      ensures !old(replySkipNext) && old(replySkipping) && !replyOff && old(w.suppressed) ==>
                !w.suppressed && w.toOut && w.buf == []
      ensures !old(replySkipNext) && old(replySkipping) && !replyOff && !old(w.suppressed) ==> unchanged(w)
    {
      if replySkipNext {
        replySkipNext, replySkipping := false, true;
      } else if replySkipping {
        replySkipping := false;
        if !replyOff { w.Resume(); }
      }
    }

    /** One event, with the step of the SKIP machine that follows every command. */
    method Handle(e: Event, ghost m: Mode)
      requires Standing(m) && (e.Pump? ==> !e.write.Reply?)
      modifies this, w`buf, w`out, w`toOut, w`suppressed, w`pushDepth
      ensures Standing(After(m, e))
      ensures w.Sent() == old(w.Sent()) + Received(m, e)
    {
      match e {
        case Command(writes) => Run(writes);
        case ReplyOn => SwitchOn(OK, m);
        case Reset => SwitchOn(RESET, m);
        case ReplyOff =>
          Silence();
          replyOff := true;
        case ReplySkip =>
          if !replyOff {
            Silence();
            replySkipNext := true;
          }
        case Pump(x) => Emit(x);
      }
      if !e.Pump? { Advance(); }
    }

    /** Over every sequence of events the client receives exactly what the mode keeps, in order. */
    method Serve(events: seq<Event>)
      requires Standing(On) && PumpsOnlyPush(events)
      modifies this, w`buf, w`out, w`toOut, w`suppressed, w`pushDepth
      ensures Standing(ModeAfter(events))
      ensures w.Sent() == old(w.Sent()) + AllReceived(events)
    {
      hide Standing, Received, After;
      assert old(w.Sent()) + AllReceived([]) == old(w.Sent());
      for i := 0 to |events|
        invariant Standing(ModeAfter(events[..i]))
        invariant w.Sent() == old(w.Sent()) + AllReceived(events[..i])
      {
        Handle(events[i], ModeAfter(events[..i]));
        assert events[..i + 1][..i] == events[..i];
      }
      assert events[..|events|] == events;
    }
  }

  // ---- what the specification promises -------------------------------------------------------------

  /** ON and RESET are answered and answer everything after them, whatever came before. */
  lemma OnIsAlwaysAnswered(events: seq<Event>, e: Event)
    requires e.ReplyOn? || e.Reset?
    ensures AllReceived(events + [e]) == AllReceived(events) + TextLine(PLUS, if e.ReplyOn? then OK else RESET)
    ensures ModeAfter(events + [e]) == On
  {
    assert (events + [e])[..|events|] == events;
  }

  /** SKIP hides exactly one command, however often it is pumped in between: the command after that
      is answered in full. */
  lemma {:induction false} SkipHidesOneCommand(events: seq<Event>, pumps: seq<Event>, hidden: seq<Write>,
                                               shown: seq<Write>)
    requires ModeAfter(events) != Off && forall i :: 0 <= i < |pumps| ==> pumps[i].Pump?
    ensures AllReceived(events + [ReplySkip] + pumps + [Command(hidden)] + [Command(shown)])
         == AllReceived(events + [ReplySkip] + pumps) + Delivered(hidden, false) + Delivered(shown, true)
  {
    var a := events + [ReplySkip];
    assert a[..|events|] == events;
    PumpsChangeNoMode(a, pumps);
    var b := a + pumps;
    var c := b + [Command(hidden)];
    assert c[..|b|] == b;
    assert (c + [Command(shown)])[..|c|] == c;
  }

  lemma {:induction false} PumpsChangeNoMode(events: seq<Event>, pumps: seq<Event>)
    requires forall i :: 0 <= i < |pumps| ==> pumps[i].Pump?
    ensures ModeAfter(events + pumps) == ModeAfter(events)
    decreases |pumps|
  {
    if pumps == [] {
      assert events + pumps == events;
    } else {
      var n := |pumps| - 1;
      assert (events + pumps)[..|events| + n] == events + pumps[..n];
      PumpsChangeNoMode(events, pumps[..n]);
    }
  }
}
