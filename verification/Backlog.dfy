/** The replication backlog: a fixed ring that must agree, byte for byte, with the unbounded
    stream it abbreviates. */
module Backlog {
  import opened Bytes
  import opened RespGrammar
  import opened CommandCodec

  /** Go's remainder, which takes the sign of the dividend. */
  function GoMod(a: int, b: int): int
    requires b > 0
  {
    if a >= 0 then a % b else -((-a) % b)
  }

  lemma ModOnce(a: nat, size: nat)
    requires a < 2 * size
    ensures a % size == if a < size then a else a - size
  {
    if a >= size { assert a / size == 1; }
  }

  /** Walking n back from the cursor lands n positions behind it, round the end if need be. */
  lemma BackFrom(w: nat, n: nat, size: nat)
    requires w < size && n <= size
    ensures GoMod(GoMod(w - n, size) + size, size) == if n <= w then w - n else size + w - n
  {
    if n <= w {
      ModOnce(w - n, size);
      ModOnce(w - n + size, size);
    } else {
      ModOnce(n - w, size);
      if n - w == size { ModOnce(size, size); } else { ModOnce(size - (n - w), size); }
    }
  }

  function Max(a: int, b: int): int { if a >= b then a else b }

  /** The k bytes the ring holds just before its write cursor, oldest first. */
  function RingTail(ring: Bytes, w: nat, k: nat): (r: Bytes)
    requires w < |ring| && k <= |ring|
    ensures |r| == k
  {
    if k <= w then ring[w - k..w] else ring[|ring| - (k - w)..] + ring[..w]
  }

  /** A shorter tail is the end of a longer one. */
  lemma TailOfTail(ring: Bytes, w: nat, n: nat, k: nat)
    requires w < |ring| && n <= k <= |ring|
    ensures RingTail(ring, w, n) == RingTail(ring, w, k)[k - n..]
  {
  }

  /** The byte written j positions before the cursor. */
  function ByAge(ring: Bytes, w: nat, j: nat): byte
    requires w < |ring| && 1 <= j <= |ring|
  {
    if j <= w then ring[w - j] else ring[|ring| + w - j]
  }

  lemma RingTailByAge(ring: Bytes, w: nat, k: nat, i: nat)
    requires w < |ring| && i < k <= |ring|
    ensures RingTail(ring, w, k)[i] == ByAge(ring, w, k - i)
  {
  }

  /** The ring after p was copied in at the cursor, wrapping round when it runs off the end. */
  function Written(ring: Bytes, w: nat, p: Bytes): (r: Bytes)
    requires w < |ring| && |p| <= |ring|
    ensures |r| == |ring|
  {
    var n := |ring| - w;
    if |p| <= n then ring[..w] + p + ring[w + |p|..] else p[n..] + ring[|p| - n..w] + p[..n]
  }

  function Advanced(size: nat, w: nat, m: nat): (r: nat)
    requires w < size && m <= size
    ensures r < size
  {
    if w + m < size then w + m else w + m - size
  }

  lemma AdvanceWraps(size: nat, w: nat, m: nat)
    requires w < size && m <= size
    ensures GoMod(w + m, size) == Advanced(size, w, m)
  {
    ModOnce(w + m, size);
  }

  /** The ring with p copied in at off, when it fits there. */
  function Copied(ring: Bytes, off: nat, p: Bytes): (r: Bytes)
    requires off + |p| <= |ring|
    ensures |r| == |ring|
  {
    ring[..off] + p + ring[off + |p|..]
  }

  lemma CopiedOneMore(ring: Bytes, off: nat, p: Bytes, i: nat)
    requires off + |p| <= |ring| && i < |p|
    ensures Copied(ring, off, p[..i + 1]) == Copied(ring, off, p[..i])[off + i := p[i]]
  {
  }

  lemma CopiedNoneOrAll(ring: Bytes, off: nat, p: Bytes)
    requires off + |p| <= |ring|
    ensures Copied(ring, off, p[..0]) == ring && Copied(ring, off, p[..|p|]) == Copied(ring, off, p)
  {
    assert p[..|p|] == p;
  }

  lemma DropsFromPrefix(a: Bytes, w: nat, q: Bytes, k: nat)
    requires k <= w <= |a|
    ensures (a[..w] + q)[k..] == a[k..w] + q
  {
  }

  lemma CopiedAtEnds(ring: Bytes, w: nat, q: Bytes)
    requires w + |q| <= |ring|
    ensures w + |q| == |ring| ==> Copied(ring, w, q) == ring[..w] + q
    ensures |q| <= |ring| && Copied(ring, 0, q) == q + ring[|q|..]
  {
  }

  lemma WrittenByCopies(ring: Bytes, w: nat, p: Bytes)
    requires w < |ring| && |p| <= |ring|
    ensures var n := if |ring| - w < |p| then |ring| - w else |p|;
            var once := Copied(ring, w, p[..n]);
            Written(ring, w, p) == if n < |p| then Copied(once, 0, p[n..]) else once
  {
    var n := if |ring| - w < |p| then |ring| - w else |p|;
    if n < |p| {
      hide Copied;
      var once := Copied(ring, w, p[..n]);
      CopiedAtEnds(ring, w, p[..n]);
      CopiedAtEnds(once, 0, p[n..]);
      DropsFromPrefix(ring, w, p[..n], |p| - n);
    } else {
      assert p[..n] == p;
    }
  }

  /** What two copies out of the ring, from begin and then from its front, yield. */
  function CopiedOut(ring: Bytes, begin: nat, n: nat): Bytes
    requires begin < |ring| && n <= |ring|
  {
    if begin + n <= |ring| then ring[begin..begin + n] else ring[begin..] + ring[..n - (|ring| - begin)]
  }

  lemma CopiedOutIsTail(ring: Bytes, w: nat, n: nat)
    requires w < |ring| && 0 < n <= |ring|
    ensures CopiedOut(ring, if n <= w then w - n else |ring| + w - n, n) == RingTail(ring, w, n)
  {
  }

  lemma AgeAfterWrite(ring: Bytes, w: nat, p: Bytes, j: nat)
    requires w < |ring| && |p| <= |ring| && 1 <= j <= |ring|
    ensures ByAge(Written(ring, w, p), Advanced(|ring|, w, |p|), j)
         == if j <= |p| then p[|p| - j] else ByAge(ring, w, j - |p|)
  {
  }

  /** Copying p in makes the ring's tail the old tail followed by p, as far back as asked. */
  lemma TailAfterWrite(ring: Bytes, w: nat, p: Bytes, k: nat, k': nat)
    requires w < |ring| && |p| <= |ring| && k <= |ring| && k' <= |ring| && k' <= k + |p|
    ensures RingTail(Written(ring, w, p), Advanced(|ring|, w, |p|), k')
         == (RingTail(ring, w, k) + p)[k + |p| - k'..]
  {
    hide RingTail, Written, Advanced, ByAge;
    var now := RingTail(Written(ring, w, p), Advanced(|ring|, w, |p|), k');
    var want := (RingTail(ring, w, k) + p)[k + |p| - k'..];
    forall i | 0 <= i < k'
      ensures now[i] == want[i]
    {
      RingTailByAge(Written(ring, w, p), Advanced(|ring|, w, |p|), k', i);
      AgeAfterWrite(ring, w, p, k' - i);
      if k' - i > |p| { RingTailByAge(ring, w, k, k + |p| - k' + i); }
    }
  }

  /** The retained tail of the stream after a feed of any size. */
  lemma TailAfterFeed(ring: Bytes, w: nat, stream: Bytes, data: Bytes, k: nat, k': nat)
    requires w < |ring| && k <= |ring| && k <= |stream|
    requires RingTail(ring, w, k) == stream[|stream| - k..]
    requires k' == if k + |data| <= |ring| then k + |data| else |ring|
    ensures var p := if |data| >= |ring| then data[|data| - |ring|..] else data;
            var at := if |data| >= |ring| then 0 else w;
            RingTail(Written(ring, at, p), Advanced(|ring|, at, |p|), k')
            == (stream + data)[|stream + data| - k'..]
  {
    hide RingTail, Written, Advanced;
    if |data| >= |ring| {
      var p := data[|data| - |ring|..];
      TailAfterWrite(ring, 0, p, 0, k');
      assert RingTail(ring, 0, 0) + p == p;
    } else {
      TailAfterWrite(ring, w, data, k, k');
    }
  }

  /** The ring stands for the stream fed since offset base: the cursors are where the byte count
      puts them, and the bytes before the write cursor are the last ones of the stream. */
  ghost predicate Holds(ring: Bytes, w: nat, start: nat, end: nat, base: nat, stream: Bytes) {
    && end == base + |stream|
    && start == Max(base, end - |ring|)
    && (|ring| == 0 ==> w == 0)
    && (|ring| > 0 ==> w < |ring| && RingTail(ring, w, end - start) == stream[start - base..])
  }

  lemma HoldsAfterFeed(ring: Bytes, w: nat, start: nat, end: nat, base: nat, stream: Bytes, data: Bytes)
    requires Holds(ring, w, start, end, base, stream) && |ring| > 0
    ensures var p := if |data| >= |ring| then data[|data| - |ring|..] else data;
            var at := if |data| >= |ring| then 0 else w;
            var end' := end + |data|;
            var start' := if end' - start > |ring| then end' - |ring| else start;
            Holds(Written(ring, at, p), Advanced(|ring|, at, |p|), start', end', base, stream + data)
  {
    hide Written, Advanced, RingTail;
    var end' := end + |data|;
    var start' := if end' - start > |ring| then end' - |ring| else start;
    TailAfterFeed(ring, w, stream, data, end - start, end' - start');
  }

  lemma HoldsNothing(ring: Bytes, w: nat, start: nat, end: nat, base: nat, stream: Bytes, data: Bytes)
    requires Holds(ring, w, start, end, base, stream) && |ring| == 0
    ensures Holds(ring, w, end + |data|, end + |data|, base, stream + data)
  {
  }

  lemma HeldRange(ring: Bytes, w: nat, start: nat, end: nat, base: nat, stream: Bytes)
    requires Holds(ring, w, start, end, base, stream)
    ensures end == base + |stream| && start == Max(base, end - |ring|) && base <= start <= end
    ensures |ring| > 0 ==> w < |ring|
  {
    hide RingTail;
  }

  lemma HeldBytes(ring: Bytes, w: nat, start: nat, end: nat, base: nat, stream: Bytes, from: nat)
    requires Holds(ring, w, start, end, base, stream) && start <= from < end
    ensures w < |ring| && end - from <= |ring|
    ensures RingTail(ring, w, end - from) == stream[from - base..]
  {
    hide RingTail;
    TailOfTail(ring, w, end - from, end - start);
  }

  class ReplBacklog {
    var buf: array<byte>
    var start: nat
    var end: nat
    var w: nat
    ghost var base: nat      // the stream offset the backlog was created at
    ghost var stream: Bytes  // every byte fed since

    ghost predicate Valid()
      reads this, buf
    {
      Holds(buf[..], w, start, end, base, stream)
    }

    /** A backlog of the given size at the current stream offset; zero or less disables it. */
    constructor (size: int, offset: nat)
      ensures Valid() && fresh(buf) && base == offset && stream == []
      ensures buf.Length == if size <= 0 then 0 else size
    {
      buf := new byte[if size <= 0 then 0 else size];
      start, end, w := offset, offset, 0;
      base, stream := offset, [];
    }

    /** Bytes appended to the stream, of which the ring keeps what fits. */
    method Feed(data: Bytes)
      requires Valid()
      modifies this, buf
      ensures Valid() && buf == old(buf) && base == old(base)
      ensures stream == old(stream) + data
    {
      hide Written, Advanced, Holds, RingTail;
      HeldRange(buf[..], w, start, end, base, stream);
      var p := data;
      end := end + |p|;
      stream := stream + data;
      if buf.Length == 0 {
        start := end;
        HoldsNothing(buf[..], old(w), old(start), old(end), base, old(stream), data);
        return;
      }
      HoldsAfterFeed(buf[..], w, start, old(end), base, old(stream), data);
      if |p| >= buf.Length {
        p := p[|p| - buf.Length..];
        w := 0;
      }
      WriteAtCursor(p);
      if end - start > buf.Length { start := end - buf.Length; }
    }

    /** The two copies of a write that may wrap, and the cursor behind it. */
    method WriteAtCursor(p: Bytes)
      requires w < buf.Length && |p| <= buf.Length
      modifies buf, this`w
      ensures buf[..] == Written(old(buf[..]), old(w), p)
      ensures w == Advanced(buf.Length, old(w), |p|)
    {
      hide Written, Advanced, GoMod, Copied;
      WrittenByCopies(buf[..], w, p);
      AdvanceWraps(buf.Length, w, |p|);
      var n := if buf.Length - w < |p| then buf.Length - w else |p|;
      CopyTo(w, p[..n]);
      if n < |p| { CopyTo(0, p[n..]); }
      w := GoMod(w + |p|, buf.Length);
    }

    method CopyTo(off: nat, p: Bytes)
      requires off + |p| <= buf.Length
      modifies buf
      ensures buf[..] == Copied(old(buf[..]), off, p)
    {
      hide Copied;
      CopiedNoneOrAll(buf[..], off, p);
      for i := 0 to |p|
        invariant buf[..] == Copied(old(buf[..]), off, p[..i])
      {
        CopiedOneMore(old(buf[..]), off, p, i);
        buf[off + i] := p[i];
      }
    }

    /** The stream from an absolute offset on, when the ring still holds all of it. */
    method Read(from: int) returns (out: Bytes, ok: bool)
      requires Valid()
      ensures ok <==> Max(base, end - buf.Length) <= from <= end
      ensures ok ==> out == stream[from - base..]
    {
      hide GoMod, RingTail, Holds;
      HeldRange(buf[..], w, start, end, base, stream);
      if from > end || from < start { return [], false; }
      var n := end - from;
      if n == 0 { return [], true; }
      HeldBytes(buf[..], w, start, end, base, stream, from);
      BackFrom(w, n, buf.Length);
      CopiedOutIsTail(buf[..], w, n);
      var begin := GoMod(GoMod(w - n, buf.Length) + buf.Length, buf.Length);
      if begin + n <= buf.Length { return buf[begin..begin + n], true; }
      return buf[begin..] + buf[..n - (buf.Length - begin)], true;
    }

    /** What a replica that resumes at a command boundary is sent: nothing if the ring has lost part
        of it, and otherwise bytes that parse to exactly the commands it has not seen. */
    method Continue(from: int, ghost cmds: seq<Command>, ghost k: nat, ghost split: Splitter)
      returns (out: Bytes, ok: bool)
      requires Valid() && AllSendable(cmds) && k <= |cmds| && stream == EncodeAll(cmds)
      requires from == base + |EncodeAll(cmds[..k])|
      ensures ok <==> |EncodeAll(cmds[k..])| <= buf.Length
      ensures ok ==> ReadAll(out, split) == cmds[k..]
    {
      hide EncodeAll, ReadAll, Holds;
      HeldRange(buf[..], w, start, end, base, stream);
      ResyncIsExact(cmds, k, split);
      out, ok := Read(from);
    }

    method HistLen() returns (n: nat)
      requires Valid()
      ensures n == if |stream| < buf.Length then |stream| else buf.Length
    {
      n := end - start;
    }
  }

  /** A continuation from a frame boundary parses to exactly the commands encoded after it. */
  lemma ResyncIsExact(cmds: seq<Command>, k: nat, split: Splitter)
    requires AllSendable(cmds) && k <= |cmds|
    ensures |EncodeAll(cmds[..k])| + |EncodeAll(cmds[k..])| == |EncodeAll(cmds)|
    ensures ReadAll(EncodeAll(cmds)[|EncodeAll(cmds[..k])|..], split) == cmds[k..]
  {
    hide EncodeAll, ReadAll;
    assert cmds == cmds[..k] + cmds[k..];
    EncodeAllAppend(cmds[..k], cmds[k..]);
    assert EncodeAll(cmds)[|EncodeAll(cmds[..k])|..] == EncodeAll(cmds[k..]);
    ReplayOfWhole(cmds[k..], split);
  }
}
