/** Hash slots: CRC-16/XMODEM by table and by long division, and the hash-tag rule. */
module SlotHash {
  import opened Bytes
  import opened CrcBits

  const OPEN_BRACE: byte := 123
  const CLOSE_BRACE: byte := 125

  // ---- the reference: long division over GF(2) ----------------------------------------

  /** The remainder of a bit string: each bit is brought down and the register reduced. */
  function Divide(bits: seq<bool>, r: bv16): bv16
    decreases |bits|
  {
    if bits == [] then r else Divide(bits[1..], Xor(Shift(r), Bit(bits[0])))
  }

  /** The n highest bits of x, most significant first. */
  function HighBits(x: bv16, n: nat): (b: seq<bool>)
    ensures |b| == n
    decreases n
  {
    if n == 0 then [] else [Top(x)] + HighBits(Left(x), n - 1)
  }

  function ByteBits(c: byte): seq<bool> { HighBits(LeftByte(c as bv16), 8) }

  function MessageBits(b: Bytes): seq<bool> {
    if b == [] then [] else MessageBits(b[..|b| - 1]) + ByteBits(b[|b| - 1])
  }

  function Zeros(n: nat): (z: seq<bool>)
    ensures |z| == n
  {
    if n == 0 then [] else [false] + Zeros(n - 1)
  }

  /** CRC-16/XMODEM: the remainder of the message followed by sixteen zero bits. */
  function Crc16(b: Bytes): bv16 { Divide(MessageBits(b) + Zeros(16), 0) }

  // ---- the register that needs no padding ---------------------------------------------

  function Shifts(r: bv16, n: nat): bv16
    decreases n
  {
    if n == 0 then r else Shifts(Shift(r), n - 1)
  }

  lemma {:induction false} ShiftsLinear(a: bv16, b: bv16, n: nat)
    ensures Shifts(Xor(a, b), n) == Xor(Shifts(a, n), Shifts(b, n))
    decreases n
  {
    hide Shift, Xor;
    if n > 0 {
      ShiftLinear(a, b);
      ShiftsLinear(Shift(a), Shift(b), n - 1);
    }
  }

  lemma {:induction false} ShiftsOnce(r: bv16, n: nat)
    ensures Shifts(Shift(r), n) == Shift(Shifts(r, n))
    decreases n
  {
    hide Shift;
    if n > 0 { ShiftsOnce(Shift(r), n - 1); }
  }

  lemma {:induction false} DivideAppend(a: seq<bool>, b: seq<bool>, r: bv16)
    ensures Divide(a + b, r) == Divide(b, Divide(a, r))
    decreases |a|
  {
    hide Shift, Xor, Bit;
    if a == [] {
      assert a + b == b;
    } else {
      assert (a + b)[1..] == a[1..] + b;
      DivideAppend(a[1..], b, Xor(Shift(r), Bit(a[0])));
    }
  }

  lemma {:induction false} DivideZeros(n: nat, r: bv16)
    ensures Divide(Zeros(n), r) == Shifts(r, n)
    decreases n
  {
    hide Shift, Xor;
    if n > 0 {
      assert Zeros(n)[1..] == Zeros(n - 1);
      XorZero(Shift(r));
      DivideZeros(n - 1, Shift(r));
    }
  }

  lemma {:induction false} ShiftsOfZero(n: nat)
    ensures Shifts(0, n) == 0
    decreases n
  {
    hide Shift;
    if n > 0 {
      ShiftOfZero();
      ShiftsOfZero(n - 1);
    }
  }

  lemma BitShiftedSixteen(b: bool)
    ensures Shifts(Bit(b), 16) == if b then POLY else 0
  {
    hide Shift;
    if b {
      LowBitClimbs();
      assert Shifts(0x8000, 1) == POLY;
      assert Shifts(0x2000, 3) == POLY;
      assert Shifts(0x800, 5) == POLY;
      assert Shifts(0x200, 7) == POLY;
      assert Shifts(0x80, 9) == POLY;
      assert Shifts(0x20, 11) == POLY;
      assert Shifts(0x8, 13) == POLY;
      assert Shifts(0x2, 15) == POLY;
    } else {
      ShiftsOfZero(16);
    }
  }

  /** All the bits of x lie within its n highest. */
  predicate Within(x: bv16, n: nat)
    decreases n
  {
    if n == 0 then x == 0 else Within(Left(x), n - 1)
  }

  lemma ByteWithin(c: bv16)
    ensures Within(LeftByte(c), 8)
  {
    hide Left, LeftByte;
    var x := LeftByte(c);
    ByteGone(c);
    EightLefts(x);
    var y := Left(Left(Left(Left(x))));
    assert Within(Left(Left(Left(y))), 1);
    assert Within(Left(y), 3);
    assert Within(Left(Left(Left(x))), 5);
    assert Within(Left(x), 7);
  }

  /** The register that takes its bits at the top stays sixteen shifts ahead of the one that
      brings them down at the bottom. */
  lemma {:induction false} BitsAhead(r: bv16, a: bv16, x: bv16, n: nat)
    requires r == Shifts(a, 16) && Within(x, n)
    ensures Shifts(Xor(r, x), n) == Shifts(Divide(HighBits(x, n), a), 16)
    decreases n
  {
    hide Shift, Xor, Left, Top, Bit;
    if n == 0 {
      XorZero(r);
    } else {
      var a' := Xor(Shift(a), Bit(Top(x)));
      ShiftsLinear(Shift(a), Bit(Top(x)), 16);
      ShiftsOnce(a, 16);
      BitShiftedSixteen(Top(x));
      ShiftOver(r, x);
      assert HighBits(x, n)[1..] == HighBits(Left(x), n - 1);
      BitsAhead(Shifts(a', 16), a', Left(x), n - 1);
    }
  }

  /** The register after a message, with no padding. */
  function Register(b: Bytes): bv16 {
    if b == [] then 0 else Shifts(Xor(Register(b[..|b| - 1]), LeftByte(b[|b| - 1] as bv16)), 8)
  }

  lemma {:induction false} RegisterAhead(b: Bytes)
    ensures Register(b) == Shifts(Divide(MessageBits(b), 0), 16)
    decreases |b|
  {
    hide Shifts, Divide, HighBits, Xor, LeftByte, Within;
    if b == [] {
      ShiftsOfZero(16);
      DivideNothing(0);
    } else {
      var init, c := b[..|b| - 1], b[|b| - 1];
      RegisterAhead(init);
      ByteWithin(c as bv16);
      BitsAhead(Register(init), Divide(MessageBits(init), 0), LeftByte(c as bv16), 8);
      DivideAppend(MessageBits(init), ByteBits(c), 0);
    }
  }

  lemma DivideNothing(r: bv16)
    ensures Divide([], r) == r
  {
  }

  /** The unpadded register is the padded division. */
  lemma RegisterIsCrc(b: Bytes)
    ensures Register(b) == Crc16(b)
  {
    hide Shifts, Divide, Register, MessageBits, Zeros;
    RegisterAhead(b);
    DivideAppend(MessageBits(b), Zeros(16), 0);
    DivideZeros(16, Divide(MessageBits(b), 0));
  }

  // ---- the table ----------------------------------------------------------------------

  function Entry(i: bv16): bv16 { Shifts(LeftByte(i), 8) }

  predicate IsTable(t: seq<bv16>) {
    |t| == 256 && forall i :: 0 <= i < 256 ==> t[i] == Entry(i as bv16)
  }

  function Lookup(t: seq<bv16>, i: bv16): (e: bv16)
    requires IsTable(t) && i < 256
    ensures e == Entry(i)
  {
    hide Entry;
    t[i as int]
  }

  /** The byte table, generated entry by entry. */
  method MakeTable() returns (t: array<bv16>)
    ensures fresh(t) && IsTable(t[..])
  {
    hide Shift, LeftByte;
    t := new bv16[256];
    for i := 0 to 256
      invariant forall j :: 0 <= j < i ==> t[j] == Entry(j as bv16)
    {
      var crc := LeftByte(i as bv16);
      for bit := 0 to 8
        invariant Shifts(crc, 8 - bit) == Entry(i as bv16)
        invariant forall j :: 0 <= j < i ==> t[j] == Entry(j as bv16)
      {
        crc := Shift(crc);
      }
      t[i] := crc;
    }
  }

  /** A byte at a time through the table is the same as bit by bit. */
  lemma TableStep(crc: bv16, c: bv16)
    requires c < 256
    ensures Xor(HighByte(crc), c) < 256
    ensures Xor(LeftByte(crc), Entry(Xor(HighByte(crc), c))) == Shifts(Xor(crc, LeftByte(c)), 8)
  {
    hide Shifts, Xor, LeftByte, HighByte, LowByte;
    var index := Xor(HighByte(crc), c);
    SplitIndex(crc, c);
    ShiftsLinear(LeftByte(index), LowByte(crc), 8);
    LowByteShifts(LowByte(crc));
    XorCommutes(Entry(index), LeftByte(crc));
  }

  lemma LowByteShifts(low: bv16)
    requires HighByte(low) == 0
    ensures Shifts(low, 8) == LeftByte(low)
  {
    hide Left, LeftByte, HighByte, Top, Xor;
    NoTopInLowByte(low);
    EightLefts(low);
    var y := Left(Left(Left(Left(low))));
    assert Shifts(Left(Left(Left(y))), 1) == LeftByte(low);
    assert Shifts(Left(y), 3) == LeftByte(low);
    assert Shifts(Left(Left(Left(low))), 5) == LeftByte(low);
    assert Shifts(Left(low), 7) == LeftByte(low);
  }

  /** The table-driven checksum is the long-division one, for every byte string. */
  method TableCrc16(t: seq<bv16>, b: Bytes) returns (crc: bv16)
    requires IsTable(t)
    ensures crc == Crc16(b)
  {
    hide Shifts, Crc16, Entry, Xor, LeftByte, HighByte, IsTable, Lookup, Register;
    crc := 0;
    RegisterOfNothing();
    for i := 0 to |b|
      invariant crc == Register(b[..i])
    {
      var c := CodeOf(b[i]);
      TableStep(crc, c);
      RegisterMore(b[..i], b[i]);
      assert b[..i + 1] == b[..i] + [b[i]];
      crc := Xor(LeftByte(crc), Lookup(t, Xor(HighByte(crc), c)));
    }
    assert b[..|b|] == b;
    RegisterIsCrc(b);
  }

  function CodeOf(c: byte): (x: bv16)
    ensures x < 256
  {
    c as bv16
  }

  lemma RegisterOfNothing()
    ensures Register([]) == 0
  {
  }

  lemma RegisterMore(b: Bytes, c: byte)
    ensures Register(b + [c]) == Shifts(Xor(Register(b), LeftByte(CodeOf(c))), 8)
  {
    hide Shifts, Xor, LeftByte;
    assert (b + [c])[..|b|] == b;
  }

  // ---- hash tags ----------------------------------------------------------------------

  /** The slot of a hashed text: the low fourteen bits of its checksum. */
  function SlotOf(text: Bytes): (slot: int)
    ensures 0 <= slot < 16384
  {
    LowFourteen(Crc16(text))
  }

  function LowFourteen(x: bv16): (slot: int)
    ensures 0 <= slot < 16384
  {
    (x & 0x3FFF) as int
  }

  /** The position of c at or after from, or |s|. */
  function IndexFrom(s: Bytes, c: byte, from: nat): (i: nat)
    requires from <= |s|
    ensures from <= i <= |s|
    ensures forall j :: from <= j < i ==> s[j] != c
    ensures i < |s| ==> s[i] == c
  {
    from + IndexOf(s[from..], c)
  }

  /** The part of a key that is hashed: what lies between the first opening brace and the first
      closing one after it when that is not empty, and the whole key otherwise. */
  function HashTag(key: Bytes): Bytes {
    var start := IndexFrom(key, OPEN_BRACE, 0);
    if start == |key| then key
    else
      var end := IndexFrom(key, CLOSE_BRACE, start + 1);
      if end == |key| || end == start + 1 then key else key[start + 1..end]
  }

  function SlotOfKey(key: Bytes): (slot: int)
    ensures 0 <= slot < 16384
  {
    SlotOf(HashTag(key))
  }

  /** A key that spells out a tag is hashed by that tag, whatever surrounds it. */
  lemma TagDecides(before: Bytes, tag: Bytes, after: Bytes)
    requires OPEN_BRACE !in before && CLOSE_BRACE !in tag && tag != []
    ensures HashTag(before + [OPEN_BRACE] + tag + [CLOSE_BRACE] + after) == tag
  {
    hide IndexFrom;
    var key := before + [OPEN_BRACE] + tag + [CLOSE_BRACE] + after;
    var start, end := |before|, |before| + 1 + |tag|;
    assert key[start] == OPEN_BRACE && forall j :: 0 <= j < start ==> key[j] == before[j];
    assert IndexFrom(key, OPEN_BRACE, 0) == start;
    assert key[end] == CLOSE_BRACE && forall j :: start + 1 <= j < end ==> key[j] == tag[j - start - 1];
    assert IndexFrom(key, CLOSE_BRACE, start + 1) == end;
    assert key[start + 1..end] == tag;
  }

  /** A key with no such spelling is hashed whole. */
  lemma NoTagNoCut(key: Bytes)
    ensures HashTag(key) == key ||
            exists before, after ::
              && OPEN_BRACE !in before && CLOSE_BRACE !in HashTag(key) && HashTag(key) != []
              && key == before + [OPEN_BRACE] + HashTag(key) + [CLOSE_BRACE] + after
  {
    hide IndexFrom;
    if HashTag(key) != key {
      var start := IndexFrom(key, OPEN_BRACE, 0);
      var end := IndexFrom(key, CLOSE_BRACE, start + 1);
      assert key == key[..start] + [OPEN_BRACE] + HashTag(key) + [CLOSE_BRACE] + key[end + 1..];
    }
  }

  /** KeySlot: two scans for the braces, then the checksum of what they enclose. */
  method KeySlot(t: seq<bv16>, key: Bytes) returns (slot: int)
    requires IsTable(t)
    ensures slot == SlotOfKey(key)
  {
    hide Crc16, IsTable, IndexFrom;
    var start, i := -1, 0;
    while i < |key|
      invariant 0 <= i <= |key| && start == -1
      invariant forall j :: 0 <= j < i ==> key[j] != OPEN_BRACE
    {
      if key[i] == OPEN_BRACE { start := i; break; }
      i := i + 1;
    }
    if start < 0 {
      var whole := TableCrc16(t, key);
      return LowFourteen(whole);
    }
    assert IndexFrom(key, OPEN_BRACE, 0) == start;
    var end := -1;
    i := start + 1;
    while i < |key|
      invariant start + 1 <= i <= |key| && end == -1
      invariant forall j :: start + 1 <= j < i ==> key[j] != CLOSE_BRACE
    {
      if key[i] == CLOSE_BRACE { end := i; break; }
      i := i + 1;
    }
    assert end >= 0 ==> IndexFrom(key, CLOSE_BRACE, start + 1) == end;
    if end < 0 || end == start + 1 {
      var whole := TableCrc16(t, key);
      return LowFourteen(whole);
    }
    var crc := TableCrc16(t, key[start + 1..end]);
    return LowFourteen(crc);
  }
}
