/** SORT's BY and GET patterns in cluster mode: which slot a pattern promises, which keys it can
    form, and exactly when the promise holds. */
module SortPattern {
  import opened Bytes
  import opened CrcBits
  import opened SlotHash

  /** The slot every key of the pattern is promised to be in, if its tag promises one. */
  function PatternSlot(pattern: Bytes): Option<int> {
    var start := IndexFrom(pattern, OPEN_BRACE, 0);
    if start == |pattern| then None
    else
      var end := IndexFrom(pattern, CLOSE_BRACE, start + 1);
      if end == |pattern| || end == start + 1 then None
      else Some(SlotOfKey(pattern[start..end + 1]))
  }

  /** The first "->" at or after from, or |s|. */
  function ArrowFrom(s: Bytes, from: nat): (i: nat)
    requires from <= |s|
    ensures from <= i <= |s|
    decreases |s| - from
  {
    if from == |s| then |s|
    else if from + 1 < |s| && s[from] == MINUS && s[from + 1] == GREATER then from
    else ArrowFrom(s, from + 1)
  }

  /** The key a pattern forms for an element: the element in place of the first star, up to a
      hash-field suffix. A pattern without a star forms no key. */
  function KeyFor(pattern: Bytes, elem: Bytes): Option<Bytes> {
    var star := IndexFrom(pattern, STAR, 0);
    if star == |pattern| then None
    else Some(pattern[..star] + elem + pattern[star + 1..Max(star + 1, ArrowFrom(pattern, star))])
  }

  function Max(a: nat, b: nat): nat { if a >= b then a else b }

  /** Every key the pattern can form is in the promised slot. */
  ghost predicate Confined(pattern: Bytes) {
    forall elem :: KeyFor(pattern, elem).Some? ==> Some(SlotOfKey(KeyFor(pattern, elem).value)) == PatternSlot(pattern)
  }

  /** The first star comes after the tag's closing brace, or there is no star at all. */
  predicate StarBehindTag(pattern: Bytes)
    requires PatternSlot(pattern).Some?
  {
    var start := IndexFrom(pattern, OPEN_BRACE, 0);
    IndexFrom(pattern, STAR, 0) > IndexFrom(pattern, CLOSE_BRACE, start + 1)
  }

  lemma TagParts(pattern: Bytes) returns (before: Bytes, tag: Bytes, after: Bytes)
    requires PatternSlot(pattern).Some?
    ensures pattern == before + [OPEN_BRACE] + tag + [CLOSE_BRACE] + after
    ensures OPEN_BRACE !in before && CLOSE_BRACE !in tag && tag != []
    ensures PatternSlot(pattern) == Some(SlotOf(tag))
    ensures |before| == IndexFrom(pattern, OPEN_BRACE, 0)
    ensures |before| + 1 + |tag| == IndexFrom(pattern, CLOSE_BRACE, |before| + 1)
  {
    hide IndexFrom, SlotOf, HashTag;
    var start := IndexFrom(pattern, OPEN_BRACE, 0);
    var end := IndexFrom(pattern, CLOSE_BRACE, start + 1);
    before, tag, after := pattern[..start], pattern[start + 1..end], pattern[end + 1..];
    assert pattern == before + [OPEN_BRACE] + tag + [CLOSE_BRACE] + after;
    var bare := pattern[start..end + 1];
    assert bare == [] + [OPEN_BRACE] + tag + [CLOSE_BRACE] + [];
    TagDecides([], tag, []);
  }

  lemma BehindTagIsConfined(pattern: Bytes, elem: Bytes)
    requires PatternSlot(pattern).Some? && StarBehindTag(pattern) && KeyFor(pattern, elem).Some?
    ensures SlotOfKey(KeyFor(pattern, elem).value) == PatternSlot(pattern).value
  {
    hide IndexFrom, SlotOf, HashTag, ArrowFrom;
    var before, tag, after := TagParts(pattern);
    var star := IndexFrom(pattern, STAR, 0);
    var key := KeyFor(pattern, elem).value;
    var head := before + [OPEN_BRACE] + tag + [CLOSE_BRACE];
    assert head == pattern[..|head|];
    assert key[..|head|] == head;
    assert key == before + [OPEN_BRACE] + tag + [CLOSE_BRACE] + key[|head|..];
    TagDecides(before, tag, key[|head|..]);
  }

  /** With the star before the tag, an element can bring a tag of its own. */
  lemma ElementBringsTag(head: Bytes, tail: Bytes, c: byte)
    requires OPEN_BRACE !in head && c != CLOSE_BRACE
    ensures HashTag(head + [OPEN_BRACE, c, CLOSE_BRACE] + tail) == [c]
  {
    hide HashTag;
    TagDecides(head, [c], tail);
    assert head + [OPEN_BRACE, c, CLOSE_BRACE] + tail == head + [OPEN_BRACE] + [c] + [CLOSE_BRACE] + tail;
  }

  /** With the star inside the tag, an element can close it early. */
  lemma ElementClosesTag(before: Bytes, tag: Bytes, tail: Bytes, c: byte)
    requires OPEN_BRACE !in before && CLOSE_BRACE !in tag && c != CLOSE_BRACE
    ensures HashTag(before + [OPEN_BRACE] + tag + [c, CLOSE_BRACE] + tail) == tag + [c]
  {
    hide HashTag;
    TagDecides(before, tag + [c], tail);
    assert before + [OPEN_BRACE] + tag + [c, CLOSE_BRACE] + tail
        == before + [OPEN_BRACE] + (tag + [c]) + [CLOSE_BRACE] + tail;
  }

  /** Where a star that is not behind the tag can be: before its brace, or between the two. */
  lemma StarPlace(pattern: Bytes)
    requires PatternSlot(pattern).Some? && !StarBehindTag(pattern)
    ensures var open, star := IndexFrom(pattern, OPEN_BRACE, 0), IndexFrom(pattern, STAR, 0);
            && star < |pattern|
            && star != open
            && (star < open ==> OPEN_BRACE !in pattern[..star])
            && (star > open ==>
                  && OPEN_BRACE !in pattern[..open]
                  && CLOSE_BRACE !in pattern[open + 1..star]
                  && pattern[..star] == pattern[..open] + [OPEN_BRACE] + pattern[open + 1..star])
  {
    hide IndexFrom, SlotOfKey;
  }

  /** An element that closes the tag, or brings one of its own, decides the slot itself. */
  lemma ElementTakesOver(pattern: Bytes, c: byte) returns (elem: Bytes)
    requires PatternSlot(pattern).Some? && !StarBehindTag(pattern) && c != CLOSE_BRACE
    ensures KeyFor(pattern, elem).Some? && HashTag(KeyFor(pattern, elem).value) == TakenTag(pattern) + [c]
  {
    hide IndexFrom, HashTag, ArrowFrom, PatternSlot, StarBehindTag;
    StarPlace(pattern);
    var open, star := IndexFrom(pattern, OPEN_BRACE, 0), IndexFrom(pattern, STAR, 0);
    var tail := pattern[star + 1..Max(star + 1, ArrowFrom(pattern, star))];
    if star < open {
      elem := [OPEN_BRACE, c, CLOSE_BRACE];
      ElementBringsTag(pattern[..star], tail, c);
    } else {
      elem := [c, CLOSE_BRACE];
      ElementClosesTag(pattern[..open], pattern[open + 1..star], tail, c);
    }
  }

  /** What precedes the star inside the pattern's tag. */
  function TakenTag(pattern: Bytes): Bytes {
    var open, star := IndexFrom(pattern, OPEN_BRACE, 0), IndexFrom(pattern, STAR, 0);
    if star <= open then [] else pattern[open + 1..star]
  }

  /** Two texts that differ in their last letter are in different slots. */
  lemma LastLetterMatters(tag: Bytes)
    ensures SlotOf(tag + [98]) != SlotOf(tag + [99])
  {
    hide Crc16, Register, Shifts, Xor, LeftByte, LowFourteen;
    RegisterIsCrc(tag + [98]);
    RegisterIsCrc(tag + [99]);
    RegisterMore(tag, 98);
    RegisterMore(tag, 99);
    LettersApart(Register(tag));
    LowFourteenApart(Register(tag + [98]));
  }

  lemma LettersApart(r: bv16)
    ensures Shifts(Xor(r, LeftByte(CodeOf(99))), 8) == Xor(Shifts(Xor(r, LeftByte(CodeOf(98))), 8), POLY)
  {
    hide Shifts, Xor;
    var a, b := LeftByte(CodeOf(98)), LeftByte(CodeOf(99));
    assert b == Xor(a, 0x100) by { LetterCodes(); }
    XorAssociates(r, a, 0x100);
    ShiftsLinear(Xor(r, a), 0x100, 8);
    EightShifts();
  }

  lemma LetterCodes()
    ensures LeftByte(CodeOf(99)) == Xor(LeftByte(CodeOf(98)), 0x100)
  {
  }

  lemma EightShifts()
    ensures Shifts(0x100, 8) == POLY
  {
    hide Shift;
    LowBitClimbs();
    assert Shifts(0x8000, 1) == POLY;
    assert Shifts(0x2000, 3) == POLY;
    assert Shifts(0x800, 5) == POLY;
    assert Shifts(0x200, 7) == POLY;
  }

  lemma LowFourteenApart(x: bv16)
    ensures LowFourteen(x) != LowFourteen(Xor(x, POLY))
  {
    assert x & 0x3FFF != Xor(x, POLY) & 0x3FFF;
  }

  /** The promise of a pattern's tag holds for every element exactly when no star comes before the
      tag's closing brace. */
  lemma PatternRule(pattern: Bytes)
    requires PatternSlot(pattern).Some?
    ensures Confined(pattern) <==> StarBehindTag(pattern)
  {
    hide PatternSlot, KeyFor, SlotOf, HashTag, StarBehindTag;
    if StarBehindTag(pattern) {
      forall elem | KeyFor(pattern, elem).Some?
        ensures SlotOfKey(KeyFor(pattern, elem).value) == PatternSlot(pattern).value
      {
        BehindTagIsConfined(pattern, elem);
      }
    } else {
      var e1 := ElementTakesOver(pattern, 98);
      var e2 := ElementTakesOver(pattern, 99);
      LastLetterMatters(TakenTag(pattern));
    }
  }
}
