/** Bytes, byte strings and the few helpers every wire format here is built from. */
module Bytes {

  datatype Option<+T> = None | Some(value: T)

  type byte = b: int | 0 <= b < 256
  type Bytes = seq<byte>

  /** Keys, values and one node's keys with their values. */
  type Key = Bytes
  type Val = Bytes
  type Store = map<Key, Val>

  /** The named keys of a store with their values. */
  function Restrict(m: Store, keys: seq<Key>): Store { m - (set k | k in m && k !in keys) }

  const LF: byte := 10
  const CR: byte := 13
  const CRLF: Bytes := [CR, LF]
  const PLUS: byte := 43    // '+'
  const MINUS: byte := 45   // '-'
  const DOLLAR: byte := 36  // '$'
  const STAR: byte := 42    // '*'
  const COMMA: byte := 44   // ','
  const COLON: byte := 58   // ':'
  const GREATER: byte := 62 // '>'
  const ZERO: byte := 48    // '0'

  /** The first position of c in s, or |s| when c does not occur. */
  function IndexOf(s: Bytes, c: byte): (i: nat)
    ensures i <= |s|
    ensures forall j :: 0 <= j < i ==> s[j] != c
    ensures i < |s| ==> s[i] == c
  {
    if s == [] || s[0] == c then 0 else IndexOf(s[1..], c) + 1
  }

  lemma IndexOfIs(s: Bytes, c: byte, i: nat)
    requires i < |s| && s[i] == c && forall j :: 0 <= j < i ==> s[j] != c
    ensures IndexOf(s, c) == i
  {
  }

  /** Whether b carries no line terminator and would survive the trimming of a line end. */
  predicate LineSafe(b: Bytes) {
    && LF !in b
    && (b != [] ==> b[|b| - 1] != CR)
  }

  /** The line with every trailing CR and LF removed. */
  function TrimCRLF(b: Bytes): (r: Bytes)
    ensures r <= b
    ensures r != [] ==> r[|r| - 1] != LF && r[|r| - 1] != CR
    ensures forall j :: |r| <= j < |b| ==> b[j] == LF || b[j] == CR
  {
    if b != [] && (b[|b| - 1] == LF || b[|b| - 1] == CR) then TrimCRLF(b[..|b| - 1]) else b
  }

  lemma TrimOfSafeLine(b: Bytes)
    requires LineSafe(b)
    ensures TrimCRLF(b + CRLF) == b
  {
    assert (b + CRLF)[..|b| + 1] == b + [CR];
    assert (b + [CR])[..|b|] == b;
  }
}
