/** The cluster configuration file: the node lines of CLUSTER NODES, written and read back. */
module ConfigFile {
  import opened Bytes
  import opened Decimal
  import opened SlotRanges
  import Redirect

  const SPACE: byte := 32
  const LESS: byte := 60   // '<'
  const AT: byte := 64
  const OPEN: byte := 91   // '['
  const CLOSE: byte := 93  // ']'
  const NO_MASTER: Bytes := [MINUS]
  const VARS: Bytes := [118, 97, 114, 115]
  const MYSELF: Bytes := [109, 121, 115, 101, 108, 102]
  const SLAVE: Bytes := [115, 108, 97, 118, 101]
  const MASTER: Bytes := [109, 97, 115, 116, 101, 114]
  const CONNECTED: Bytes := [99, 111, 110, 110, 101, 99, 116, 101, 100]
  const NUM_SLOTS: nat := 16384

  /** The longest line the scanner hands over. */
  const MAX_LINE: nat := 65535

  datatype Node = Node(id: Bytes, ip: Bytes, port: int, cport: int, replicaOf: Bytes, epoch: int, myself: bool)

  // ---- fields ---------------------------------------------------------------------------------

  predicate IsSpace(c: byte) { c == SPACE || 9 <= c <= 13 }

  /** A field: at least one byte, all of them printable. */
  predicate Word(t: Bytes) { t != [] && Printable(t) }

  predicate Printable(t: Bytes) { forall i :: 0 <= i < |t| ==> 33 <= t[i] <= 126 }

  function WordEnd(s: Bytes): (k: nat)
    ensures k <= |s| && (s != [] && !IsSpace(s[0]) ==> k > 0)
  {
    if s == [] || IsSpace(s[0]) then 0 else WordEnd(s[1..]) + 1
  }

  function Fields(s: Bytes): seq<Bytes>
    decreases |s|
  {
    if s == [] then []
    else if IsSpace(s[0]) then Fields(s[1..])
    else
      var k := WordEnd(s);
      [s[..k]] + Fields(s[k..])
  }

  /** The fields of a line, a space before each but the first. */
  function Spaced(ts: seq<Bytes>): Bytes {
    if ts == [] then [] else [SPACE] + ts[0] + Spaced(ts[1..])
  }

  function Line(ts: seq<Bytes>): Bytes
    requires ts != []
  {
    ts[0] + Spaced(ts[1..])
  }

  lemma {:induction false} WordEndOf(t: Bytes, rest: Bytes)
    requires Printable(t) && (rest != [] ==> IsSpace(rest[0]))
    ensures WordEnd(t + rest) == |t|
  {
    if t != [] {
      assert (t + rest)[1..] == t[1..] + rest;
      WordEndOf(t[1..], rest);
    } else {
      assert t + rest == rest;
    }
  }

  lemma FieldOf(t: Bytes, rest: Bytes)
    requires Word(t) && (rest != [] ==> IsSpace(rest[0]))
    ensures Fields(t + rest) == [t] + Fields(rest)
  {
    hide WordEnd;
    WordEndOf(t, rest);
    assert (t + rest)[0] == t[0];
    assert (t + rest)[..|t|] == t && (t + rest)[|t|..] == rest;
  }

  lemma SpaceSkipped(s: Bytes)
    ensures Fields([SPACE] + s) == Fields(s)
  {
    assert ([SPACE] + s)[1..] == s;
  }

  lemma {:induction false} FieldsOfSpaced(ts: seq<Bytes>)
    requires forall i :: 0 <= i < |ts| ==> Word(ts[i])
    ensures Fields(Spaced(ts)) == ts && (ts != [] ==> Fields(Line(ts)) == ts)
  {
    if ts != [] {
      FieldsOfSpaced(ts[1..]);
      var t, rest := ts[0], Spaced(ts[1..]);
      assert rest != [] ==> rest[0] == SPACE;
      hide Fields, Word;
      FieldOf(t, rest);
      SpaceSkipped(t + rest);
      assert Spaced(ts) == [SPACE] + (t + rest);
      assert [t] + ts[1..] == ts;
    }
  }

  // ---- slot ranges ------------------------------------------------------------------------------

  function RenderRange(r: Range): Bytes {
    if r.lo == r.hi then Itoa(r.lo) else Itoa(r.lo) + [MINUS] + Itoa(r.hi)
  }

  function ParseRange(spec: Bytes): Option<Range> {
    var i := IndexOf(spec, MINUS);
    var lo := if i < |spec| then AtoiOf(spec[..i]) else AtoiOf(spec);
    var hi := if i < |spec| then AtoiOf(spec[i + 1..]) else AtoiOf(spec);
    if lo.None? || hi.None? || lo.value < 0 || hi.value >= NUM_SLOTS || lo.value > hi.value then None
    else Some(Range(lo.value, hi.value))
  }

  lemma PlainNumber(n: nat)
    ensures Word(Itoa(n)) && MINUS !in Itoa(n) && OPEN !in Itoa(n)
  {
  }

  /** A range written in the file is read back, and its text is one field that opens no marker. */
  lemma RangeRoundTrip(r: Range)
    requires r.lo <= r.hi < NUM_SLOTS
    ensures ParseRange(RenderRange(r)) == Some(r)
    ensures Word(RenderRange(r)) && RenderRange(r)[0] != OPEN
  {
    hide Itoa, AtoiOf, IndexOf, Word;
    ItoaRoundTrip(r.lo);
    ItoaRoundTrip(r.hi);
    PlainNumber(r.lo);
    PlainNumber(r.hi);
    if r.lo < r.hi { PairText(Itoa(r.lo), Itoa(r.hi)); }
  }

  lemma PairText(lo: Bytes, hi: Bytes)
    requires Word(lo) && Word(hi) && MINUS !in lo
    ensures Word(lo + [MINUS] + hi) && (lo + [MINUS] + hi)[0] == lo[0]
    ensures IndexOf(lo + [MINUS] + hi, MINUS) == |lo|
    ensures (lo + [MINUS] + hi)[..|lo|] == lo && (lo + [MINUS] + hi)[|lo| + 1..] == hi
  {
    hide IndexOf;
    IndexOfIs(lo + [MINUS] + hi, MINUS, |lo|);
  }

  // ---- addresses ------------------------------------------------------------------------------------

  function LastIndexOf(s: Bytes, c: byte): (i: int)
    ensures -1 <= i < |s|
    ensures i >= 0 ==> s[i] == c
    ensures forall j :: i < j < |s| ==> s[j] != c
  {
    if s == [] then -1
    else if s[|s| - 1] == c then |s| - 1
    else LastIndexOf(s[..|s| - 1], c)
  }

  /** net.SplitHostPort: a bracketed host, or one without a colon, then the port. */
  function SplitHostPort(s: Bytes): Option<(Bytes, Bytes)> {
    var i := LastIndexOf(s, COLON);
    if i < 0 then None
    else if s[0] == OPEN then
      var end := IndexOf(s, CLOSE);
      if end + 1 != i || OPEN in s[1..] || CLOSE in s[end + 1..] then None
      else Some((s[1..end], s[i + 1..]))
    else if COLON in s[..i] || OPEN in s || CLOSE in s then None
    else Some((s[..i], s[i + 1..]))
  }

  function RenderAddress(n: Node): Bytes { n.ip + [COLON] + Itoa(n.port) + [AT] + Itoa(n.cport) }

  datatype Address = Address(ip: Bytes, port: int, cport: int)

  function ParseAddress(field: Bytes): Option<Address> {
    var f := field[..IndexOf(field, COMMA)];
    var at := LastIndexOf(f, AT);
    if at < 0 then None
    else
      var cport := AtoiOf(f[at + 1..]);
      var hp := SplitHostPort(f[..at]);
      if cport.None? || hp.None? then None
      else
        var port := AtoiOf(hp.value.1);
        if port.None? then None else Some(Address(hp.value.0, port.value, cport.value))
  }

  /** A host with none of the four characters the address syntax gives a meaning. */
  predicate PlainHost(ip: Bytes) { COMMA !in ip && COLON !in ip && OPEN !in ip && CLOSE !in ip }

  /** The address of a node is read back as written exactly when its host is plain: an IPv6 host, in
      brackets or not, is not. */
  lemma AddressRoundTrip(n: Node)
    requires 0 <= n.port <= MAX_INT && 0 <= n.cport <= MAX_INT
    ensures ParseAddress(RenderAddress(n)) == Some(Address(n.ip, n.port, n.cport)) <==> PlainHost(n.ip)
  {
    hide Itoa, AtoiOf, SplitHostPort;
    var field := RenderAddress(n);
    if COMMA in n.ip {
      CommaCuts(n);
    } else {
      AddressParts(n);
      assert field[..|field|] == field;
      DigitsOnly(n.port);
      SplitOfHost(n.ip, Itoa(n.port));
      ItoaRoundTrip(n.port);
      ItoaRoundTrip(n.cport);
    }
  }

  lemma DigitsOnly(n: nat)
    ensures forall c :: c in Itoa(n) ==> IsDigit(c)
  {
    assert AllDigits(Itoa(n));
  }

  lemma HostInside(s: Bytes)
    ensures SplitHostPort(s).Some? ==> forall c :: c in SplitHostPort(s).value.0 ==> c in s
  {
  }

  /** What follows a comma is taken for a host name and dropped. */
  lemma CommaCuts(n: Node)
    requires COMMA in n.ip
    ensures ParseAddress(RenderAddress(n)) != Some(Address(n.ip, n.port, n.cport))
  {
    hide Itoa, AtoiOf, SplitHostPort;
    var f := RenderAddress(n)[..IndexOf(RenderAddress(n), COMMA)];
    assert COMMA !in f;
    var at := LastIndexOf(f, AT);
    if at >= 0 { HostInside(f[..at]); }
  }

  lemma {:induction false} LastIndexOfIs(a: Bytes, c: byte, b: Bytes)
    requires c !in b
    ensures LastIndexOf(a + [c] + b, c) == |a|
  {
    var s := a + [c] + b;
    if b != [] {
      assert s[|s| - 1] == b[|b| - 1];
      assert s[..|s| - 1] == a + [c] + b[..|b| - 1];
      LastIndexOfIs(a, c, b[..|b| - 1]);
    }
  }

  lemma AddressParts(n: Node)
    requires COMMA !in n.ip && n.port >= 0 && n.cport >= 0
    ensures IndexOf(RenderAddress(n), COMMA) == |RenderAddress(n)|
    ensures var at := LastIndexOf(RenderAddress(n), AT);
            && at >= 0
            && RenderAddress(n)[..at] == n.ip + [COLON] + Itoa(n.port)
            && RenderAddress(n)[at + 1..] == Itoa(n.cport)
  {
    hide Itoa;
    DigitsOnly(n.port);
    DigitsOnly(n.cport);
    var hostPort := n.ip + [COLON] + Itoa(n.port);
    LastIndexOfIs(hostPort, AT, Itoa(n.cport));
    assert RenderAddress(n) == hostPort + [AT] + Itoa(n.cport);
    assert COMMA !in RenderAddress(n);
  }

  lemma SplitOfHost(ip: Bytes, port: Bytes)
    requires forall c :: c in port ==> IsDigit(c)
    ensures var hp := SplitHostPort(ip + [COLON] + port);
            if COLON !in ip && OPEN !in ip && CLOSE !in ip then hp == Some((ip, port))
            else hp.Some? ==> hp.value.0 != ip
  {
    var s := ip + [COLON] + port;
    LastIndexOfIs(ip, COLON, port);
    assert s[..|ip|] == ip && s[|ip| + 1..] == port;
    assert forall c :: c in s <==> c in ip || c == COLON || c in port;
    assert ip != [] ==> s[0] == ip[0];
    assert ip == [] ==> s[0] == COLON;
  }

  // ---- node lines -----------------------------------------------------------------------------------

  /** A slot on the move, as a node's own line shows it. */
  datatype Marker = Marker(slot: nat, outgoing: bool, peer: Bytes)

  function RenderMarker(m: Marker): Bytes {
    [OPEN] + Itoa(m.slot) + (if m.outgoing then [MINUS, GREATER, MINUS] else [MINUS, LESS, MINUS]) + m.peer + [CLOSE]
  }

  function Flags(n: Node): Bytes {
    (if n.myself then MYSELF + [COMMA] else []) + if n.replicaOf != [] then SLAVE else MASTER
  }

  function Specs(rs: seq<Range>): seq<Bytes> { seq(|rs|, i requires 0 <= i < |rs| => RenderRange(rs[i])) }

  function Marks(ms: seq<Marker>): seq<Bytes> { seq(|ms|, i requires 0 <= i < |ms| => RenderMarker(ms[i])) }

  function NodeFields(n: Node): seq<Bytes> {
    [n.id, RenderAddress(n), Flags(n), if n.replicaOf != [] then n.replicaOf else NO_MASTER,
     Itoa(0), Itoa(0), Itoa(n.epoch), CONNECTED]
  }

  function NodeLine(n: Node, rs: seq<Range>, ms: seq<Marker>): Bytes {
    Line(NodeFields(n) + Specs(rs) + Marks(ms))
  }

  predicate Contains(s: Bytes, t: Bytes) { t <= s || (s != [] && Contains(s[1..], t)) }

  lemma {:induction false} MissingByte(s: Bytes, t: Bytes, c: byte)
    requires c !in s && c in t
    ensures !Contains(s, t)
  {
    if s != [] { MissingByte(s[1..], t, c); }
  }

  datatype Parsed = Malformed | Skipped | Entry(node: Node, specs: seq<Bytes>)

  function ParseLine(line: Bytes): Parsed {
    var f := Fields(line);
    if |line| > MAX_LINE then Malformed
    else if f == [] || f[0] == VARS then Skipped
    else if |f| < 8 then Malformed
    else ParseNode(f)
  }

  function ParseNode(f: seq<Bytes>): Parsed
    requires |f| >= 8
  {
    var a, epoch := ParseAddress(f[1]), AtoiOf(f[6]);
    if a.None? || epoch.None? then Malformed
    else
      Entry(Node(f[0], a.value.ip, a.value.port, a.value.cport, if f[3] == NO_MASTER then [] else f[3], epoch.value,
                 Contains(f[2], MYSELF)),
            f[8..])
  }

  /** What a node of the table looks like: an identifier, a printable host, numbers in range. */
  predicate WellFormed(n: Node) {
    && Word(n.id) && n.id != VARS && Printable(n.ip)
    && (n.replicaOf == [] || (Word(n.replicaOf) && n.replicaOf != NO_MASTER))
    && 0 <= n.port <= MAX_INT && 0 <= n.cport <= MAX_INT && 0 <= n.epoch <= MAX_INT
  }

  lemma FlagsTell(n: Node)
    ensures Contains(Flags(n), MYSELF) <==> n.myself
    ensures Word(Flags(n))
  {
    if n.myself {
      assert MYSELF <= Flags(n);
    } else {
      assert MYSELF[1] == 121;
      MissingByte(Flags(n), MYSELF, 121);
    }
  }

  lemma WordsOfNode(n: Node)
    requires WellFormed(n)
    ensures forall i :: 0 <= i < 8 ==> Word(NodeFields(n)[i])
  {
    hide Itoa, Flags;
    FlagsTell(n);
    PlainNumber(n.port);
    PlainNumber(n.cport);
    PlainNumber(n.epoch);
    PlainNumber(0);
  }

  lemma WordOfMarker(m: Marker)
    requires Printable(m.peer)
    ensures Word(RenderMarker(m)) && RenderMarker(m)[0] == OPEN
  {
    hide Itoa;
    PlainNumber(m.slot);
  }

  /** A node's line is read back as that node exactly when its host is plain and the line is no longer
      than the scanner takes; its ranges and markers follow in order. */
  lemma LineRoundTrip(n: Node, rs: seq<Range>, ms: seq<Marker>)
    requires WellFormed(n)
    requires forall j :: 0 <= j < |rs| ==> rs[j].lo <= rs[j].hi < NUM_SLOTS
    requires forall j :: 0 <= j < |ms| ==> Printable(ms[j].peer)
    ensures var p := ParseLine(NodeLine(n, rs, ms));
            if |NodeLine(n, rs, ms)| <= MAX_LINE && PlainHost(n.ip) then p == Entry(n, Specs(rs) + Marks(ms))
            else !p.Skipped? && (p.Entry? ==> p.node.id == n.id && p.node != n)
  {
    hide ParseAddress, RenderAddress, Itoa, AtoiOf, Contains, Flags, Fields, PlainHost, Printable, RenderRange,
         RenderMarker;
    var ts := NodeFields(n) + Specs(rs) + Marks(ms);
    forall i | 0 <= i < |ts| ensures Word(ts[i]) {
      if i < 8 {
        WordsOfNode(n);
      } else if i < 8 + |rs| {
        RangeRoundTrip(rs[i - 8]);
      } else {
        WordOfMarker(ms[i - 8 - |rs|]);
      }
    }
    FieldsOfSpaced(ts);
    assert ts[8..] == Specs(rs) + Marks(ms);
    AddressRoundTrip(n);
    FlagsTell(n);
    ItoaRoundTrip(n.epoch);
  }

  // ---- the whole file -------------------------------------------------------------------------------

  type SlotView = Redirect.SlotView

  /** A node's cluster state: the nodes it knows, the slots, its own identifier, the epoch. */
  datatype Config = Config(nodes: map<Bytes, Node>, table: seq<SlotView>, me: Bytes, epoch: nat)

  function OwnersOf(table: seq<SlotView>): (r: Owners<Bytes>)
    ensures |r| == |table|
  {
    seq(|table|, i requires 0 <= i < |table| => table[i].owner)
  }

  /** Slots with these owners and none of them on the move. */
  function AtRest(owners: Owners<Bytes>): seq<SlotView> {
    seq(|owners|, i requires 0 <= i < |owners| => Redirect.SlotView(owners[i], None, None))
  }

  /** The markers of one slot, and of all slots in order. */
  function SlotMarks(i: nat, v: SlotView): seq<Marker> {
    (if v.migrating.Some? then [Marker(i, true, v.migrating.value)] else [])
    + (if v.importing.Some? then [Marker(i, false, v.importing.value)] else [])
  }

  function MarkersOf(table: seq<SlotView>): seq<Marker> {
    if table == [] then []
    else MarkersOf(table[..|table| - 1]) + SlotMarks(|table| - 1, table[|table| - 1])
  }

  /** A marker is shown exactly when the table says so. */
  lemma {:induction false} MarkersTell(table: seq<SlotView>, m: Marker)
    ensures m in MarkersOf(table) <==>
            m.slot < |table| && Some(m.peer) == if m.outgoing then table[m.slot].migrating else table[m.slot].importing
  {
    if table != [] { MarkersTell(table[..|table| - 1], m); }
  }

  method OpenSlots(table: seq<SlotView>) returns (marks: seq<Marker>)
    ensures marks == MarkersOf(table)
  {
    marks := [];
    for i := 0 to |table|
      invariant marks == MarkersOf(table[..i])
    {
      assert table[..i + 1][..i] == table[..i];
      if table[i].migrating.Some? { marks := marks + [Marker(i, true, table[i].migrating.value)]; }
      if table[i].importing.Some? { marks := marks + [Marker(i, false, table[i].importing.value)]; }
    }
    assert table[..|table|] == table;
  }

  /** The entries of a file, or nothing when a line is malformed. */
  function ParseAll(lines: seq<Bytes>): Option<seq<Parsed>> {
    if lines == [] then Some([])
    else
      var before, p := ParseAll(lines[..|lines| - 1]), ParseLine(lines[|lines| - 1]);
      if before.None? || p.Malformed? then None
      else if p.Skipped? then before
      else Some(before.value + [p])
  }

  predicate AreEntries(es: seq<Parsed>) { forall i :: 0 <= i < |es| ==> es[i].Entry? }

  function NodesOf(es: seq<Parsed>): map<Bytes, Node>
    requires AreEntries(es)
  {
    if es == [] then map[]
    else
      var n := es[|es| - 1].node;
      NodesOf(es[..|es| - 1])[n.id := n]
  }

  function MeOf(es: seq<Parsed>): Bytes
    requires AreEntries(es)
  {
    if es == [] then []
    else
      var n := es[|es| - 1].node;
      if n.myself then n.id else MeOf(es[..|es| - 1])
  }

  function SetRange(t: Owners<Bytes>, r: Range, id: Bytes): (u: Owners<Bytes>)
    ensures |u| == |t|
  {
    seq(|t|, i requires 0 <= i < |t| => if Covers(r, i) then Some(id) else t[i])
  }

  /** The table after one entry's specifications; a migration marker is passed over. */
  function Fill(t: Owners<Bytes>, id: Bytes, specs: seq<Bytes>): Option<Owners<Bytes>> {
    if specs == [] then Some(t)
    else
      var before, spec := Fill(t, id, specs[..|specs| - 1]), specs[|specs| - 1];
      if before.None? then None
      else if spec != [] && spec[0] == OPEN then before
      else
        var r := ParseRange(spec);
        if r.None? then None else Some(SetRange(before.value, r.value, id))
  }

  function FillAll(es: seq<Parsed>): Option<Owners<Bytes>>
    requires AreEntries(es)
  {
    if es == [] then Some(seq(NUM_SLOTS, _ => None))
    else
      var before, e := FillAll(es[..|es| - 1]), es[|es| - 1];
      if before.None? then None else Fill(before.value, e.node.id, e.specs)
  }

  lemma {:induction false} ParsedAreEntries(lines: seq<Bytes>)
    ensures ParseAll(lines).Some? ==> AreEntries(ParseAll(lines).value)
  {
    hide ParseLine;
    if lines != [] { ParsedAreEntries(lines[..|lines| - 1]); }
  }

  function Load(lines: seq<Bytes>): Option<Config> {
    ParsedAreEntries(lines);
    var es := ParseAll(lines);
    if es.None? then None
    else
      var t := FillAll(es.value);
      if t.None? then None else Some(Config(NodesOf(es.value), AtRest(t.value), MeOf(es.value), 0))
  }

  // ---- saving, then loading -------------------------------------------------------------------------

  /** A node of the table and what its line shows beside it. */
  datatype Saved = Saved(node: Node, ranges: seq<Range>, marks: seq<Marker>)

  function LineOf(v: Saved): Bytes { NodeLine(v.node, v.ranges, v.marks) }

  const CURRENT_EPOCH: Bytes := [99, 117, 114, 114, 101, 110, 116, 69, 112, 111, 99, 104]
  const LAST_VOTE_EPOCH: Bytes := [108, 97, 115, 116, 86, 111, 116, 101, 69, 112, 111, 99, 104]

  function VarsLine(epoch: nat): Bytes { Line([VARS, CURRENT_EPOCH, Itoa(epoch), LAST_VOTE_EPOCH, Itoa(0)]) }

  function NodeLines(vs: seq<Saved>): seq<Bytes> { seq(|vs|, i requires 0 <= i < |vs| => LineOf(vs[i])) }

  function SavedFile(vs: seq<Saved>, epoch: nat): seq<Bytes> { NodeLines(vs) + [VarsLine(epoch)] }

  ghost predicate WellSaved(v: Saved, owners: Owners<Bytes>) {
    && WellFormed(v.node)
    && RangesOf(v.ranges, owners, v.node.id)
    && forall j :: 0 <= j < |v.marks| ==> Printable(v.marks[j].peer)
  }

  /** A table and its nodes, this node first, as they are saved. */
  ghost predicate Table(vs: seq<Saved>, owners: Owners<Bytes>) {
    && |owners| == NUM_SLOTS
    && vs != [] && (forall i :: 0 <= i < |vs| ==> vs[i].node.myself == (i == 0))
    && (forall i :: 0 <= i < |vs| ==> WellSaved(vs[i], owners))
    && (forall i, j :: 0 <= i < j < |vs| ==> vs[i].node.id != vs[j].node.id)
    && (forall s :: 0 <= s < NUM_SLOTS && owners[s].Some? ==> Known(vs, owners[s].value))
  }

  ghost predicate Known(vs: seq<Saved>, id: Bytes) { exists i :: 0 <= i < |vs| && vs[i].node.id == id }

  /** The line can be read back: a host without , : [ ] and a line within the scanner's limit. */
  predicate Readable(v: Saved) { PlainHost(v.node.ip) && |LineOf(v)| <= MAX_LINE }

  /** A line is read as the node it was written for, or as another node of the same name, or not. */
  predicate LineReadsBack(v: Saved, line: Bytes) {
    var p := ParseLine(line);
    if Readable(v) then p == Entry(v.node, Specs(v.ranges) + Marks(v.marks))
    else !p.Skipped? && (p.Entry? ==> p.node.id == v.node.id && p.node != v.node)
  }

  lemma ReadsBack(v: Saved, owners: Owners<Bytes>)
    requires WellSaved(v, owners) && |owners| == NUM_SLOTS
    ensures LineReadsBack(v, LineOf(v))
  {
    hide NodeLine, ParseLine, WellFormed, PlainHost;
    LineRoundTrip(v.node, v.ranges, v.marks);
  }

  lemma {:induction false} ParsesInOrder(lines: seq<Bytes>)
    requires forall i :: 0 <= i < |lines| ==> !ParseLine(lines[i]).Skipped?
    ensures (forall i :: 0 <= i < |lines| ==> ParseLine(lines[i]).Entry?) ==> ParseAll(lines).Some?
    ensures ParseAll(lines).Some? ==>
              && |ParseAll(lines).value| == |lines|
              && forall i :: 0 <= i < |lines| ==>
                   ParseAll(lines).value[i] == ParseLine(lines[i]) && ParseLine(lines[i]).Entry?
  {
    hide ParseLine;
    if lines != [] {
      var init := lines[..|lines| - 1];
      assert forall i :: 0 <= i < |init| ==> init[i] == lines[i];
      ParsesInOrder(init);
    }
  }

  function Power10(k: nat): nat { if k == 0 then 1 else 10 * Power10(k - 1) }

  lemma {:induction false} DigitsLength(n: nat, k: nat)
    requires 0 < k && n < Power10(k)
    ensures |Digits(n)| <= k
  {
    if n >= 10 { DigitsLength(n / 10, k - 1); }
  }

  lemma {:induction false} SpacedLength(ts: seq<Bytes>)
    requires forall i :: 0 <= i < |ts| ==> |ts[i]| <= 19
    ensures |Spaced(ts)| <= 20 * |ts|
  {
    if ts != [] { SpacedLength(ts[1..]); }
  }

  lemma EpochLength(epoch: nat)
    requires epoch <= MAX_INT
    ensures |Itoa(epoch)| <= 19
  {
    assert Power10(6) == 1_000_000;
    assert Power10(12) == 1_000_000_000_000;
    assert Power10(18) == 1_000_000_000_000_000_000;
    DigitsLength(epoch, 19);
  }

  lemma VarsSkipped(epoch: nat)
    requires epoch <= MAX_INT
    ensures ParseLine(VarsLine(epoch)) == Skipped
  {
    hide Itoa, Fields, Spaced;
    var ts := [VARS, CURRENT_EPOCH, Itoa(epoch), LAST_VOTE_EPOCH, Itoa(0)];
    EpochLength(epoch);
    EpochLength(0);
    SpacedLength(ts[1..]);
    PlainNumber(epoch);
    PlainNumber(0);
    assert forall i :: 0 <= i < |ts| ==> Word(ts[i]);
    FieldsOfSpaced(ts);
  }

  /** Entries with distinct identifiers are all in the node map, and nothing else is. */
  lemma {:induction false} NodesAreEntries(es: seq<Parsed>)
    requires AreEntries(es) && forall i, j :: 0 <= i < j < |es| ==> es[i].node.id != es[j].node.id
    ensures forall i :: 0 <= i < |es| ==> es[i].node.id in NodesOf(es) && NodesOf(es)[es[i].node.id] == es[i].node
    ensures forall id :: id in NodesOf(es) ==> exists i :: 0 <= i < |es| && es[i].node.id == id
  {
    if es != [] {
      var init := es[..|es| - 1];
      NodesAreEntries(init);
      forall i | 0 <= i < |es| - 1
        ensures es[i].node.id in NodesOf(es) && NodesOf(es)[es[i].node.id] == es[i].node
      {
        assert init[i] == es[i];
      }
      forall id | id in NodesOf(es) ensures exists i :: 0 <= i < |es| && es[i].node.id == id {
        if id == es[|es| - 1].node.id {
        } else {
          var i :| 0 <= i < |init| && init[i].node.id == id;
          assert es[i] == init[i];
        }
      }
    }
  }

  lemma {:induction false} FirstIsMe(es: seq<Parsed>)
    requires AreEntries(es) && es != [] && forall i :: 0 <= i < |es| ==> es[i].node.myself == (i == 0)
    ensures MeOf(es) == es[0].node.id
    decreases |es|
  {
    if |es| > 1 { FirstIsMe(es[..|es| - 1]); }
  }

  /** The slots of these ranges given to a node, the others as they were. */
  ghost predicate GivenTo(u: Owners<Bytes>, t: Owners<Bytes>, id: Bytes, rs: seq<Range>) {
    |u| == |t| && forall i :: 0 <= i < |t| ==> u[i] == if InSome(rs, i) then Some(id) else t[i]
  }

  lemma GivenMore(u: Owners<Bytes>, t: Owners<Bytes>, id: Bytes, rs: seq<Range>, r: Range)
    requires GivenTo(u, t, id, rs)
    ensures GivenTo(SetRange(u, r, id), t, id, rs + [r])
  {
    hide InSome;
    forall i ensures InSome(rs + [r], i) <==> InSome(rs, i) || Covers(r, i) { InSomeOfMore(rs, r, i); }
  }

  lemma FillOneMore(t: Owners<Bytes>, id: Bytes, specs: seq<Bytes>, spec: Bytes)
    requires Fill(t, id, specs).Some? && ParseRange(spec).Some? && (spec == [] || spec[0] != OPEN)
    ensures Fill(t, id, specs + [spec]) == Some(SetRange(Fill(t, id, specs).value, ParseRange(spec).value, id))
  {
    hide ParseRange, SetRange;
    assert (specs + [spec])[..|specs|] == specs;
  }

  /** A node's ranges give it exactly its slots and leave the others alone. */
  lemma {:induction false} FillRanges(t: Owners<Bytes>, id: Bytes, rs: seq<Range>)
    requires forall j :: 0 <= j < |rs| ==> rs[j].lo <= rs[j].hi < NUM_SLOTS
    ensures var f := Fill(t, id, Specs(rs));
            f.Some? && GivenTo(f.value, t, id, rs)
  {
    if rs != [] {
      hide RenderRange, ParseRange, SetRange, Fill, GivenTo;
      var init, last := rs[..|rs| - 1], rs[|rs| - 1];
      FillRanges(t, id, init);
      RangeRoundTrip(last);
      assert rs == init + [last];
      assert Specs(rs) == Specs(init) + [RenderRange(last)];
      FillOneMore(t, id, Specs(init), RenderRange(last));
      GivenMore(Fill(t, id, Specs(init)).value, t, id, init, last);
    }
  }

  lemma InSomeOfMore(rs: seq<Range>, r: Range, i: int)
    ensures InSome(rs + [r], i) <==> InSome(rs, i) || Covers(r, i)
  {
    var rs' := rs + [r];
    assert rs'[|rs|] == r;
    if InSome(rs, i) {
      var j :| 0 <= j < |rs| && Covers(rs[j], i);
      assert rs'[j] == rs[j];
    }
  }

  lemma {:induction false} MarksIgnored(t: Owners<Bytes>, id: Bytes, specs: seq<Bytes>, marks: seq<Bytes>)
    requires forall j :: 0 <= j < |marks| ==> marks[j] != [] && marks[j][0] == OPEN
    ensures Fill(t, id, specs + marks) == Fill(t, id, specs)
    decreases |marks|
  {
    var all := specs + marks;
    if marks == [] {
      assert all == specs;
    } else {
      hide ParseRange, SetRange;
      MarksIgnored(t, id, specs, marks[..|marks| - 1]);
      assert all[|all| - 1] == marks[|marks| - 1];
      assert all[..|all| - 1] == specs + marks[..|marks| - 1];
    }
  }

  /** The slots of the first nodes, and nothing for the rest. */
  ghost predicate FilledFor(t: Owners<Bytes>, vs: seq<Saved>, owners: Owners<Bytes>, m: nat)
    requires m <= |vs|
  {
    && |t| == |owners|
    && forall i :: 0 <= i < |t| ==>
         t[i] == if owners[i].Some? && Known(vs[..m], owners[i].value) then owners[i] else None
  }

  lemma KnownMore(vs: seq<Saved>, m: nat, id: Bytes)
    requires m < |vs|
    ensures Known(vs[..m + 1], id) <==> Known(vs[..m], id) || id == vs[m].node.id
  {
    if Known(vs[..m], id) {
      var i :| 0 <= i < |vs[..m]| && vs[..m][i].node.id == id;
      assert vs[..m + 1][i] == vs[..m][i];
    }
    assert vs[..m + 1][m] == vs[m];
  }

  lemma FillsOneNode(t: Owners<Bytes>, vs: seq<Saved>, owners: Owners<Bytes>, m: nat)
    requires m < |vs| && |owners| == NUM_SLOTS && WellSaved(vs[m], owners) && FilledFor(t, vs, owners, m)
    ensures var f := Fill(t, vs[m].node.id, Specs(vs[m].ranges) + Marks(vs[m].marks));
            f.Some? && FilledFor(f.value, vs, owners, m + 1)
  {
    hide Fill, Specs, WellFormed, RenderMarker;
    var v := vs[m];
    forall j | 0 <= j < |v.marks| ensures Marks(v.marks)[j] != [] && Marks(v.marks)[j][0] == OPEN {
      WordOfMarker(v.marks[j]);
    }
    MarksIgnored(t, v.node.id, Specs(v.ranges), Marks(v.marks));
    FillRanges(t, v.node.id, v.ranges);
    hide Known;
    forall id ensures Known(vs[..m + 1], id) <==> Known(vs[..m], id) || id == v.node.id { KnownMore(vs, m, id); }
  }

  lemma {:induction false} FillsTable(vs: seq<Saved>, owners: Owners<Bytes>, es: seq<Parsed>, m: nat)
    requires m <= |es| == |vs| && |owners| == NUM_SLOTS && AreEntries(es)
    requires forall i :: 0 <= i < |vs| ==> WellSaved(vs[i], owners)
    requires forall i :: 0 <= i < |vs| ==> es[i] == Entry(vs[i].node, Specs(vs[i].ranges) + Marks(vs[i].marks))
    ensures FillAll(es[..m]).Some? && FilledFor(FillAll(es[..m]).value, vs, owners, m)
  {
    if m == 0 {
      assert es[..0] == [] && vs[..0] == [];
    } else {
      FillsTable(vs, owners, es, m - 1);
      hide Fill, FilledFor, WellSaved;
      FillsOneNode(FillAll(es[..m - 1]).value, vs, owners, m - 1);
      assert es[..m][..m - 1] == es[..m - 1] && es[..m][m - 1] == es[m - 1];
    }
  }

  /** Every node, every owner and this node's identity; no slot on the move, and the epoch of a new
      state. */
  ghost predicate Restores(c: Config, vs: seq<Saved>, owners: Owners<Bytes>)
    requires vs != []
  {
    && c.table == AtRest(owners) && c.epoch == 0
    && c.me == vs[0].node.id
    && (forall i :: 0 <= i < |vs| ==> vs[i].node.id in c.nodes && c.nodes[vs[i].node.id] == vs[i].node)
    && (forall id :: id in c.nodes ==> Known(vs, id))
  }

  /** An entry for a saved node: that node's own if its line can be read back, else another of its name. */
  predicate EntryFor(e: Parsed, v: Saved) {
    && e.Entry? && e.node.id == v.node.id
    && (if Readable(v) then e == Entry(v.node, Specs(v.ranges) + Marks(v.marks)) else e.node != v.node)
  }

  lemma FileEntries(vs: seq<Saved>, owners: Owners<Bytes>, epoch: nat)
    requires Table(vs, owners) && epoch <= MAX_INT
    ensures var es := ParseAll(SavedFile(vs, epoch));
            && ((forall i :: 0 <= i < |vs| ==> Readable(vs[i])) ==> es.Some?)
            && (es.Some? ==> |es.value| == |vs| && forall i :: 0 <= i < |vs| ==> EntryFor(es.value[i], vs[i]))
  {
    hide ParseLine, LineOf, VarsLine, WellSaved, Readable, Specs, Marks;
    var lines, file := NodeLines(vs), SavedFile(vs, epoch);
    forall i | 0 <= i < |vs| ensures LineReadsBack(vs[i], lines[i]) { ReadsBack(vs[i], owners); }
    ParsesInOrder(lines);
    VarsSkipped(epoch);
    assert file[..|lines|] == lines;
  }

  /** Loading these lines restores the nodes and owners exactly when every line can be read back. */
  lemma SaveThenLoad(vs: seq<Saved>, owners: Owners<Bytes>, epoch: nat)
    requires Table(vs, owners) && epoch <= MAX_INT
    ensures var c := Load(SavedFile(vs, epoch));
            (c.Some? && Restores(c.value, vs, owners)) <==> forall i :: 0 <= i < |vs| ==> Readable(vs[i])
  {
    hide ParseAll, SavedFile, WellSaved, Readable, Specs, Marks, FillAll, NodesOf, MeOf;
    var file := SavedFile(vs, epoch);
    FileEntries(vs, owners, epoch);
    ParsedAreEntries(file);
    if ParseAll(file).Some? {
      var es := ParseAll(file).value;
      NodesAreEntries(es);
      if forall i :: 0 <= i < |vs| ==> Readable(vs[i]) {
        RestoredFrom(vs, owners, es);
      }
    }
  }

  lemma FilledIsTable(t: Owners<Bytes>, vs: seq<Saved>, owners: Owners<Bytes>)
    requires Table(vs, owners) && FilledFor(t, vs, owners, |vs|)
    ensures t == owners
  {
    hide WellSaved, Known;
    assert vs[..|vs|] == vs;
  }

  lemma RestoredFrom(vs: seq<Saved>, owners: Owners<Bytes>, es: seq<Parsed>)
    requires Table(vs, owners) && |es| == |vs| && AreEntries(es)
    requires forall i :: 0 <= i < |vs| ==> es[i] == Entry(vs[i].node, Specs(vs[i].ranges) + Marks(vs[i].marks))
    ensures FillAll(es) == Some(owners) && Restores(Config(NodesOf(es), AtRest(owners), MeOf(es), 0), vs, owners)
  {
    hide WellSaved, Specs, Marks, FillAll, NodesOf, MeOf, FilledFor;
    FillsTable(vs, owners, es, |es|);
    assert es[..|es|] == es;
    FilledIsTable(FillAll(es).value, vs, owners);
    FirstIsMe(es);
    NodesAreEntries(es);
  }

  /** The host of an IPv6 node is not read back. */
  lemma Ipv6HostIsLost(n: Node)
    requires n.ip == [COLON, COLON, 49] && 0 <= n.port <= MAX_INT && 0 <= n.cport <= MAX_INT
    ensures ParseAddress(RenderAddress(n)) != Some(Address(n.ip, n.port, n.cport))
  {
    hide ParseAddress, RenderAddress;
    AddressRoundTrip(n);
    assert n.ip[0] == COLON;
  }

  lemma {:induction false} SpacedAtLeast(ts: seq<Bytes>)
    requires forall i :: 0 <= i < |ts| ==> |ts[i]| >= 46
    ensures |Spaced(ts)| >= 47 * |ts|
  {
    if ts != [] { SpacedAtLeast(ts[1..]); }
  }

  lemma {:induction false} SpacedAppend(a: seq<Bytes>, b: seq<Bytes>)
    ensures Spaced(a + b) == Spaced(a) + Spaced(b)
  {
    if a == [] {
      assert a + b == b;
    } else {
      assert (a + b)[1..] == a[1..] + b;
      SpacedAppend(a[1..], b);
    }
  }

  /** Nor is the line of a node with too many slots on the move at once, with 40-byte identifiers. */
  lemma ManyMarkersAreLost(v: Saved)
    requires |v.marks| >= 1400 && forall j :: 0 <= j < |v.marks| ==> |v.marks[j].peer| == 40
    ensures !Readable(v)
  {
    hide Spaced, Specs, PlainHost, RenderAddress, Flags, Itoa;
    var head, tail := NodeFields(v.node) + Specs(v.ranges), Marks(v.marks);
    assert (head + tail)[1..] == head[1..] + tail;
    SpacedAppend(head[1..], tail);
    SpacedAtLeast(tail);
  }

  // ---- the two passes -------------------------------------------------------------------------------

  /** A node of the table beside what its line has to show: its own ranges, and the markers on this
      node's line only. */
  ghost predicate ShownAs(v: Saved, n: Node, table: seq<SlotView>) {
    v.node == n && RangesOf(v.ranges, OwnersOf(table), n.id) && v.marks == if n.myself then MarkersOf(table) else []
  }

  ghost predicate AllShownAs(vs: seq<Saved>, nodes: seq<Node>, table: seq<SlotView>) {
    |vs| == |nodes| && forall i :: 0 <= i < |nodes| ==> ShownAs(vs[i], nodes[i], table)
  }

  ghost predicate FileOf(file: seq<Bytes>, nodes: seq<Node>, table: seq<SlotView>, epoch: nat) {
    exists vs: seq<Saved> :: file == SavedFile(vs, epoch) && AllShownAs(vs, nodes, table)
  }

  /** The file of a table: a line for each node, the ranges it owns and, on this node's line, the slots
      on the move, each in one pass over the table. */
  method SaveConfig(nodes: seq<Node>, table: seq<SlotView>, epoch: nat) returns (file: seq<Bytes>)
    ensures FileOf(file, nodes, table, epoch)
  {
    hide NodeLine, RangesOf, OwnersOf, MarkersOf;
    file := [];
    ghost var vs: seq<Saved> := [];
    for i := 0 to |nodes|
      invariant file == NodeLines(vs) && |vs| == i
      invariant AllShownAs(vs, nodes[..i], table)
    {
      var ranges := OwnedSlots(OwnersOf(table), nodes[i].id);
      var marks: seq<Marker> := [];
      if nodes[i].myself { marks := OpenSlots(table); }
      file := file + [NodeLine(nodes[i], ranges, marks)];
      vs := vs + [Saved(nodes[i], ranges, marks)];
    }
    assert nodes[..|nodes|] == nodes;
    file := file + [VarsLine(epoch)];
    assert file == SavedFile(vs, epoch);
  }

  // ---- what a restart brings back -------------------------------------------------------------------

  ghost predicate Lists(nodes: seq<Node>, id: Bytes) { exists i :: 0 <= i < |nodes| && nodes[i].id == id }

  ghost predicate ListsAll(nodes: seq<Node>, v: SlotView) {
    && (v.owner.Some? ==> Lists(nodes, v.owner.value))
    && (v.migrating.Some? ==> Lists(nodes, v.migrating.value))
    && (v.importing.Some? ==> Lists(nodes, v.importing.value))
  }

  /** A cluster state and its nodes in saving order: this node first, and every slot naming only
      nodes the state knows. */
  ghost predicate Coherent(c: Config, nodes: seq<Node>) {
    && |c.table| == NUM_SLOTS && c.epoch <= MAX_INT && nodes != [] && nodes[0].id == c.me
    && (forall i :: 0 <= i < |nodes| ==> nodes[i].myself == (i == 0) && WellFormed(nodes[i]))
    && (forall i, j :: 0 <= i < j < |nodes| ==> nodes[i].id != nodes[j].id)
    && (forall i :: 0 <= i < |nodes| ==> nodes[i].id in c.nodes && c.nodes[nodes[i].id] == nodes[i])
    && (forall id :: id in c.nodes ==> Lists(nodes, id))
    && (forall s :: 0 <= s < NUM_SLOTS ==> ListsAll(nodes, c.table[s]))
  }

  /** The state without its transient part. */
  function Settled(c: Config): Config { c.(table := AtRest(OwnersOf(c.table)), epoch := 0) }

  lemma MarkersPrintable(c: Config, nodes: seq<Node>)
    requires Coherent(c, nodes)
    ensures forall j :: 0 <= j < |MarkersOf(c.table)| ==> Printable(MarkersOf(c.table)[j].peer)
  {
    hide MarkersOf, Printable;
    var ms := MarkersOf(c.table);
    forall j | 0 <= j < |ms| ensures Printable(ms[j].peer) {
      MarkersTell(c.table, ms[j]);
      assert ListsAll(nodes, c.table[ms[j].slot]);
      assert Lists(nodes, ms[j].peer);
    }
  }

  lemma SavedAsTable(c: Config, nodes: seq<Node>, vs: seq<Saved>)
    requires Coherent(c, nodes) && AllShownAs(vs, nodes, c.table)
    ensures Table(vs, OwnersOf(c.table))
  {
    hide MarkersOf, Printable, WellFormed, RangesOf;
    MarkersPrintable(c, nodes);
    forall i | 0 <= i < |vs| ensures WellSaved(vs[i], OwnersOf(c.table)) { assert ShownAs(vs[i], nodes[i], c.table); }
    forall s | 0 <= s < NUM_SLOTS && OwnersOf(c.table)[s].Some? ensures Known(vs, OwnersOf(c.table)[s].value) {
      assert ListsAll(nodes, c.table[s]);
      var i :| 0 <= i < |nodes| && nodes[i].id == c.table[s].owner.value;
      assert ShownAs(vs[i], nodes[i], c.table);
    }
  }

  lemma RestoresSettled(c: Config, nodes: seq<Node>, vs: seq<Saved>, d: Config)
    requires Coherent(c, nodes) && AllShownAs(vs, nodes, c.table)
    ensures Restores(d, vs, OwnersOf(c.table)) <==> d == Settled(c)
  {
    hide MarkersOf, WellFormed, RangesOf, OwnersOf, AtRest, ListsAll;
    forall i | 0 <= i < |nodes| ensures vs[i].node == nodes[i] { assert ShownAs(vs[i], nodes[i], c.table); }
    forall id ensures Known(vs, id) <==> Lists(nodes, id) {
      if Known(vs, id) {
        var i :| 0 <= i < |vs| && vs[i].node.id == id;
        assert nodes[i].id == id;
      }
      if Lists(nodes, id) {
        var i :| 0 <= i < |nodes| && nodes[i].id == id;
        assert vs[i].node.id == id;
      }
    }
    SameNodes(c.nodes, d.nodes, nodes);
  }

  lemma SameNodes(m: map<Bytes, Node>, m': map<Bytes, Node>, nodes: seq<Node>)
    requires forall i :: 0 <= i < |nodes| ==> nodes[i].id in m && m[nodes[i].id] == nodes[i]
    requires forall id :: id in m ==> Lists(nodes, id)
    ensures m' == m <==>
            && (forall i :: 0 <= i < |nodes| ==> nodes[i].id in m' && m'[nodes[i].id] == nodes[i])
            && (forall id :: id in m' ==> Lists(nodes, id))
  {
  }

  /** Loading the file that was saved gives back the nodes, the owners and this node's identity, with
      no slot on the move and the epoch of a new state, exactly when every host is plain and every
      line within the scanner's limit; the whole state, exactly when besides there was nothing more. */
  lemma LoadsWhatWasSaved(c: Config, nodes: seq<Node>, file: seq<Bytes>)
    requires Coherent(c, nodes) && FileOf(file, nodes, c.table, c.epoch)
    ensures |file| == |nodes| + 1
    ensures Load(file) == Some(Settled(c)) <==>
            forall i :: 0 <= i < |nodes| ==> PlainHost(nodes[i].ip) && |file[i]| <= MAX_LINE
    ensures Load(file) == Some(c) <==> Load(file) == Some(Settled(c)) && Settled(c) == c
  {
    hide Load, MarkersOf, WellFormed, RangesOf, OwnersOf, AtRest, PlainHost, LineOf, VarsLine, Table, Restores,
         ListsAll;
    var vs :| file == SavedFile(vs, c.epoch) && AllShownAs(vs, nodes, c.table);
    SavedAsTable(c, nodes, vs);
    SaveThenLoad(vs, OwnersOf(c.table), c.epoch);
    forall i | 0 <= i < |nodes| ensures Readable(vs[i]) <==> PlainHost(nodes[i].ip) && |file[i]| <= MAX_LINE {
      assert ShownAs(vs[i], nodes[i], c.table);
    }
    if Load(file).Some? {
      RestoresSettled(c, nodes, vs, Load(file).value);
      LoadedIsSettled(file);
    }
  }

  lemma LoadedIsSettled(lines: seq<Bytes>)
    ensures Load(lines).Some? ==> Settled(Load(lines).value) == Load(lines).value
  {
    hide ParseAll, FillAll, NodesOf, MeOf;
    ParsedAreEntries(lines);
    if Load(lines).Some? {
      var owners := FillAll(ParseAll(lines).value).value;
      assert OwnersOf(AtRest(owners)) == owners;
    }
  }

  lemma {:induction false} MalformedStops(lines: seq<Bytes>, m: nat)
    requires m <= |lines| && ParseAll(lines[..m]).None?
    ensures ParseAll(lines).None?
    decreases |lines| - m
  {
    hide ParseLine;
    if m == |lines| {
      assert lines[..m] == lines;
    } else {
      assert lines[..m + 1][..m] == lines[..m];
      MalformedStops(lines, m + 1);
    }
  }

  lemma {:induction false} BadSpecStops(t: Owners<Bytes>, id: Bytes, specs: seq<Bytes>, m: nat)
    requires m <= |specs| && Fill(t, id, specs[..m]).None?
    ensures Fill(t, id, specs).None?
    decreases |specs| - m
  {
    hide ParseRange, SetRange;
    if m == |specs| {
      assert specs[..m] == specs;
    } else {
      assert specs[..m + 1][..m] == specs[..m];
      BadSpecStops(t, id, specs, m + 1);
    }
  }

  lemma {:induction false} BadEntryStops(es: seq<Parsed>, m: nat)
    requires AreEntries(es) && m <= |es| && FillAll(es[..m]).None?
    ensures FillAll(es).None?
    decreases |es| - m
  {
    hide Fill;
    if m == |es| {
      assert es[..m] == es;
    } else {
      assert es[..m + 1][..m] == es[..m];
      BadEntryStops(es, m + 1);
    }
  }

  method ParseFile(lines: seq<Bytes>) returns (r: Option<seq<Parsed>>, me: Bytes)
    ensures r == ParseAll(lines)
    ensures r.Some? ==> AreEntries(r.value) && me == MeOf(r.value)
  {
    hide ParseLine;
    var es: seq<Parsed> := [];
    me := [];
    for i := 0 to |lines|
      invariant ParseAll(lines[..i]) == Some(es) && AreEntries(es) && me == MeOf(es)
    {
      assert lines[..i + 1][..i] == lines[..i];
      var p := ParseLine(lines[i]);
      if p.Malformed? {
        MalformedStops(lines, i + 1);
        return None, me;
      }
      if p.Entry? {
        if p.node.myself { me := p.node.id; }
        assert (es + [p])[..|es|] == es;
        es := es + [p];
      }
    }
    assert lines[..|lines|] == lines;
    return Some(es), me;
  }

  method FillEntry(t: Owners<Bytes>, id: Bytes, specs: seq<Bytes>) returns (r: Option<Owners<Bytes>>)
    ensures r == Fill(t, id, specs)
  {
    hide ParseRange, SetRange;
    var u := t;
    for i := 0 to |specs|
      invariant Fill(t, id, specs[..i]) == Some(u)
    {
      assert specs[..i + 1][..i] == specs[..i];
      if |specs[i]| > 0 && specs[i][0] == OPEN { continue; }
      var range := ParseRange(specs[i]);
      if range.None? {
        BadSpecStops(t, id, specs, i + 1);
        return None;
      }
      u := SetRange(u, range.value, id);
    }
    assert specs[..|specs|] == specs;
    return Some(u);
  }

  /** Nodes first, then slots: an owner has to exist before a slot can name it. */
  method LoadConfig(lines: seq<Bytes>) returns (c: Option<Config>)
    ensures c == Load(lines)
  {
    hide ParseAll, Fill;
    var parsed, me := ParseFile(lines);
    if parsed.None? { return None; }
    var es := parsed.value;
    var nodes: map<Bytes, Node> := map[];
    for i := 0 to |es|
      invariant nodes == NodesOf(es[..i])
    {
      assert es[..i + 1][..i] == es[..i];
      nodes := nodes[es[i].node.id := es[i].node];
    }
    var t: Owners<Bytes> := seq(NUM_SLOTS, _ => None);
    for i := 0 to |es|
      invariant FillAll(es[..i]) == Some(t)
    {
      assert es[..i + 1][..i] == es[..i];
      var u := FillEntry(t, es[i].node.id, es[i].specs);
      if u.None? {
        BadEntryStops(es, i + 1);
        return None;
      }
      t := u.value;
    }
    assert es[..|es|] == es;
    return Some(Config(nodes, AtRest(t), me, 0));
  }
}
