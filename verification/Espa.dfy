/** The ESPA 4.4.4 receiver (internal/espa/espa444.go): a session over a byte stream of polls, filler and
    check-summed data blocks, and the parser that turns a "call to pager" block into an event.

    `Session` is the receiver on values.  It is compared with a grammar of the stream: every byte stream
    is a list of items and an unfinished tail, and the receiver answers item by item. */
module Espa {

  type byte = bv8

  const SOH: byte := 0x01
  const STX: byte := 0x02
  const ETX: byte := 0x03
  const ENQ: byte := 0x05
  const ACK: byte := 0x06
  const NAK: byte := 0x15
  const RS: byte := 0x1E
  const US: byte := 0x1F
  const CALL_TO_PAGER: byte := 0x31

  const MAX_FRAME_BYTES := 65536
  const MAX_SUMMARY_BYTES := 512
  const MAX_LABEL_BYTES := 200

  /** Text as it travels: ISO 8859-1, one byte a character. */
  type Latin1 = seq<byte>

  /** Text as it is stored: UTF-8. */
  type Utf8 = seq<byte>

  const CALL_ADDRESS: Latin1 := [0x31]
  const DISPLAY_MESSAGE: Latin1 := [0x32]
  const BEEP_CODING: Latin1 := [0x33]
  const CALL_TYPE: Latin1 := [0x34]
  const PRIORITY: Latin1 := [0x36]

  // ---- block check ------------------------------------------------------------------------------

  function Xor(body: seq<byte>): byte {
    if body == [] then 0 else Xor(body[..|body| - 1]) ^ body[|body| - 1]
  }

  method XorBcc(body: seq<byte>) returns (bcc: byte)
    ensures bcc == Xor(body)
  {
    bcc := 0;
    for i := 0 to |body|
      invariant bcc == Xor(body[..i])
    {
      assert body[..i + 1][..i] == body[..i];
      bcc := bcc ^ body[i];
    }
    assert body[..|body|] == body;
  }

  lemma {:induction false} XorOfParts(a: seq<byte>, b: seq<byte>)
    ensures Xor(a + b) == Xor(a) ^ Xor(b)
  {
    if b == [] {
      assert a + b == a;
    } else {
      var init, last := b[..|b| - 1], b[|b| - 1];
      assert (a + b)[..|a + b| - 1] == a + init;
      XorOfParts(a, init);
      XorAssociates(Xor(a), Xor(init), last);
    }
  }

  lemma XorAssociates(x: byte, y: byte, z: byte)
    ensures (x ^ y) ^ z == x ^ (y ^ z)
  {}

  lemma XorCancels(x: byte, y: byte, before: byte, after: byte)
    requires x != y
    ensures (before ^ x) ^ after != (before ^ y) ^ after
  {}

  lemma XorOfOneMore(a: seq<byte>, x: byte)
    ensures Xor(a + [x]) == Xor(a) ^ x
  {
    assert (a + [x])[..|a|] == a;
  }

  lemma XorAround(a: seq<byte>, x: byte, b: seq<byte>)
    ensures Xor(a + [x] + b) == (Xor(a) ^ x) ^ Xor(b)
  {
    hide *;
    XorOfParts(a + [x], b);
    XorOfOneMore(a, x);
  }

  /** Replacing one byte by another always changes the check. */
  lemma OneByteChangesXor(body: seq<byte>, i: nat, y: byte)
    requires i < |body| && body[i] != y
    ensures Xor(body[i := y]) != Xor(body)
  {
    hide *;
    var a, b := body[..i], body[i + 1..];
    assert body == a + [body[i]] + b;
    assert body[i := y] == a + [y] + b;
    XorAround(a, body[i], b);
    XorAround(a, y, b);
    XorCancels(body[i], y, Xor(a), Xor(b));
  }

  // ---- reading a block --------------------------------------------------------------------------

  /** `rest` is what follows the check byte. */
  datatype Block = Block(body: seq<byte>, bcc: byte, rest: seq<byte>) | Truncated | TooLarge

  /** Reads a block of which `taken` bytes have been consumed already. */
  function ReadFrom(input: seq<byte>, taken: seq<byte>): Block {
    if input == [] then Truncated
    else
      var body := taken + [input[0]];
      if input[0] == ETX then
        if |input| == 1 then Truncated else Block(body, input[1], input[2..])
      else if |body| > MAX_FRAME_BYTES then TooLarge
      else ReadFrom(input[1..], body)
  }

  method ReadBlock(input: seq<byte>, start: nat) returns (block: Block)
    requires start <= |input|
    ensures block == ReadFrom(input[start..], [])
  {
    var pos := start;
    var body: seq<byte> := [];
    while true
      invariant start <= pos <= |input|
      invariant ReadFrom(input[start..], []) == ReadFrom(input[pos..], body)
      decreases |input| - pos
    {
      if pos == |input| { return Truncated; }
      var b := input[pos];
      assert input[pos..][0] == b && input[pos..][1..] == input[pos + 1..];
      pos := pos + 1;
      body := body + [b];
      if b == ETX { break; }
      if |body| > MAX_FRAME_BYTES { return TooLarge; }
    }
    if pos == |input| { return Truncated; }
    return Block(body, input[pos], input[pos + 1..]);
  }

  // ---- text -------------------------------------------------------------------------------------

  function Utf8Of(s: Latin1): Utf8 {
    if s == [] then []
    else
      var c := s[|s| - 1];
      Utf8Of(s[..|s| - 1]) + if c < 0x80 then [c] else [0xC0 | (c >> 6), 0x80 | (c & 0x3F)]
  }

  const ELLIPSIS: Utf8 := [0xE2, 0x80, 0xA6]

  function Truncate(s: Utf8, n: nat): Utf8 {
    if |s| <= n then s else if n <= 1 then s[..n] else s[..n - 1] + ELLIPSIS
  }

  /** The comment promises at most `n` bytes; a text that is actually cut ends up at `n + 2`. */
  lemma TruncateKeepsCapIff(s: Utf8, n: nat)
    requires n > 1
    ensures |Truncate(s, n)| <= n <==> |s| <= n
    ensures |s| > n ==> |Truncate(s, n)| == n + 2
  {}

  /** White space among the Latin-1 characters. */
  predicate IsSpace(c: byte) { 0x09 <= c <= 0x0D || c == 0x20 || c == 0x85 || c == 0xA0 }

  function TrimSpace(s: Latin1): (t: Latin1)
    ensures t != [] ==> !IsSpace(t[0]) && !IsSpace(t[|t| - 1])
  {
    if s == [] then []
    else if IsSpace(s[0]) then TrimSpace(s[1..])
    else if IsSpace(s[|s| - 1]) then TrimSpace(s[..|s| - 1])
    else s
  }

  predicate Trimmed(s: Latin1) { s != [] && !IsSpace(s[0]) && !IsSpace(s[|s| - 1]) }

  // ---- records ----------------------------------------------------------------------------------

  type Records = map<Latin1, Latin1>

  function IndexOf(s: seq<byte>, c: byte): (i: nat)
    ensures i <= |s|
    ensures c !in s[..i]
    ensures i < |s| ==> s[i] == c
  {
    if s == [] || s[0] == c then 0
    else
      var i := 1 + IndexOf(s[1..], c);
      assert s[..i] == [s[0]] + s[1..][..i - 1];
      i
  }

  /** The pieces between separators; a text without separator is one piece. */
  function Split(s: seq<byte>, c: byte): (parts: seq<seq<byte>>)
    ensures parts != []
    decreases |s|
  {
    var i := IndexOf(s, c);
    if i == |s| then [s] else [s[..i]] + Split(s[i + 1..], c)
  }

  function Join(parts: seq<seq<byte>>, c: byte): seq<byte> {
    if parts == [] then []
    else if |parts| == 1 then parts[0]
    else parts[0] + [c] + Join(parts[1..], c)
  }

  /** The typed content of one piece, if it has any. */
  datatype Field = Untyped | Field(key: Latin1, value: Latin1)

  function FieldOf(rec: seq<byte>): Field {
    var i := IndexOf(rec, US);
    if i == |rec| || TrimSpace(rec[..i]) == [] then Untyped else Field(TrimSpace(rec[..i]), rec[i + 1..])
  }

  /** Later pieces overwrite earlier ones. */
  function Collect(parts: seq<seq<byte>>): Records {
    if parts == [] then map[]
    else
      var before := Collect(parts[..|parts| - 1]);
      match FieldOf(parts[|parts| - 1])
      case Untyped => before
      case Field(key, value) => before[key := value]
  }

  function RecordsOf(data: seq<byte>): Records { Collect(Split(data, RS)) }

  method ParseRecords(data: seq<byte>) returns (records: Records)
    ensures records == RecordsOf(data)
  {
    records := map[];
    var parts := Split(data, RS);
    for k := 0 to |parts|
      invariant records == Collect(parts[..k])
    {
      var rec := parts[k];
      assert parts[..k + 1][..k] == parts[..k];
      if |rec| == 0 { continue; }
      var i := IndexOf(rec, US);
      if i == |rec| { continue; }
      var key := TrimSpace(rec[..i]);
      if |key| == 0 { continue; }
      records := records[key := rec[i + 1..]];
    }
    assert parts[..|parts|] == parts;
  }

  ghost predicate Types(part: seq<byte>, key: Latin1) {
    FieldOf(part).Field? && FieldOf(part).key == key
  }

  ghost function ValueOf(part: seq<byte>): Latin1 { if FieldOf(part).Field? then FieldOf(part).value else [] }

  lemma CollectStep(parts: seq<seq<byte>>, key: Latin1)
    requires parts != []
    ensures var init, last := parts[..|parts| - 1], parts[|parts| - 1];
      && (key in Collect(parts) <==> Types(last, key) || key in Collect(init))
      && (Types(last, key) ==> Collect(parts)[key] == ValueOf(last))
      && (!Types(last, key) && key in Collect(init) ==> Collect(parts)[key] == Collect(init)[key])
  {
    hide FieldOf;
  }

  /** What a key maps to: the value of the last piece typed with it. */
  lemma {:induction false} LastPieceWins(parts: seq<seq<byte>>, key: Latin1)
    ensures key in Collect(parts) <==> exists i :: 0 <= i < |parts| && Types(parts[i], key)
    ensures key in Collect(parts) ==>
      exists i :: 0 <= i < |parts| && Types(parts[i], key) && Collect(parts)[key] == ValueOf(parts[i])
                  && forall j :: i < j < |parts| ==> !Types(parts[j], key)
  {
    hide Collect, Types, ValueOf;
    if parts == [] {
      NothingCollected(key);
    } else {
      var n := |parts| - 1;
      var init, last := parts[..n], parts[n];
      LastPieceWins(init, key);
      CollectStep(parts, key);
      assert forall i :: 0 <= i < n ==> init[i] == parts[i];
      if !Types(last, key) && key in Collect(init) {
        var i :| 0 <= i < n && Types(init[i], key) && Collect(init)[key] == ValueOf(init[i])
                 && forall j :: i < j < n ==> !Types(init[j], key);
        assert Types(parts[i], key) && Collect(parts)[key] == ValueOf(parts[i]);
      }
    }
  }

  lemma NothingCollected(key: Latin1)
    ensures key !in Collect([])
  {}

  // ---- sending records --------------------------------------------------------------------------

  /** A record a sender can put on the wire: neither part runs into a separator that would end it. */
  ghost predicate Sendable(f: Field) {
    && f.Field?
    && Trimmed(f.key) && US !in f.key && RS !in f.key && ETX !in f.key
    && RS !in f.value && ETX !in f.value
  }

  function Wire(f: Field): seq<byte>
    requires f.Field?
  {
    f.key + [US] + f.value
  }

  function WireAll(fs: seq<Field>): seq<seq<byte>>
    requires forall f :: f in fs ==> f.Field?
  {
    if fs == [] then [] else WireAll(fs[..|fs| - 1]) + [Wire(fs[|fs| - 1])]
  }

  ghost predicate DistinctKeys(fs: seq<Field>) {
    forall i, j :: 0 <= i < j < |fs| && fs[i].Field? && fs[j].Field? ==> fs[i].key != fs[j].key
  }

  function AsMap(fs: seq<Field>): Records
    requires forall f :: f in fs ==> f.Field?
  {
    if fs == [] then map[] else AsMap(fs[..|fs| - 1])[fs[|fs| - 1].key := fs[|fs| - 1].value]
  }

  lemma {:induction false} FirstIndex(a: seq<byte>, c: byte, b: seq<byte>)
    requires c !in a
    ensures IndexOf(a + [c] + b, c) == |a|
  {
    if a != [] {
      assert (a + [c] + b)[1..] == a[1..] + [c] + b;
      FirstIndex(a[1..], c, b);
    }
  }

  lemma {:induction false} NoIndex(s: seq<byte>, c: byte)
    requires c !in s
    ensures IndexOf(s, c) == |s|
  {
    if s != [] { NoIndex(s[1..], c); }
  }

  lemma {:induction false} SplitUndoesJoin(parts: seq<seq<byte>>, c: byte)
    requires parts != [] && forall p :: p in parts ==> c !in p
    ensures Split(Join(parts, c), c) == parts
  {
    if |parts| == 1 {
      NoIndex(parts[0], c);
    } else {
      var rest := Join(parts[1..], c);
      FirstIndex(parts[0], c, rest);
      SplitUndoesJoin(parts[1..], c);
      var s := parts[0] + [c] + rest;
      assert s[..|parts[0]|] == parts[0];
      assert s[|parts[0]| + 1..] == rest;
    }
  }

  lemma TrimmedStays(s: Latin1)
    requires Trimmed(s)
    ensures TrimSpace(s) == s
  {}

  lemma FieldOfWire(f: Field)
    requires Sendable(f)
    ensures FieldOf(Wire(f)) == f && RS !in Wire(f) && ETX !in Wire(f)
  {
    FirstIndex(f.key, US, f.value);
    TrimmedStays(f.key);
    assert Wire(f)[..|f.key|] == f.key;
    assert Wire(f)[|f.key| + 1..] == f.value;
  }

  lemma {:induction false} CollectUndoesWire(fs: seq<Field>)
    requires forall f :: f in fs ==> f.Field? && Sendable(f)
    ensures Collect(WireAll(fs)) == AsMap(fs)
    ensures |WireAll(fs)| == |fs| && forall p :: p in WireAll(fs) ==> RS !in p && ETX !in p
  {
    if fs != [] {
      var init, last := fs[..|fs| - 1], fs[|fs| - 1];
      CollectUndoesWire(init);
      FieldOfWire(last);
      assert WireAll(fs)[..|fs| - 1] == WireAll(init);
    }
  }

  /** Parsing undoes encoding, for every list of sendable records; US may occur in values. */
  lemma ParseUndoesEncode(fs: seq<Field>)
    requires forall f :: f in fs ==> f.Field? && Sendable(f)
    ensures RecordsOf(Join(WireAll(fs), RS)) == AsMap(fs)
  {
    CollectUndoesWire(fs);
    if fs == [] {
      NoIndex([], RS);
      NoIndex([], US);
      assert Split([], RS) == [[]];
      var none: seq<byte> := [];
      assert [none][..0] == [];
    } else {
      SplitUndoesJoin(WireAll(fs), RS);
    }
  }

  /** With distinct keys the map holds every record sent and nothing else. */
  lemma {:induction false} AsMapIsExact(fs: seq<Field>)
    requires (forall f :: f in fs ==> f.Field?) && DistinctKeys(fs)
    ensures forall i :: 0 <= i < |fs| ==> fs[i].key in AsMap(fs) && AsMap(fs)[fs[i].key] == fs[i].value
    ensures forall k :: k in AsMap(fs) ==> exists i :: 0 <= i < |fs| && fs[i].key == k
  {
    if fs != [] {
      var init := fs[..|fs| - 1];
      AsMapIsExact(init);
      assert forall i :: 0 <= i < |init| ==> fs[i] == init[i];
    }
  }

  // ---- a block as an event ----------------------------------------------------------------------

  datatype Severity = Critical | Warning | Default

  datatype NormEvent = NormEvent(severity: Severity, summary: Utf8, labels: map<string, Utf8>, records: Records)

  datatype Parsed = NoEvent | Event(event: NormEvent)

  function TextOf(records: Records, key: Latin1): Latin1 {
    if key in records then records[key] else []
  }

  function SeverityOf(priority: Latin1): Severity {
    var p := TrimSpace(priority);
    if p == [0x31] then Critical else if p == [0x32] then Warning else Default
  }

  /** Last byte of the header that is neither a control character nor a blank; 0 when there is none. */
  function HeaderFunction(header: seq<byte>): byte {
    if header == [] then 0
    else if header[|header| - 1] > 0x20 then header[|header| - 1]
    else HeaderFunction(header[..|header| - 1])
  }

  /** "ESPA call" and "ESPA call " in ASCII. */
  const CALL: Utf8 := [0x45, 0x53, 0x50, 0x41, 0x20, 0x63, 0x61, 0x6C, 0x6C]

  function SummaryOf(records: Records): Utf8 {
    var shown := Truncate(Utf8Of(TextOf(records, DISPLAY_MESSAGE)), MAX_SUMMARY_BYTES);
    var address := Utf8Of(TextOf(records, CALL_ADDRESS));
    if shown != [] then shown
    else if address != [] then CALL + [0x20] + address
    else CALL
  }

  function WithLabel(labels: map<string, Utf8>, name: string, value: Utf8): map<string, Utf8> {
    if value == [] then labels else labels[name := Truncate(value, MAX_LABEL_BYTES)]
  }

  function LabelsOf(records: Records): map<string, Utf8> {
    var l1 := WithLabel(map[], "espa.address", Utf8Of(TextOf(records, CALL_ADDRESS)));
    var l2 := WithLabel(l1, "espa.beep", Utf8Of(TextOf(records, BEEP_CODING)));
    var l3 := WithLabel(l2, "espa.callType", Utf8Of(TextOf(records, CALL_TYPE)));
    WithLabel(l3, "espa.priority", Utf8Of(TextOf(records, PRIORITY)))
  }

  function EventOf(records: Records): NormEvent {
    NormEvent(SeverityOf(TextOf(records, PRIORITY)), SummaryOf(records), LabelsOf(records), records)
  }

  function ParseBlock(body: seq<byte>): Parsed {
    var i := IndexOf(body, STX);
    if i == |body| || body[|body| - 1] != ETX then NoEvent
    else
      var fn := HeaderFunction(body[..i]);
      if fn != 0 && fn != CALL_TO_PAGER then NoEvent
      else Event(EventOf(RecordsOf(body[i + 1..|body| - 1])))
  }

  // ---- the session ------------------------------------------------------------------------------

  datatype End = PeerClosed | FrameTooLarge

  /** What a session sends back, what it emits, and why it ends. */
  datatype Outcome = Outcome(replies: seq<byte>, events: seq<NormEvent>, end: End)

  function Emitted(p: Parsed): seq<NormEvent> {
    match p
    case NoEvent => []
    case Event(e) => [e]
  }

  function Before(replies: seq<byte>, events: seq<NormEvent>, o: Outcome): Outcome {
    Outcome(replies + o.replies, events + o.events, o.end)
  }

  lemma {:induction false} BlockIsShorter(input: seq<byte>, taken: seq<byte>)
    ensures var b := ReadFrom(input, taken); b.Block? ==> |b.rest| < |input|
  {
    if input != [] && input[0] != ETX && |taken + [input[0]]| <= MAX_FRAME_BYTES {
      BlockIsShorter(input[1..], taken + [input[0]]);
    }
  }

  function Session(input: seq<byte>): Outcome
    decreases |input|
  {
    if input == [] then Outcome([], [], PeerClosed)
    else if input[0] == ENQ then Before([ACK], [], Session(input[1..]))
    else if input[0] == SOH then
      BlockIsShorter(input[1..], []);
      match ReadFrom(input[1..], [])
      case Truncated => Outcome([], [], PeerClosed)
      case TooLarge => Outcome([], [], FrameTooLarge)
      case Block(body, bcc, rest) =>
        if Xor(body) != bcc then Before([NAK], [], Session(rest))
        else Before([ACK], Emitted(ParseBlock(body)), Session(rest))
    else Session(input[1..])
  }

  method ServeEspa(input: seq<byte>) returns (replies: seq<byte>, events: seq<NormEvent>, end: End)
    ensures Outcome(replies, events, end) == Session(input)
  {
    hide *;
    replies, events, end := [], [], PeerClosed;
    var pos := 0;
    assert input[0..] == input;
    NothingBefore(Session(input));
    while pos < |input|
      invariant 0 <= pos <= |input|
      invariant Session(input) == Before(replies, events, Session(input[pos..]))
    {
      var b := input[pos];
      ghost var rest, replies0, events0 := input[pos..], replies, events;
      assert rest[0] == b && rest[1..] == input[pos + 1..];
      SessionStep(rest);
      BlockIsSuffix(rest[1..], []);
      pos := pos + 1;
      if b == ENQ {
        replies := replies + [ACK];
        BeforeBefore(replies0, events0, [ACK], [], Session(input[pos..]));
      } else if b == SOH {
        var block := ReadBlock(input, pos);
        match block
        case Truncated =>
          BeforeEnd(replies, events, PeerClosed);
          return;
        case TooLarge =>
          end := FrameTooLarge;
          BeforeEnd(replies, events, FrameTooLarge);
          return;
        case Block(body, bcc, left) =>
          pos := |input| - |left|;
          assert input[pos..] == left;
          var check := XorBcc(body);
          if check != bcc {
            replies := replies + [NAK];
            BeforeBefore(replies0, events0, [NAK], [], Session(left));
            continue;
          }
          replies := replies + [ACK];
          var parsed := ParseBlock(body);
          events := events + Emitted(parsed);
          BeforeBefore(replies0, events0, [ACK], Emitted(parsed), Session(left));
      }
    }
    SessionStep(input[pos..]);
    BeforeEnd(replies, events, PeerClosed);
  }

  /** One turn of the receiver. */
  lemma SessionStep(input: seq<byte>)
    ensures input == [] ==> Session(input) == Outcome([], [], PeerClosed)
    ensures input != [] && input[0] == ENQ ==> Session(input) == Before([ACK], [], Session(input[1..]))
    ensures input != [] && input[0] != ENQ && input[0] != SOH ==> Session(input) == Session(input[1..])
    ensures input != [] && input[0] == SOH ==>
      match ReadFrom(input[1..], [])
      case Truncated => Session(input) == Outcome([], [], PeerClosed)
      case TooLarge => Session(input) == Outcome([], [], FrameTooLarge)
      case Block(body, bcc, rest) =>
        Session(input) ==
        if Xor(body) != bcc then Before([NAK], [], Session(rest))
        else Before([ACK], Emitted(ParseBlock(body)), Session(rest))
  {}

  lemma NothingBefore(o: Outcome)
    ensures Before([], [], o) == o
  {}

  lemma BeforeBefore(r: seq<byte>, e: seq<NormEvent>, r': seq<byte>, e': seq<NormEvent>, o: Outcome)
    ensures Before(r, e, Before(r', e', o)) == Before(r + r', e + e', o)
    ensures e + [] == e
  {}

  lemma BeforeEnd(r: seq<byte>, e: seq<NormEvent>, end: End)
    ensures Before(r, e, Outcome([], [], end)) == Outcome(r, e, end)
  {}

  lemma {:induction false} BlockIsSuffix(input: seq<byte>, taken: seq<byte>)
    ensures var b := ReadFrom(input, taken);
      b.Block? ==> |b.rest| < |input| && b.rest == input[|input| - |b.rest|..]
  {
    if input != [] && input[0] != ETX && |taken + [input[0]]| <= MAX_FRAME_BYTES {
      BlockIsSuffix(input[1..], taken + [input[0]]);
    }
  }

  // ---- the stream as a list of items ------------------------------------------------------------

  /** What a peer sends: single bytes between blocks, and blocks with whatever check byte. */
  datatype Item = Filler(b: byte) | Frame(payload: seq<byte>, bcc: byte)

  ghost predicate Proper(i: Item) {
    match i
    case Filler(b) => b != SOH
    case Frame(payload, _) => ETX !in payload && |payload| <= MAX_FRAME_BYTES
  }

  function BytesOf(i: Item): seq<byte> {
    match i
    case Filler(b) => [b]
    case Frame(payload, bcc) => [SOH] + payload + [ETX] + [bcc]
  }

  function Encode(items: seq<Item>): seq<byte> {
    if items == [] then [] else BytesOf(items[0]) + Encode(items[1..])
  }

  /** The answer to one item, whatever surrounds it. */
  function ReplyTo(i: Item): seq<byte> {
    match i
    case Filler(b) => if b == ENQ then [ACK] else []
    case Frame(payload, bcc) => if Xor(payload + [ETX]) == bcc then [ACK] else [NAK]
  }

  function EventsOf(i: Item): seq<NormEvent> {
    match i
    case Filler(_) => []
    case Frame(payload, bcc) =>
      if Xor(payload + [ETX]) == bcc then Emitted(ParseBlock(payload + [ETX])) else []
  }

  function Replies(items: seq<Item>): seq<byte> {
    if items == [] then [] else ReplyTo(items[0]) + Replies(items[1..])
  }

  function Events(items: seq<Item>): seq<NormEvent> {
    if items == [] then [] else EventsOf(items[0]) + Events(items[1..])
  }

  /** What can be left when the peer stops: nothing, or a block that never completes. */
  datatype Tail =
    | Nothing
    | Cut(payload: seq<byte>)
    | NoCheckByte(payload: seq<byte>)
    | Oversized(payload: seq<byte>, more: seq<byte>)

  ghost predicate ProperTail(t: Tail) {
    match t
    case Nothing => true
    case Cut(payload) => ETX !in payload && |payload| <= MAX_FRAME_BYTES
    case NoCheckByte(payload) => ETX !in payload && |payload| <= MAX_FRAME_BYTES
    case Oversized(payload, _) => ETX !in payload && |payload| == MAX_FRAME_BYTES + 1
  }

  function TailBytes(t: Tail): seq<byte> {
    match t
    case Nothing => []
    case Cut(payload) => [SOH] + payload
    case NoCheckByte(payload) => [SOH] + payload + [ETX]
    case Oversized(payload, more) => [SOH] + payload + more
  }

  function EndOf(t: Tail): End { if t.Oversized? then FrameTooLarge else PeerClosed }

  lemma {:induction false} ReadPayload(payload: seq<byte>, rest: seq<byte>, taken: seq<byte>)
    requires ETX !in payload && |taken| + |payload| <= MAX_FRAME_BYTES
    ensures ReadFrom(payload + rest, taken) == ReadFrom(rest, taken + payload)
  {
    if payload == [] {
      assert payload + rest == rest && taken + payload == taken;
    } else {
      var body := taken + [payload[0]];
      assert (payload + rest)[1..] == payload[1..] + rest;
      ReadPayload(payload[1..], rest, body);
      assert body + payload[1..] == taken + payload;
    }
  }

  lemma ReadFrame(payload: seq<byte>, bcc: byte, rest: seq<byte>)
    requires ETX !in payload && |payload| <= MAX_FRAME_BYTES
    ensures ReadFrom(payload + [ETX] + [bcc] + rest, []) == Block(payload + [ETX], bcc, rest)
  {
    var tail := [ETX] + [bcc] + rest;
    assert payload + [ETX] + [bcc] + rest == payload + tail;
    assert [] + payload == payload;
    ReadPayload(payload, tail, []);
    assert tail[2..] == rest;
  }

  lemma ReadTail(t: Tail)
    requires ProperTail(t) && t != Nothing
    ensures ReadFrom(TailBytes(t)[1..], []) == if t.Oversized? then TooLarge else Truncated
  {
    match t
    case Cut(payload) =>
      assert TailBytes(t)[1..] == payload + [];
      ReadPayload(payload, [], []);
    case NoCheckByte(payload) =>
      assert TailBytes(t)[1..] == payload + [ETX];
      ReadPayload(payload, [ETX], []);
    case Oversized(payload, more) =>
      var n := MAX_FRAME_BYTES;
      assert TailBytes(t)[1..] == payload[..n] + ([payload[n]] + more);
      ReadPayload(payload[..n], [payload[n]] + more, []);
      assert [] + payload[..n] == payload[..n];
      assert payload[n] in payload;
  }

  lemma FillerStep(b: byte, rest: seq<byte>)
    requires b != SOH
    ensures Session([b] + rest) == Before(if b == ENQ then [ACK] else [], [], Session(rest))
  {
    var input := [b] + rest;
    assert input[1..] == rest;
    SessionStep(input);
    NothingBefore(Session(rest));
  }

  lemma FrameStep(payload: seq<byte>, bcc: byte, rest: seq<byte>)
    requires ETX !in payload && |payload| <= MAX_FRAME_BYTES
    ensures Session([SOH] + payload + [ETX] + [bcc] + rest) ==
      if Xor(payload + [ETX]) == bcc
      then Before([ACK], Emitted(ParseBlock(payload + [ETX])), Session(rest))
      else Before([NAK], [], Session(rest))
  {
    hide Session, Xor, ParseBlock, ReadFrom, Before, Emitted;
    var input := [SOH] + payload + [ETX] + [bcc] + rest;
    assert input[1..] == payload + [ETX] + [bcc] + rest;
    ReadFrame(payload, bcc, rest);
    SessionStep(input);
  }

  lemma ItemStep(i: Item, rest: seq<byte>)
    requires Proper(i)
    ensures Session(BytesOf(i) + rest) == Before(ReplyTo(i), EventsOf(i), Session(rest))
  {
    hide Session, Xor, ParseBlock, Before, Emitted;
    match i
    case Filler(b) => FillerStep(b, rest);
    case Frame(payload, bcc) => FrameStep(payload, bcc, rest);
  }

  lemma TailStep(t: Tail)
    requires ProperTail(t)
    ensures Session(TailBytes(t)) == Outcome([], [], EndOf(t))
  {
    hide Session, ReadFrom;
    SessionStep(TailBytes(t));
    if t != Nothing { ReadTail(t); }
  }

  /** The receiver answers every item on its own, in order, and ends as the tail says.  No block, whatever
      its check byte, changes how anything after it is read. */
  lemma {:induction false} SessionAnswersItems(items: seq<Item>, tail: Tail)
    requires (forall i :: i in items ==> Proper(i)) && ProperTail(tail)
    ensures Session(Encode(items) + TailBytes(tail)) == Outcome(Replies(items), Events(items), EndOf(tail))
  {
    hide Session, BytesOf, TailBytes, ReplyTo, EventsOf, Proper, ProperTail, EndOf;
    if items == [] {
      assert Encode(items) + TailBytes(tail) == TailBytes(tail);
      TailStep(tail);
    } else {
      var rest := Encode(items[1..]) + TailBytes(tail);
      assert Encode(items) + TailBytes(tail) == BytesOf(items[0]) + rest;
      SessionAnswersItems(items[1..], tail);
      ItemStep(items[0], rest);
    }
  }

  /** How far a block starting here gets. */
  lemma {:induction false} SplitBlock(input: seq<byte>) returns (payload: seq<byte>, rest: seq<byte>)
    ensures input == payload + rest && ETX !in payload && |payload| <= MAX_FRAME_BYTES + 1
    ensures |payload| <= MAX_FRAME_BYTES ==> rest == [] || rest[0] == ETX
  {
    var i := IndexOf(input, ETX);
    var n := if i <= MAX_FRAME_BYTES then i else MAX_FRAME_BYTES + 1;
    payload, rest := input[..n], input[n..];
    assert forall b :: b in payload ==> b in input[..i];
  }

  /** Every byte stream is a list of items and a tail, so the theorem above describes every session. */
  lemma {:induction false} EveryStreamIsItems(input: seq<byte>) returns (items: seq<Item>, tail: Tail)
    ensures input == Encode(items) + TailBytes(tail)
    ensures (forall i :: i in items ==> Proper(i)) && ProperTail(tail)
    decreases |input|
  {
    hide *;
    items, tail := [], Nothing;
    NoItems();
    if input != [] && input[0] != SOH {
      items, tail := EveryStreamIsItems(input[1..]);
      assert input == [input[0]] + input[1..];
      items := Prepend(Filler(input[0]), items, tail);
    } else if input != [] {
      var payload, rest := SplitBlock(input[1..]);
      assert input == [SOH] + payload + rest;
      tail := LastBlock(payload, rest);
      if |payload| <= MAX_FRAME_BYTES && |rest| > 1 {
        items, tail := EveryStreamIsItems(rest[2..]);
        assert rest == [ETX] + [rest[1]] + rest[2..];
        assert input == [SOH] + payload + [ETX] + [rest[1]] + rest[2..];
        items := Prepend(Frame(payload, rest[1]), items, tail);
      }
    }
  }

  lemma NoItems()
    ensures Encode([]) == [] && TailBytes(Nothing) == [] && ProperTail(Nothing)
    ensures forall s: seq<byte> :: [] + s == s
  {}

  lemma LastBlock(payload: seq<byte>, rest: seq<byte>) returns (tail: Tail)
    requires ETX !in payload && |payload| <= MAX_FRAME_BYTES + 1
    requires |payload| <= MAX_FRAME_BYTES ==> rest == [] || rest[0] == ETX
    ensures ProperTail(tail)
    ensures |payload| > MAX_FRAME_BYTES || |rest| <= 1 ==> TailBytes(tail) == [SOH] + payload + rest
  {
    if |payload| > MAX_FRAME_BYTES { return Oversized(payload, rest); }
    if rest == [] {
      assert [SOH] + payload + rest == [SOH] + payload;
      return Cut(payload);
    }
    assert |rest| == 1 ==> rest == [ETX];
    return NoCheckByte(payload);
  }

  lemma Prepend(i: Item, items: seq<Item>, tail: Tail) returns (all: seq<Item>)
    requires match i case Filler(b) => b != SOH case Frame(p, _) => ETX !in p && |p| <= MAX_FRAME_BYTES
    requires forall j :: j in items ==> Proper(j)
    ensures forall j :: j in all ==> Proper(j)
    ensures Encode(all) + TailBytes(tail) ==
      (match i
       case Filler(b) => [b] + (Encode(items) + TailBytes(tail))
       case Frame(p, c) => [SOH] + p + [ETX] + [c] + (Encode(items) + TailBytes(tail)))
  {
    hide TailBytes;
    all := [i] + items;
    assert all[1..] == items;
    assert Encode(all) + TailBytes(tail) == BytesOf(i) + (Encode(items) + TailBytes(tail));
  }

  // ---- corruption and delivery ------------------------------------------------------------------

  lemma UpdateKeepsOut(s: seq<byte>, i: nat, y: byte, c: byte)
    requires i < |s| && c !in s && y != c
    ensures c !in s[i := y]
  {}

  /** A block with a correct check in which one payload byte is replaced (not by ETX) is refused. */
  lemma CorruptBlockIsRefused(payload: seq<byte>, i: nat, y: byte)
    requires i < |payload| && payload[i] != y && y != ETX && ETX !in payload && |payload| <= MAX_FRAME_BYTES
    ensures var bad := Frame(payload[i := y], Xor(payload + [ETX]));
      Proper(bad) && ReplyTo(bad) == [NAK] && EventsOf(bad) == []
  {
    hide Xor, ParseBlock;
    OneByteChangesXor(payload + [ETX], i, y);
    assert (payload + [ETX])[i := y] == payload[i := y] + [ETX];
    UpdateKeepsOut(payload, i, y, ETX);
  }

  /** A call block as a sender builds it: header, STX, the records, and after the payload ETX and check. */
  function CallPayload(header: seq<byte>, fs: seq<Field>): seq<byte>
    requires forall f :: f in fs ==> f.Field?
  {
    header + [STX] + Join(WireAll(fs), RS)
  }

  lemma {:induction false} JoinKeepsOut(parts: seq<seq<byte>>, c: byte, x: byte)
    requires x != c && forall p :: p in parts ==> x !in p
    ensures x !in Join(parts, c)
  {
    if |parts| > 1 { JoinKeepsOut(parts[1..], c, x); }
  }

  lemma PayloadHasNoEnd(header: seq<byte>, fs: seq<Field>)
    requires (forall f :: f in fs ==> f.Field? && Sendable(f)) && ETX !in header
    ensures ETX !in CallPayload(header, fs)
  {
    hide Join, WireAll, Sendable;
    CollectUndoesWire(fs);
    JoinKeepsOut(WireAll(fs), RS, ETX);
  }

  /** One intact block with nothing around it. */
  lemma OneGoodFrame(payload: seq<byte>, e: NormEvent)
    requires ETX !in payload && |payload| <= MAX_FRAME_BYTES && ParseBlock(payload + [ETX]) == Event(e)
    ensures Session([SOH] + payload + [ETX] + [Xor(payload + [ETX])]) == Outcome([ACK], [e], PeerClosed)
  {
    hide Session, Xor, ParseBlock;
    var frame := Frame(payload, Xor(payload + [ETX]));
    SessionAnswersItems([frame], Nothing);
    assert [frame][1..] == [];
    assert Encode([frame]) + TailBytes(Nothing) == [SOH] + payload + [ETX] + [Xor(payload + [ETX])];
  }

  /** Sent as a call, received as an event that carries exactly the records sent. */
  lemma CallIsDelivered(header: seq<byte>, fs: seq<Field>)
    requires forall f :: f in fs ==> f.Field? && Sendable(f)
    requires STX !in header && ETX !in header
    requires HeaderFunction(header) == 0 || HeaderFunction(header) == CALL_TO_PAGER
    requires |CallPayload(header, fs)| <= MAX_FRAME_BYTES
    ensures var payload := CallPayload(header, fs);
      Session([SOH] + payload + [ETX] + [Xor(payload + [ETX])])
      == Outcome([ACK], [EventOf(AsMap(fs))], PeerClosed)
  {
    hide Session, Xor, ParseBlock, EventOf, Sendable, CallPayload, HeaderFunction, AsMap;
    PayloadHasNoEnd(header, fs);
    ParseOfCall(header, fs);
    OneGoodFrame(CallPayload(header, fs), EventOf(AsMap(fs)));
  }

  lemma ParseOfCall(header: seq<byte>, fs: seq<Field>)
    requires forall f :: f in fs ==> f.Field? && Sendable(f)
    requires STX !in header && (HeaderFunction(header) == 0 || HeaderFunction(header) == CALL_TO_PAGER)
    ensures ParseBlock(CallPayload(header, fs) + [ETX]) == Event(EventOf(AsMap(fs)))
  {
    hide Join, WireAll, EventOf, RecordsOf, HeaderFunction;
    var data := Join(WireAll(fs), RS);
    var body := CallPayload(header, fs) + [ETX];
    ParseUndoesEncode(fs);
    assert body == header + [STX] + (data + [ETX]);
    FirstIndex(header, STX, data + [ETX]);
    assert body[..|header|] == header;
    assert body[|header| + 1..|body| - 1] == data;
  }
}
