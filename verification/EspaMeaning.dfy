/** What a paging block becomes (internal/espa/espa444.go): which blocks are calls, and the severity, summary, labels
    and records of the event a call turns into, byte by byte. */
module EspaMeaning {
  import opened Espa

  /** White space is what it is in ISO 8859-1. */
  lemma SpacesAre(c: byte)
    ensures IsSpace(c) <==> c in {0x09, 0x0A, 0x0B, 0x0C, 0x0D, 0x20, 0x85, 0xA0}
  {}

  // ---- text -------------------------------------------------------------------------------------

  ghost predicate Blank(s: Latin1) { forall i :: 0 <= i < |s| ==> IsSpace(s[i]) }

  /** The first and the last character that are not white space. */
  ghost predicate Edges(s: Latin1, i: int, j: int) {
    && 0 <= i <= j < |s| && !IsSpace(s[i]) && !IsSpace(s[j])
    && (forall k :: 0 <= k < i ==> IsSpace(s[k])) && forall k :: j < k < |s| ==> IsSpace(s[k])
  }

  /** `t` is `s` without the white space around it. */
  ghost predicate IsTrim(s: Latin1, t: Latin1) {
    if Blank(s) then t == [] else exists i, j :: Edges(s, i, j) && t == s[i..j + 1]
  }

  lemma {:induction false} TrimMeans(s: Latin1)
    ensures IsTrim(s, TrimSpace(s))
  {
    hide IsSpace, Edges, Blank, IsTrim;
    if s == [] {
      NothingIsBlank();
    } else if IsSpace(s[0]) {
      TrimMeans(s[1..]);
      BlankTail(s);
      if !Blank(s[1..]) {
        var i, j := EdgesOf(s[1..], TrimSpace(s));
        EdgesOfTail(s, i, j);
        TrimAt(s, i + 1, j + 1);
      }
    } else if IsSpace(s[|s| - 1]) {
      TrimMeans(s[..|s| - 1]);
      NotBlank(s);
      var i, j := EdgesOf(s[..|s| - 1], TrimSpace(s));
      EdgesOfInit(s, i, j);
      TrimAt(s, i, j);
    } else {
      NoEdges(s);
      TrimAt(s, 0, |s| - 1);
      assert s[0..|s|] == s;
    }
  }

  lemma NothingIsBlank()
    ensures IsTrim([], [])
  {}

  lemma EdgesOf(s: Latin1, t: Latin1) returns (i: int, j: int)
    requires IsTrim(s, t) && !Blank(s)
    ensures 0 <= i <= j < |s| && Edges(s, i, j) && t == s[i..j + 1]
  {
    i, j :| Edges(s, i, j) && t == s[i..j + 1];
  }

  lemma TrimAt(s: Latin1, i: int, j: int)
    requires Edges(s, i, j)
    ensures 0 <= i <= j < |s| && IsTrim(s, s[i..j + 1])
  {}

  lemma EdgesOfTail(s: Latin1, i: int, j: int)
    requires s != [] && IsSpace(s[0]) && Edges(s[1..], i, j)
    ensures Edges(s, i + 1, j + 1) && s[i + 1..j + 2] == s[1..][i..j + 1]
  {
    hide IsSpace;
    assert forall k :: 1 <= k < |s| ==> s[k] == s[1..][k - 1];
  }

  lemma EdgesOfInit(s: Latin1, i: int, j: int)
    requires s != [] && IsSpace(s[|s| - 1]) && Edges(s[..|s| - 1], i, j)
    ensures Edges(s, i, j) && s[i..j + 1] == s[..|s| - 1][i..j + 1]
  {
    hide IsSpace;
    assert forall k :: 0 <= k < |s| - 1 ==> s[k] == s[..|s| - 1][k];
  }

  lemma NotBlank(s: Latin1)
    requires |s| > 1 && !IsSpace(s[0])
    ensures !Blank(s) && !Blank(s[..|s| - 1])
  {
    assert s[..|s| - 1][0] == s[0];
  }

  lemma NoEdges(s: Latin1)
    requires s != [] && !IsSpace(s[0]) && !IsSpace(s[|s| - 1])
    ensures !Blank(s) && Edges(s, 0, |s| - 1)
  {}

  lemma BlankTail(s: Latin1)
    requires s != [] && IsSpace(s[0])
    ensures Blank(s) <==> Blank(s[1..])
    ensures Blank(s) ==> forall t :: IsTrim(s[1..], t) ==> IsTrim(s, t)
  {
    assert forall k :: 1 <= k < |s| ==> s[k] == s[1..][k - 1];
  }

  /** The text is this one character with white space around it. */
  ghost predicate Says(s: Latin1, c: byte) { IsTrim(s, [c]) }

  lemma EdgesAreUnique(s: Latin1, i: int, j: int, k: int, l: int)
    requires Edges(s, i, j) && Edges(s, k, l)
    ensures i == k && j == l
  {}

  lemma TrimIsUnique(s: Latin1, t: Latin1, u: Latin1)
    requires IsTrim(s, t) && IsTrim(s, u)
    ensures t == u
  {
    if !Blank(s) {
      var i, j :| Edges(s, i, j) && t == s[i..j + 1];
      var k, l :| Edges(s, k, l) && u == s[k..l + 1];
      EdgesAreUnique(s, i, j, k, l);
    }
  }

  /** The UTF-8 form of one Latin-1 character: itself, or a lead and a continuation byte that carry its eight bits. */
  ghost predicate IsUtf8Of(c: byte, u: Utf8) {
    if c < 0x80 then u == [c]
    else
      && |u| == 2 && (u[0] == 0xC2 || u[0] == 0xC3) && 0x80 <= u[1] < 0xC0
      && (c as bv16) == (((u[0] & 0x1F) as bv16) << 6) | ((u[1] & 0x3F) as bv16)
  }

  lemma CharMeans(c: byte)
    ensures IsUtf8Of(c, Utf8Of([c]))
  {
    assert [c][..0] == [];
    assert Utf8Of([c]) == if c < 0x80 then [c] else [0xC0 | (c >> 6), 0x80 | (c & 0x3F)];
  }

  /** Text is converted character by character. */
  lemma {:induction false} Utf8Joins(a: Latin1, b: Latin1)
    ensures Utf8Of(a + b) == Utf8Of(a) + Utf8Of(b)
  {
    if b == [] {
      assert a + b == a;
    } else {
      assert (a + b)[..|a + b| - 1] == a + b[..|b| - 1];
      Utf8Joins(a, b[..|b| - 1]);
    }
  }

  /** A text cut to `n` bytes: as it is if it fits, otherwise its first n - 1 bytes and an ellipsis. */
  ghost predicate IsCutTo(s: Utf8, n: nat, t: Utf8)
    requires n > 1
  {
    if |s| <= n then t == s else t == s[..n - 1] + [0xE2, 0x80, 0xA6]
  }

  // ---- fields -----------------------------------------------------------------------------------

  /** A piece is typed if it has a unit separator (0x1F) with more than white space before the first of them; its key is
      that text without the white space around it, its value all that follows the separator. */
  ghost predicate FieldMeans(rec: seq<byte>, f: Field) {
    if exists i :: FirstAt(rec, 0x1F, i) then
      forall i :: FirstAt(rec, 0x1F, i) ==>
        if Blank(rec[..i]) then f == Untyped
        else f.Field? && f.key != [] && IsTrim(rec[..i], f.key) && f.value == rec[i + 1..]
    else f == Untyped
  }

  ghost predicate FirstAt(s: seq<byte>, c: byte, i: int) { 0 <= i < |s| && s[i] == c && c !in s[..i] }

  lemma OnlyFirst(s: seq<byte>, c: byte, i: int)
    ensures FirstAt(s, c, i) <==> i == IndexOf(s, c) && i < |s|
  {
    var j := IndexOf(s, c);
    assert 0 <= j < i <= |s| ==> s[..i][j] == s[j];
    assert 0 <= i < j <= |s| ==> s[..j][i] == s[i];
  }

  lemma TypedIs(rec: seq<byte>)
    ensures FieldMeans(rec, FieldOf(rec))
  {
    var j := IndexOf(rec, 0x1F);
    forall i ensures FirstAt(rec, 0x1F, i) <==> i == j && i < |rec| { OnlyFirst(rec, 0x1F, i); }
    if j < |rec| {
      assert FirstAt(rec, 0x1F, j);
      TrimMeans(rec[..j]);
      BlankTrims(rec[..j], TrimSpace(rec[..j]));
    }
  }

  lemma BlankTrims(s: Latin1, t: Latin1)
    requires IsTrim(s, t)
    ensures Blank(s) <==> t == []
  {}

  lemma {:induction false} JoinUndoesSplit(s: seq<byte>, c: byte)
    ensures Join(Split(s, c), c) == s && forall p :: p in Split(s, c) ==> c !in p
    decreases |s|
  {
    var i := IndexOf(s, c);
    if i < |s| {
      JoinUndoesSplit(s[i + 1..], c);
      assert Split(s, c)[1..] == Split(s[i + 1..], c);
      assert s == s[..i] + [c] + s[i + 1..];
    }
  }

  /** The records are those of the pieces between record separators (0x1E): a key has the value of the last piece typed
      with it. */
  lemma RecordsMean(data: seq<byte>, pieces: seq<seq<byte>>, key: Latin1)
    requires pieces != [] && Join(pieces, 0x1E) == data && forall p: seq<byte> :: p in pieces ==> 0x1E !in p
    ensures RecordsOf(data) == Collect(pieces)
    ensures key in RecordsOf(data) <==> exists i :: 0 <= i < |pieces| && Types(pieces[i], key)
  {
    SplitUndoesJoin(pieces, 0x1E);
    LastPieceWins(pieces, key);
  }

  // ---- events -----------------------------------------------------------------------------------

  ghost function Record(records: Records, id: byte): Latin1 { if [id] in records then records[[id]] else [] }

  /** The record each label shows: 1 the address, 3 the beep coding, 4 the call type, 6 the priority. */
  ghost function LabelRecord(name: string): byte {
    if name == "espa.address" then 0x31
    else if name == "espa.beep" then 0x33
    else if name == "espa.callType" then 0x34
    else if name == "espa.priority" then 0x36
    else 0
  }

  /** The event of a call: priority 1 is critical, 2 a warning, anything else the source's default; the summary is the
      display message (record 2), or else "ESPA call" and the address (record 1); a label for each of the four records
      that is there and not empty, and no other; and all records as they came. */
  ghost predicate EventMeans(records: Records, e: NormEvent) {
    var call: Utf8 := [0x45, 0x53, 0x50, 0x41, 0x20, 0x63, 0x61, 0x6C, 0x6C];
    var message, address := Utf8Of(Record(records, 0x32)), Utf8Of(Record(records, 0x31));
    && (e.severity == Critical <==> Says(Record(records, 0x36), 0x31))
    && (e.severity == Warning <==> Says(Record(records, 0x36), 0x32))
    && (message != [] ==> IsCutTo(message, 512, e.summary))
    && (message == [] ==> e.summary == call + if address == [] then [] else [0x20] + address)
    && (forall name :: name in e.labels <==> LabelRecord(name) != 0 && Record(records, LabelRecord(name)) != [])
    && (forall name :: name in e.labels ==>
          IsCutTo(Utf8Of(Record(records, LabelRecord(name))), 200, e.labels[name]))
    && e.records == records
  }

  lemma TextIsThere(s: Latin1)
    ensures Utf8Of(s) == [] <==> s == []
  {}

  lemma SeverityMeans(priority: Latin1)
    ensures SeverityOf(priority) == Critical <==> Says(priority, 0x31)
    ensures SeverityOf(priority) == Warning <==> Says(priority, 0x32)
  {
    TrimMeans(priority);
    forall c: byte | Says(priority, c) ensures TrimSpace(priority) == [c] {
      TrimIsUnique(priority, TrimSpace(priority), [c]);
    }
  }

  lemma LabelsMean(records: Records)
    ensures forall name ::
      (name in LabelsOf(records) <==> LabelRecord(name) != 0 && Record(records, LabelRecord(name)) != [])
    ensures forall name :: name in LabelsOf(records) ==>
      IsCutTo(Utf8Of(Record(records, LabelRecord(name))), 200, LabelsOf(records)[name])
  {
    hide Utf8Of;
    forall id: byte ensures Utf8Of(Record(records, id)) == [] <==> Record(records, id) == [] {
      TextIsThere(Record(records, id));
    }
  }

  lemma SummaryMeans(records: Records)
    ensures var call: Utf8 := [0x45, 0x53, 0x50, 0x41, 0x20, 0x63, 0x61, 0x6C, 0x6C];
      var message, address := Utf8Of(Record(records, 0x32)), Utf8Of(Record(records, 0x31));
      && (message != [] ==> IsCutTo(message, 512, SummaryOf(records)))
      && (message == [] ==> SummaryOf(records) == call + if address == [] then [] else [0x20] + address)
  {
    hide Utf8Of;
    assert CALL + [] == CALL;
    assert forall a: Utf8 :: CALL + [0x20] + a == CALL + ([0x20] + a);
  }

  lemma CallMeans(records: Records)
    ensures EventMeans(records, EventOf(records))
  {
    hide SeverityOf, SummaryOf, LabelsOf, IsCutTo, Utf8Of, Says;
    SeverityMeans(Record(records, 0x36));
    SummaryMeans(records);
    LabelsMean(records);
  }

  // ---- blocks -----------------------------------------------------------------------------------

  /** The header asks for a call: its last byte that is neither a control character nor a blank is '1' (0x31), or it has
      none. */
  ghost predicate AsksForCall(header: seq<byte>) {
    || (forall i :: 0 <= i < |header| ==> header[i] <= 0x20)
    || (exists i :: 0 <= i < |header| && header[i] == 0x31 && forall j :: i < j < |header| ==> header[j] <= 0x20)
  }

  lemma {:induction false} HeaderMeans(header: seq<byte>)
    ensures HeaderFunction(header) == 0 || HeaderFunction(header) == 0x31 <==> AsksForCall(header)
  {
    if header != [] && header[|header| - 1] <= 0x20 {
      var n := |header| - 1;
      HeaderMeans(header[..n]);
      if AsksForCall(header[..n]) && !(forall i :: 0 <= i < n ==> header[..n][i] <= 0x20) {
        var i :| 0 <= i < n && header[..n][i] == 0x31 && forall j :: i < j < n ==> header[..n][j] <= 0x20;
        assert header[i] == 0x31 && forall j :: i < j < |header| ==> header[j] <= 0x20;
      }
      if AsksForCall(header) && !(forall i :: 0 <= i < |header| ==> header[i] <= 0x20) {
        var i :| 0 <= i < |header| && header[i] == 0x31 && forall j :: i < j < |header| ==> header[j] <= 0x20;
        assert header[..n][i] == 0x31;
      }
    }
  }

  /** A block becomes an event exactly when it has an STX (0x02), ends with ETX (0x03) and its header, all before the
      first STX, asks for a call; the event is that of the records between the two. */
  lemma BlockMeans(body: seq<byte>, i: nat)
    requires FirstAt(body, 0x02, i)
    ensures ParseBlock(body).Event? <==> body[|body| - 1] == 0x03 && AsksForCall(body[..i])
    ensures ParseBlock(body).Event? ==> EventMeans(RecordsOf(body[i + 1..|body| - 1]), ParseBlock(body).event)
  {
    hide EventOf, EventMeans, RecordsOf;
    OnlyFirst(body, 0x02, i);
    HeaderMeans(body[..i]);
    if ParseBlock(body).Event? { CallMeans(RecordsOf(body[i + 1..|body| - 1])); }
  }

  lemma NoTextNoEvent(body: seq<byte>)
    requires 0x02 !in body
    ensures ParseBlock(body) == NoEvent
  {
    NoIndex(body, 0x02);
  }

  /** The replies, byte by byte: a poll (0x05) is acknowledged (0x06), other bytes between blocks are passed over; a
      block, SOH (0x01) to ETX (0x03) and its check byte, of up to 65536 bytes is acknowledged if the check is right and
      refused (0x15) otherwise, and only then without its event. */
  lemma RepliesMean(b: byte, payload: seq<byte>, bcc: byte)
    ensures ReplyTo(Filler(b)) == if b == 0x05 then [0x06] else []
    ensures EventsOf(Filler(b)) == []
    ensures BytesOf(Frame(payload, bcc)) == [0x01] + payload + [0x03, bcc]
    ensures Proper(Filler(b)) <==> b != 0x01
    ensures Proper(Frame(payload, bcc)) <==> 0x03 !in payload && |payload| <= 65536
    ensures ReplyTo(Frame(payload, bcc)) == if Xor(payload + [0x03]) == bcc then [0x06] else [0x15]
    ensures Xor(payload + [0x03]) != bcc ==> EventsOf(Frame(payload, bcc)) == []
    ensures Xor(payload + [0x03]) == bcc ==>
      EventsOf(Frame(payload, bcc)) ==
        match ParseBlock(payload + [0x03]) case NoEvent => [] case Event(e) => [e]
  {
    hide Xor, ParseBlock;
    assert [0x01] + payload + [0x03, bcc] == [0x01] + payload + [0x03] + [bcc];
  }
}
