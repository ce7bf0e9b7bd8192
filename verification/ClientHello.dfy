/**
  TLS ClientHello messages (section 4.1.2 of RFC 8446) with a server_name extension
  (section 3 of RFC 6066), and the parser that finds the name.
 */
module ClientHello {
  import opened Bytes

  // ---------------------------------------------------------------- vectors

  /** A vector behind a one-byte length, and what follows it. */
  function TakeVec8(s: seq<byte>): Option<(seq<byte>, seq<byte>)> {
    if |s| == 0 || 1 + s[0] > |s| then None
    else Some((s[1..1 + s[0]], s[1 + s[0]..]))
  }

  /** A vector behind a two-byte length, and what follows it. */
  function TakeVec16(s: seq<byte>): Option<(seq<byte>, seq<byte>)> {
    if |s| < 2 || 2 + Be16At(s, 0) > |s| then None
    else Some((s[2..2 + Be16At(s, 0)], s[2 + Be16At(s, 0)..]))
  }

  function Vec8(v: seq<byte>): seq<byte>
    requires |v| < 0x100
  {
    [|v|] + v
  }

  function Vec16(v: seq<byte>): seq<byte>
    requires |v| < 0x1_0000
  {
    Encode16(|v|) + v
  }

  lemma Word16(w: u16)
    ensures Be16(w / 256, w % 256) == w
  {
  }

  /** Taking a vector and writing it are inverse to each other. */
  lemma Vec8Parses(v: seq<byte>, rest: seq<byte>)
    requires |v| < 0x100
    ensures TakeVec8(Vec8(v) + rest) == Some((v, rest))
  {
    var s := Vec8(v) + rest;
    assert s[0] == |v| && s[1..1 + |v|] == v && s[1 + |v|..] == rest;
  }

  lemma Vec8Splits(s: seq<byte>, v: seq<byte>, rest: seq<byte>)
    requires TakeVec8(s) == Some((v, rest))
    ensures |v| < 0x100 && s == Vec8(v) + rest
  {
  }

  lemma Vec16Parses(v: seq<byte>, rest: seq<byte>)
    requires |v| < 0x1_0000
    ensures TakeVec16(Vec16(v) + rest) == Some((v, rest))
  {
    var s := Vec16(v) + rest;
    assert s[0] == |v| / 256 && s[1] == |v| % 256;
    Word16(|v|);
    assert s[2..2 + |v|] == v && s[2 + |v|..] == rest;
  }

  lemma Vec16Splits(s: seq<byte>, v: seq<byte>, rest: seq<byte>)
    requires TakeVec16(s) == Some((v, rest))
    ensures |v| < 0x1_0000 && s == Vec16(v) + rest
  {
    assert s == s[..2] + (v + rest);
    assert s[..2] == Encode16(|v|);
  }

  /** Taking a vector at a position, in the terms of an index-based parser. */
  lemma Vec8At(s: seq<byte>, pos: nat)
    requires pos <= |s|
    ensures pos == |s| || pos + 1 + s[pos] > |s| ==> TakeVec8(s[pos..]).None?
    ensures pos < |s| && pos + 1 + s[pos] <= |s| ==>
              TakeVec8(s[pos..]) == Some((s[pos + 1..pos + 1 + s[pos]], s[pos + 1 + s[pos]..]))
  {
    if pos < |s| && pos + 1 + s[pos] <= |s| {
      var n := s[pos];
      assert s[pos..][1..1 + n] == s[pos + 1..pos + 1 + n];
    }
  }

  lemma SliceOfSlice(s: seq<byte>, from: nat, to: nat, i: nat, j: nat)
    requires from <= to <= |s| && i <= j <= to - from
    ensures s[from..to][i..j] == s[from + i..from + j]
  {
    forall k | 0 <= k < j - i ensures s[from..to][i..j][k] == s[from + i..from + j][k] {
      assert s[from..to][i..j][k] == s[from..to][i + k];
    }
  }

  lemma Vec16At(s: seq<byte>, pos: nat, end: nat)
    requires pos <= end <= |s|
    ensures pos + 2 > end || pos + 2 + Be16At(s, pos) > end ==> TakeVec16(s[pos..end]).None?
    ensures pos + 2 <= end && pos + 2 + Be16At(s, pos) <= end ==>
              TakeVec16(s[pos..end]) ==
              Some((s[pos + 2..pos + 2 + Be16At(s, pos)], s[pos + 2 + Be16At(s, pos)..end]))
  {
    if pos + 2 <= end {
      var n: int := Be16At(s, pos);
      assert Be16At(s[pos..end], 0) == n;
      if pos + 2 + n <= end {
        SliceOfSlice(s, pos, end, 2, 2 + n);
        assert s[pos..end][2 + n..] == s[pos + 2 + n..end];
      }
    }
  }

  // ---------------------------------------------------------------- messages

  datatype Extension = Extension(kind: u16, data: seq<byte>)

  /**
    Everything the parser reads or skips.  `msgLen` is the handshake length and `listLen` the
    server-name-list length, neither of which it looks at; `random` includes the legacy version;
    `more`, `after`, `trailing` and `rest` are the bytes behind the name, behind the server_name
    extension, behind the extension block and behind the record.
   */
  datatype Hello = Hello(
    minor: byte, msgLen: seq<byte>, random: seq<byte>,
    session: seq<byte>, ciphers: seq<byte>, compression: seq<byte>,
    before: seq<Extension>, listLen: u16, name: Text, more: seq<byte>, after: seq<byte>,
    trailing: seq<byte>, rest: seq<byte>)

  /** The extension list in front of server_name. */
  predicate Skippable(exts: seq<Extension>) {
    forall i | 0 <= i < |exts| :: exts[i].kind != 0 && |exts[i].data| < 0x1_0000
  }

  /** One extension and what follows it. */
  function ExtensionThen(kind: u16, data: seq<byte>, next: seq<byte>): seq<byte>
    requires |data| < 0x1_0000
  {
    Encode16(kind) + (Vec16(data) + next)
  }

  function EncodeExtensions(exts: seq<Extension>, next: seq<byte>): seq<byte>
    requires Skippable(exts)
  {
    if exts == [] then next
    else ExtensionThen(exts[0].kind, exts[0].data, EncodeExtensions(exts[1..], next))
  }

  /** The contents of the server_name extension: list length, host_name type, name. */
  function NameList(h: Hello): seq<byte>
    requires |h.name| < 0x1_0000
  {
    [h.listLen / 256, h.listLen % 256, 0] + (Vec16(h.name) + h.more)
  }

  function ExtensionBlock(h: Hello): seq<byte>
    requires Skippable(h.before) && |h.name| < 0x1_0000 && |NameList(h)| < 0x1_0000
  {
    EncodeExtensions(h.before, ExtensionThen(0, NameList(h), h.after))
  }

  predicate Sized(h: Hello) {
    && |h.msgLen| == 3 && |h.random| == 34
    && |h.session| < 0x100 && |h.ciphers| < 0x1_0000 && |h.compression| < 0x100
    && Skippable(h.before)
    && 0 < |h.name| < 0x1_0000 && |NameList(h)| < 0x1_0000 && |ExtensionBlock(h)| < 0x1_0000
  }

  function Opening(msgLen: seq<byte>, random: seq<byte>): seq<byte> { [1] + msgLen + random }

  /** The handshake message: client_hello, then its fields in order. */
  function Body(h: Hello): seq<byte>
    requires Sized(h)
  {
    Opening(h.msgLen, h.random) +
    (Vec8(h.session) + (Vec16(h.ciphers) + (Vec8(h.compression) + (Vec16(ExtensionBlock(h)) + h.trailing))))
  }

  predicate Valid(h: Hello) { Sized(h) && |Body(h)| < 0x1_0000 }

  /** One handshake record, then whatever else is in the segment. */
  function Encode(h: Hello): seq<byte>
    requires Valid(h)
  {
    [0x16, 0x03, h.minor] + (Vec16(Body(h)) + h.rest)
  }

  // ---------------------------------------------------------------- what the parser computes

  /** The name inside a server_name extension, or nothing. */
  function NameIn(data: seq<byte>): Text {
    if |data| < 5 || data[2] != 0 then []
    else match TakeVec16(data[3..]) case None => [] case Some((name, _)) => name
  }

  /** Walk the extension block to the first server_name extension. */
  function WalkExtensions(block: seq<byte>): Text
    decreases |block|
  {
    if |block| < 4 then []
    else match TakeVec16(block[2..])
      case None => []
      case Some((data, next)) =>
        if Be16At(block, 0) == 0 then NameIn(data) else WalkExtensions(next)
  }

  /** The extension block, starting from the compression methods. */
  function FromCompression(s: seq<byte>): Option<(seq<byte>, seq<byte>)> {
    match TakeVec8(s) case None => None case Some((_, rest)) => TakeVec16(rest)
  }

  /** The extension block, starting from the cipher suites. */
  function FromCiphers(s: seq<byte>): Option<(seq<byte>, seq<byte>)> {
    match TakeVec16(s) case None => None case Some((_, rest)) => FromCompression(rest)
  }

  /** The extension block, starting from the session ID. */
  function FromSession(s: seq<byte>): Option<(seq<byte>, seq<byte>)> {
    match TakeVec8(s) case None => None case Some((_, rest)) => FromCiphers(rest)
  }

  /** The extension block of a handshake message. */
  function BlockOf(body: seq<byte>): Option<(seq<byte>, seq<byte>)> {
    if |body| < 42 || body[0] != 1 then None else FromSession(body[38..])
  }

  function NameOfBody(body: seq<byte>): Text {
    match BlockOf(body) case None => [] case Some((block, _)) => WalkExtensions(block)
  }

  function Sni(payload: seq<byte>): Text {
    if |payload| < 5 || payload[0] != 0x16 || payload[1] != 0x03 then []
    else match TakeVec16(payload[3..])
      case None => []
      case Some((body, _)) => NameOfBody(body)
  }

  // ---------------------------------------------------------------- the parser itself

  /** `tlsSNI`: every index is in range and the extension walk terminates. */
  method TlsSni(payload: seq<byte>) returns (name: Text)
    ensures name == Sni(payload)
  {
    if |payload| < 5 || payload[0] != 0x16 || payload[1] != 0x03 {
      return [];
    }
    var recordLen := Be16At(payload, 3);
    assert payload[3..] == payload[3..|payload|];
    Vec16At(payload, 3, |payload|);
    if recordLen <= 0 || 5 + recordLen > |payload| {
      return [];
    }
    var body := payload[5..5 + recordLen];
    name := ReadBody(body);
  }

  /** The handshake message inside the record. */
  method ReadBody(body: seq<byte>) returns (name: Text)
    ensures name == NameOfBody(body)
  {
    var found, pos, end := FindBlock(body);
    if !found {
      return [];
    }
    WalkByPosition(body, pos, end);
    name := ScanExtensions(body, pos, end);
  }

  /** Where the extension block's length is, the compression methods being at `pos`. */
  function AfterCompression(s: seq<byte>, pos: nat): Option<nat> {
    if pos >= |s| || pos + 1 + s[pos] + 2 > |s| then None else Some(pos + 1 + s[pos])
  }

  /** The same, the cipher suites being at `pos`. */
  function AfterCiphers(s: seq<byte>, pos: nat): Option<nat> {
    if pos + 2 > |s| then None else AfterCompression(s, pos + 2 + Be16At(s, pos))
  }

  /** The same, the session ID being at `pos`. */
  function AfterSession(s: seq<byte>, pos: nat): Option<nat> {
    if pos >= |s| then None else AfterCiphers(s, pos + 1 + s[pos])
  }

  function AfterFields(body: seq<byte>): Option<nat> {
    if |body| < 42 || body[0] != 1 then None else AfterSession(body, 38)
  }

  /** The field-skipping half of `tlsSNI`, up to the length of the extension block. */
  method SkipFields(body: seq<byte>) returns (found: bool, pos: nat)
    ensures AfterFields(body) == if found then Some(pos) else None
  {
    found, pos := false, 4 + 2 + 32;
    if |body| < 42 || body[0] != 0x01 {
      return;
    }
    if pos >= |body| {
      return;
    }
    var sessionLen: int := body[pos];
    pos := pos + 1 + sessionLen;
    if pos + 2 > |body| {
      return;
    }
    var cipherLen := Be16At(body, pos);
    pos := pos + 2 + cipherLen;
    if pos >= |body| {
      return;
    }
    var compressionLen: int := body[pos];
    pos := pos + 1 + compressionLen;
    found := pos + 2 <= |body|;
  }

  /** The extension block that `tlsSNI` walks. */
  method FindBlock(body: seq<byte>) returns (found: bool, pos: nat, end: nat)
    ensures found == BlockOf(body).Some?
    ensures found ==> pos <= end <= |body| && BlockOf(body).value.0 == body[pos..end]
  {
    end := 0;
    FieldsAt(body);
    found, pos := SkipFields(body);
    if !found {
      return;
    }
    VectorAt(body, pos);
    var extensionsLen := Be16At(body, pos);
    pos := pos + 2;
    if pos + extensionsLen > |body| {
      return false, pos, end;
    }
    end := pos + extensionsLen;
  }

  lemma VectorAt(s: seq<byte>, pos: nat)
    requires pos + 2 <= |s|
    ensures TakeVec16(s[pos..]) ==
            if pos + 2 + Be16At(s, pos) > |s| then None
            else Some((s[pos + 2..pos + 2 + Be16At(s, pos)], s[pos + 2 + Be16At(s, pos)..]))
  {
    assert s[pos..] == s[pos..|s|];
    Vec16At(s, pos, |s|);
    var after := pos + 2 + Be16At(s, pos);
    if after <= |s| {
      assert s[after..] == s[after..|s|];
    }
  }

  lemma CompressionAt(s: seq<byte>, pos: nat)
    requires pos <= |s|
    ensures match AfterCompression(s, pos)
            case None => FromCompression(s[pos..]) == None
            case Some(q) => FromCompression(s[pos..]) == TakeVec16(s[q..])
  {
    Vec8At(s, pos);
  }

  lemma CiphersAt(s: seq<byte>, pos: nat)
    requires pos <= |s|
    ensures match AfterCiphers(s, pos)
            case None => FromCiphers(s[pos..]) == None
            case Some(q) => FromCiphers(s[pos..]) == TakeVec16(s[q..])
  {
    if pos + 2 <= |s| {
      VectorAt(s, pos);
      if pos + 2 + Be16At(s, pos) <= |s| {
        CompressionAt(s, pos + 2 + Be16At(s, pos));
      }
    }
  }

  lemma SessionAt(s: seq<byte>, pos: nat)
    requires pos <= |s|
    ensures match AfterSession(s, pos)
            case None => FromSession(s[pos..]) == None
            case Some(q) => FromSession(s[pos..]) == TakeVec16(s[q..])
  {
    Vec8At(s, pos);
    if pos < |s| && pos + 1 + s[pos] <= |s| {
      CiphersAt(s, pos + 1 + s[pos]);
    }
  }

  lemma FieldsAt(body: seq<byte>)
    ensures match AfterFields(body)
            case None => BlockOf(body) == None
            case Some(q) => BlockOf(body) == TakeVec16(body[q..])
  {
    if |body| >= 42 {
      SessionAt(body, 38);
    }
  }

  /** The name inside the server_name extension `data`, which starts at `pos`. */
  method ReadName(body: seq<byte>, pos: nat, extLen: nat) returns (name: Text)
    requires pos + extLen <= |body|
    ensures name == NameIn(body[pos..pos + extLen])
  {
    if extLen < 5 {
      return [];
    }
    ghost var data := body[pos..pos + extLen];
    var nameType := body[pos + 2];
    var nameLen := Be16At(body, pos + 3);
    assert data[3..] == body[pos + 3..pos + extLen];
    Vec16At(body, pos + 3, pos + extLen);
    if nameType != 0 || nameLen <= 0 || pos + 5 + nameLen > pos + extLen {
      return [];
    }
    return body[pos + 5..pos + 5 + nameLen];
  }

  /** The walk over `s[pos..end]` by position. */
  function WalkFrom(s: seq<byte>, pos: nat, end: nat): Text
    requires pos <= end <= |s|
    decreases end - pos
  {
    if pos + 4 > end then []
    else
      var next := pos + 4 + Be16At(s, pos + 2);
      if next > end then []
      else if Be16At(s, pos) == 0 then NameIn(s[pos + 4..next])
      else WalkFrom(s, next, end)
  }

  /** The extension loop of `tlsSNI`. */
  method ScanExtensions(body: seq<byte>, start: nat, end: nat) returns (name: Text)
    requires start <= end <= |body|
    ensures name == WalkFrom(body, start, end)
  {
    var pos := start;
    while pos + 4 <= end
      invariant start <= pos <= end
      invariant WalkFrom(body, pos, end) == WalkFrom(body, start, end)
      decreases end - pos
    {
      var extType, extLen: int := Be16At(body, pos), Be16At(body, pos + 2);
      pos := pos + 4;
      if pos + extLen > end {
        return [];
      }
      if extType != 0 {
        pos := pos + extLen;
        continue;
      }
      name := ReadName(body, pos, extLen);
      return;
    }
    return [];
  }

  lemma {:induction false} WalkByPosition(s: seq<byte>, pos: nat, end: nat)
    requires pos <= end <= |s|
    ensures WalkFrom(s, pos, end) == WalkExtensions(s[pos..end])
    decreases end - pos
  {
    if pos + 4 <= end {
      WalkAt(s, pos, end);
      if pos + 4 + Be16At(s, pos + 2) <= end {
        WalkByPosition(s, pos + 4 + Be16At(s, pos + 2), end);
      }
    }
  }

  /** One step of the walk, in the terms of an index-based parser. */
  lemma WalkAt(s: seq<byte>, pos: nat, end: nat)
    requires pos + 4 <= end <= |s|
    ensures pos + 4 + Be16At(s, pos + 2) > end ==> WalkExtensions(s[pos..end]) == []
    ensures pos + 4 + Be16At(s, pos + 2) <= end && Be16At(s, pos) == 0 ==>
              WalkExtensions(s[pos..end]) == NameIn(s[pos + 4..pos + 4 + Be16At(s, pos + 2)])
    ensures pos + 4 + Be16At(s, pos + 2) <= end && Be16At(s, pos) != 0 ==>
              WalkExtensions(s[pos..end]) == WalkExtensions(s[pos + 4 + Be16At(s, pos + 2)..end])
  {
    var block := s[pos..end];
    assert block[2..] == s[pos + 2..end];
    Vec16At(s, pos + 2, end);
    assert Be16At(block, 0) == Be16At(s, pos);
  }

  // ---------------------------------------------------------------- round trip and converse

  lemma NameListParses(h: Hello)
    requires |h.name| < 0x1_0000
    ensures NameIn(NameList(h)) == h.name
  {
    assert NameList(h)[3..] == Vec16(h.name) + h.more;
    Vec16Parses(h.name, h.more);
  }

  lemma ExtensionParses(kind: u16, data: seq<byte>, next: seq<byte>)
    requires |data| < 0x1_0000
    ensures WalkExtensions(ExtensionThen(kind, data, next)) == if kind == 0 then NameIn(data) else WalkExtensions(next)
  {
    var block := ExtensionThen(kind, data, next);
    assert block[2..] == Vec16(data) + next;
    Vec16Parses(data, next);
    assert block[0] == kind / 256 && block[1] == kind % 256;
    Word16(kind);
  }

  lemma {:induction false} WalkSkips(exts: seq<Extension>, next: seq<byte>)
    requires Skippable(exts)
    ensures WalkExtensions(EncodeExtensions(exts, next)) == WalkExtensions(next)
  {
    if exts != [] {
      ExtensionParses(exts[0].kind, exts[0].data, EncodeExtensions(exts[1..], next));
      WalkSkips(exts[1..], next);
    }
  }

  lemma BodyParses(h: Hello)
    requires Sized(h)
    ensures BlockOf(Body(h)) == Some((ExtensionBlock(h), h.trailing))
  {
    var s3 := Vec16(ExtensionBlock(h)) + h.trailing;
    var s2 := Vec8(h.compression) + s3;
    var s1 := Vec16(h.ciphers) + s2;
    assert Body(h)[38..] == Vec8(h.session) + s1;
    Vec8Parses(h.session, s1);
    Vec16Parses(h.ciphers, s2);
    Vec8Parses(h.compression, s3);
    Vec16Parses(ExtensionBlock(h), h.trailing);
  }

  lemma NameOfEncodedBody(h: Hello)
    requires Valid(h)
    ensures NameOfBody(Body(h)) == h.name
  {
    BodyParses(h);
    WalkSkips(h.before, ExtensionThen(0, NameList(h), h.after));
    ExtensionParses(0, NameList(h), h.after);
    NameListParses(h);
  }

  lemma RecordParses(minor: byte, body: seq<byte>, rest: seq<byte>)
    requires 0 < |body| < 0x1_0000
    ensures Sni([0x16, 0x03, minor] + (Vec16(body) + rest)) == NameOfBody(body)
  {
    var payload := [0x16, 0x03, minor] + (Vec16(body) + rest);
    assert payload[3..] == Vec16(body) + rest;
    Vec16Parses(body, rest);
  }

  /** Round trip: the parser returns the first host_name of every message that carries one. */
  lemma SniOfEncoded(h: Hello)
    requires Valid(h)
    ensures Sni(Encode(h)) == h.name
  {
    RecordParses(h.minor, Body(h), h.rest);
    NameOfEncodedBody(h);
    assert Encode(h) == [0x16, 0x03, h.minor] + (Vec16(Body(h)) + h.rest);
  }

  lemma ExtensionSplits(block: seq<byte>, data: seq<byte>, next: seq<byte>)
    requires |block| >= 4 && TakeVec16(block[2..]) == Some((data, next))
    ensures |data| < 0x1_0000 && block == ExtensionThen(Be16At(block, 0), data, next)
  {
    Vec16Splits(block[2..], data, next);
    assert block == block[..2] + block[2..];
    assert block[..2] == Encode16(Be16At(block, 0));
  }

  /** A block the walk finds a name in splits into skipped extensions, server_name and the rest. */
  lemma {:induction false} WalkDecomposes(block: seq<byte>)
      returns (before: seq<Extension>, sni: seq<byte>, after: seq<byte>)
    requires WalkExtensions(block) != []
    ensures Skippable(before) && |sni| < 0x1_0000 && NameIn(sni) == WalkExtensions(block)
    ensures block == EncodeExtensions(before, ExtensionThen(0, sni, after))
    decreases |block|
  {
    var kind, data, next := WalkSplits(block);
    if kind == 0 {
      before, sni, after := [], data, next;
    } else {
      var rest;
      rest, sni, after := WalkDecomposes(next);
      before := [Extension(kind, data)] + rest;
      EncodeCons(Extension(kind, data), rest, ExtensionThen(0, sni, after));
    }
  }

  lemma WalkSplits(block: seq<byte>) returns (kind: u16, data: seq<byte>, next: seq<byte>)
    requires WalkExtensions(block) != []
    ensures |data| < 0x1_0000 && |next| < |block| && block == ExtensionThen(kind, data, next)
    ensures WalkExtensions(block) == if kind == 0 then NameIn(data) else WalkExtensions(next)
  {
    kind := Be16At(block, 0);
    data, next := TakeVec16(block[2..]).value.0, TakeVec16(block[2..]).value.1;
    ExtensionSplits(block, data, next);
  }

  lemma EncodeCons(e: Extension, rest: seq<Extension>, next: seq<byte>)
    requires e.kind != 0 && |e.data| < 0x1_0000 && Skippable(rest)
    ensures Skippable([e] + rest)
    ensures EncodeExtensions([e] + rest, next) == ExtensionThen(e.kind, e.data, EncodeExtensions(rest, next))
  {
    assert ([e] + rest)[1..] == rest;
  }

  lemma NameDecomposes(sni: seq<byte>) returns (listLen: u16, more: seq<byte>)
    requires NameIn(sni) != []
    ensures |NameIn(sni)| < 0x1_0000
    ensures sni == [listLen / 256, listLen % 256, 0] + (Vec16(NameIn(sni)) + more)
  {
    var (name, m) := TakeVec16(sni[3..]).value;
    Vec16Splits(sni[3..], name, m);
    listLen, more := Be16At(sni, 0), m;
    assert sni == sni[..3] + sni[3..];
    assert sni[..3] == [listLen / 256, listLen % 256, 0];
  }

  lemma FieldsDecompose(body: seq<byte>)
      returns (session: seq<byte>, ciphers: seq<byte>, compression: seq<byte>, block: seq<byte>, trailing: seq<byte>)
    requires BlockOf(body).Some?
    ensures BlockOf(body) == Some((block, trailing)) && |body| >= 42
    ensures |session| < 0x100 && |ciphers| < 0x1_0000 && |compression| < 0x100 && |block| < 0x1_0000
    ensures body == Opening(body[1..4], body[4..38]) +
                    (Vec8(session) + (Vec16(ciphers) + (Vec8(compression) + (Vec16(block) + trailing))))
  {
    var r1 := TakeVec8(body[38..]).value;
    var r2 := TakeVec16(r1.1).value;
    var r3 := TakeVec8(r2.1).value;
    var r4 := TakeVec16(r3.1).value;
    session, ciphers, compression, block, trailing := r1.0, r2.0, r3.0, r4.0, r4.1;
    Vec8Splits(body[38..], session, r1.1);
    Vec16Splits(r1.1, ciphers, r2.1);
    Vec8Splits(r2.1, compression, r3.1);
    Vec16Splits(r3.1, block, trailing);
    OpeningSplits(body);
  }

  lemma OpeningSplits(body: seq<byte>)
    requires |body| >= 38 && body[0] == 1
    ensures body == Opening(body[1..4], body[4..38]) + body[38..]
  {
  }

  lemma BlockDecomposes(block: seq<byte>)
      returns (before: seq<Extension>, listLen: u16, more: seq<byte>, after: seq<byte>)
    requires WalkExtensions(block) != [] && |block| < 0x1_0000
    ensures |WalkExtensions(block)| < 0x1_0000
    ensures Skippable(before)
    ensures var sni := [listLen / 256, listLen % 256, 0] + (Vec16(WalkExtensions(block)) + more);
            |sni| < 0x1_0000 && block == EncodeExtensions(before, ExtensionThen(0, sni, after))
  {
    var sni;
    before, sni, after := WalkDecomposes(block);
    listLen, more := NameDecomposes(sni);
  }

  lemma BodyDecomposes(minor: byte, body: seq<byte>, rest: seq<byte>) returns (h: Hello)
    requires BlockOf(body).Some? && WalkExtensions(BlockOf(body).value.0) != []
    ensures Sized(h) && Body(h) == body && h.minor == minor && h.rest == rest
    ensures h.name == WalkExtensions(BlockOf(body).value.0)
  {
    var session, ciphers, compression, block, trailing := FieldsDecompose(body);
    var before, listLen, more, after := BlockDecomposes(block);
    h := Hello(minor, body[1..4], body[4..38], session, ciphers, compression,
               before, listLen, WalkExtensions(block), more, after, trailing, rest);
    assert ExtensionBlock(h) == block;
  }

  /** Converse: a name only ever comes from a payload that is such a message. */
  lemma SniDecomposes(payload: seq<byte>) returns (h: Hello)
    requires Sni(payload) != []
    ensures Valid(h) && Encode(h) == payload && h.name == Sni(payload)
  {
    var body, rest := RecordSplits(payload);
    h := BodyDecomposes(payload[2], body, rest);
  }

  lemma RecordSplits(payload: seq<byte>) returns (body: seq<byte>, rest: seq<byte>)
    requires Sni(payload) != []
    ensures |payload| >= 5 && |body| < 0x1_0000
    ensures payload == [0x16, 0x03, payload[2]] + (Vec16(body) + rest)
    ensures BlockOf(body).Some? && WalkExtensions(BlockOf(body).value.0) == Sni(payload)
  {
    body, rest := TakeVec16(payload[3..]).value.0, TakeVec16(payload[3..]).value.1;
    Vec16Splits(payload[3..], body, rest);
    assert payload == [0x16, 0x03, payload[2]] + payload[3..];
  }

  /** Both directions at once, for every payload and every name. */
  lemma SniIff(payload: seq<byte>, name: Text)
    requires name != []
    ensures Sni(payload) == name <==> exists h :: Valid(h) && Encode(h) == payload && h.name == name
  {
    if Sni(payload) == name {
      var h := SniDecomposes(payload);
    }
    forall h | Valid(h) && Encode(h) == payload && h.name == name
      ensures Sni(payload) == name
    {
      SniOfEncoded(h);
    }
  }
}
