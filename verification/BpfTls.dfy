/** The bounded ClientHello walk of the packet program, and its agreement with `ClientHello.Sni`. */
module BpfTls {
  import opened Bytes
  import opened DomainTable
  import CH = ClientHello

  const MAX_TLS_SCAN := 512
  const MAX_EXTENSIONS := 16

  /** Where a name lies in the packet. */
  datatype Span = Span(off: nat, len: nat)

  /** The extension block: first byte, end as far as scanned, and the scan limit. */
  datatype Block = Block(pos: nat, end: nat, limit: nat)

  function Min(a: int, b: int): int { if a < b then a else b }

  // ---------------------------------------------------------------- what the walk computes

  /** From the start of the TCP payload to the extension block. */
  function BlockAt(p: seq<byte>, off: nat): Option<Block> {
    if off > MAX_PACKET_READ - 6 then None else
    var contentType :- LoadU8(p, off);
    var major :- LoadU8(p, off + 1);
    var handshake :- LoadU8(p, off + 5);
    if contentType != 0x16 || major != 0x03 || handshake != 0x01 then None else
    var limit := Min(off + MAX_TLS_SCAN, MAX_PACKET_READ);
    if off > MAX_PACKET_READ - 44 then None else
    var sessionLen :- LoadU8(p, off + 43);
    var ciphers := off + 44 + sessionLen;
    if ciphers + 2 > limit then None else
    var cipherLen :- LoadBe16(p, ciphers);
    var compression := ciphers + 2 + cipherLen;
    if cipherLen > MAX_TLS_SCAN || compression + 1 > limit then None else
    var compressionLen :- LoadU8(p, compression);
    var exts := compression + 1 + compressionLen;
    if compressionLen > 32 || exts + 2 > limit then None else
    var extsLen :- LoadBe16(p, exts);
    Some(Block(exts + 2, Min(exts + 2 + extsLen, limit), limit))
  }

  /** The host_name inside the server_name extension at `pos`. */
  function SpanIn(p: seq<byte>, pos: nat, len: nat, limit: nat): Option<Span> {
    if len < 5 then None else
    var listLen :- LoadBe16(p, pos);
    var kind :- LoadU8(p, pos + 2);
    var nameLen :- LoadBe16(p, pos + 3);
    if kind != 0 || listLen < 3 || nameLen == 0 || nameLen >= KEY_LEN then None
    else if nameLen > len - 5 || pos + 5 + nameLen > limit then None
    else Some(Span(pos + 5, nameLen))
  }

  /** At most `left` extensions from `pos` on. */
  function WalkSpan(p: seq<byte>, pos: nat, end: nat, limit: nat, left: nat): Option<Span>
    decreases left
  {
    if left == 0 || pos > end || end - pos < 4 then None else
    var kind :- LoadBe16(p, pos);
    var len :- LoadBe16(p, pos + 2);
    if pos + 4 > limit || len > MAX_TLS_SCAN || len > limit - (pos + 4) then None
    else if kind == 0 then SpanIn(p, pos + 4, len, limit)
    else WalkSpan(p, pos + 4 + len, end, limit, left - 1)
  }

  function SpanFrom(p: seq<byte>, block: Option<Block>): Option<Span> {
    var b :- block;
    WalkSpan(p, b.pos, b.end, b.limit, MAX_EXTENSIONS)
  }

  function SniSpan(p: seq<byte>, off: nat): Option<Span> { SpanFrom(p, BlockAt(p, off)) }

  predicate SpanHit(table: Table, p: seq<byte>, span: Option<Span>, action: Action) {
    span.Some? && PacketHit(table, p, span.value.off, span.value.len, action)
  }

  // ---------------------------------------------------------------- the program

  /** The field-skipping half of `check_tls_sni`; every sum fits in 32 bits. */
  method FindBlock(p: seq<byte>, off: u32) returns (found: bool, pos: u32, end: u32, limit: u32)
    ensures found == BlockAt(p, off).Some?
    ensures found ==> BlockAt(p, off).value == Block(pos, end, limit) && pos <= limit && end <= limit <= MAX_PACKET_READ
  {
    found, pos, end, limit := false, 0, 0, 0;
    if off >= MAX_PACKET_READ || off > MAX_PACKET_READ - 6 {
      return;
    }
    var contentType, major, handshake := LoadU8(p, off), LoadU8(p, off + 1), LoadU8(p, off + 5);
    if contentType.None? || major.None? || handshake.None? {
      return;
    }
    if contentType.value != 0x16 || major.value != 0x03 || handshake.value != 0x01 {
      return;
    }
    limit := off + MAX_TLS_SCAN;
    if limit > MAX_PACKET_READ {
      limit := MAX_PACKET_READ;
    }
    if off > MAX_PACKET_READ - 44 {
      return;
    }
    pos := off + 43;
    var sessionLen := LoadU8(p, pos);
    if sessionLen.None? {
      return;
    }
    var next: u32 := pos + 1 + sessionLen.value;
    if next < pos || next > limit {
      return;
    }
    pos := next;
    next := pos + 2;
    if next < pos || next > limit {
      return;
    }
    var cipherLen := LoadBe16(p, pos);
    if cipherLen.None? || cipherLen.value > MAX_TLS_SCAN {
      return;
    }
    next := pos + 2 + cipherLen.value;
    if next < pos || next > limit {
      return;
    }
    pos := next;
    next := pos + 1;
    if next < pos || next > limit {
      return;
    }
    var compressionLen := LoadU8(p, pos);
    if compressionLen.None? || compressionLen.value > 32 {
      return;
    }
    next := pos + 1 + compressionLen.value;
    if next < pos || next > limit {
      return;
    }
    pos := next;
    next := pos + 2;
    if next < pos || next > limit {
      return;
    }
    var extsLen := LoadBe16(p, pos);
    if extsLen.None? {
      return;
    }
    pos := next;
    end := pos + extsLen.value;
    if end < pos || end > limit {
      end := limit;
    }
    found := true;
  }

  /** The server_name branch of `check_tls_sni`. */
  method ReadSpan(p: seq<byte>, pos: u32, len: u16, limit: u32) returns (span: Option<Span>)
    requires pos <= limit <= MAX_PACKET_READ
    ensures span == SpanIn(p, pos, len, limit)
    ensures span.Some? ==> span.value.off <= limit && span.value.len < KEY_LEN
  {
    if len < 5 {
      return None;
    }
    var listLen, kind, nameLen := LoadBe16(p, pos), LoadU8(p, pos + 2), LoadBe16(p, pos + 3);
    if listLen.None? || kind.None? || nameLen.None? {
      return None;
    }
    if kind.value != 0 || listLen.value < 3 || nameLen.value == 0 || nameLen.value >= KEY_LEN {
      return None;
    }
    if len < 5 || nameLen.value > len - 5 {
      return None;
    }
    var nameOff: u32 := pos + 5;
    if nameOff < pos || nameOff > limit || nameLen.value > limit - nameOff {
      return None;
    }
    return Some(Span(nameOff, nameLen.value));
  }

  /** The extension loop of `check_tls_sni`. */
  method FindSpan(p: seq<byte>, start: u32, end: u32, limit: u32) returns (span: Option<Span>)
    requires start <= limit && end <= limit <= MAX_PACKET_READ
    ensures span == WalkSpan(p, start, end, limit, MAX_EXTENSIONS)
    ensures span.Some? ==> span.value.off <= limit && span.value.len < KEY_LEN
  {
    var pos: u32 := start;
    for i := 0 to MAX_EXTENSIONS
      invariant 0 <= pos <= limit
      invariant WalkSpan(p, start, end, limit, MAX_EXTENSIONS) == WalkSpan(p, pos, end, limit, MAX_EXTENSIONS - i)
    {
      if pos > end || end - pos < 4 {
        return None;
      }
      var kind, len := LoadBe16(p, pos), LoadBe16(p, pos + 2);
      if kind.None? || len.None? {
        return None;
      }
      var next: u32 := pos + 4;
      if next < pos || next > limit {
        return None;
      }
      pos := next;
      if pos > limit || len.value > MAX_TLS_SCAN || len.value > limit - pos {
        return None;
      }
      if kind.value == 0 {
        span := ReadSpan(p, pos, len.value, limit);
        return;
      }
      pos := pos + len.value;
    }
    return None;
  }

  /** `check_tls_sni`: drop exactly when the name it reaches is in the table. */
  method CheckTlsSni(table: Table, p: seq<byte>, off: u32, scratch: array<byte>) returns (drop: bool)
    requires scratch.Length == KEY_LEN
    modifies scratch
    ensures drop <==> SpanHit(table, p, SniSpan(p, off), Tls)
  {
    var found, pos, end, limit := FindBlock(p, off);
    if !found {
      return false;
    }
    var span := FindSpan(p, pos, end, limit);
    if span.None? {
      return false;
    }
    drop := DomainFromPacketMatches(table, p, span.value.off, span.value.len, Tls, scratch);
  }

  // ---------------------------------------------------------------- agreement with the Go parser

  function Loaded<T>(at: nat, v: T): Option<T> { if at < MAX_PACKET_READ then Some(v) else None }

  lemma HasByte(p: seq<byte>, at: nat, s: seq<byte>, i: nat)
    requires Has(p, at, s) && i < |s|
    ensures LoadU8(p, at + i) == Loaded(at + i, s[i])
  {
    assert p[at + i] == s[i];
  }

  lemma HasWord(p: seq<byte>, at: nat, w: u16, s: seq<byte>)
    requires Has(p, at, Encode16(w) + s)
    ensures Has(p, at + 2, s) && LoadBe16(p, at) == Loaded(at + 1, w)
  {
    HasSplit(p, at, Encode16(w), s);
    HasByte(p, at, Encode16(w), 0);
    HasByte(p, at, Encode16(w), 1);
    CH.Word16(w);
  }

  lemma HasVec8(p: seq<byte>, at: nat, v: seq<byte>, s: seq<byte>)
    requires |v| < 0x100 && Has(p, at, CH.Vec8(v) + s)
    ensures Has(p, at + 1 + |v|, s) && LoadU8(p, at) == Loaded(at, |v|)
  {
    HasSplit(p, at, CH.Vec8(v), s);
    HasByte(p, at, CH.Vec8(v), 0);
  }

  lemma HasVec16(p: seq<byte>, at: nat, v: seq<byte>, s: seq<byte>)
    requires |v| < 0x1_0000 && Has(p, at, CH.Vec16(v) + s)
    ensures Has(p, at + 2, v) && Has(p, at + 2 + |v|, s) && LoadBe16(p, at) == Loaded(at + 1, |v|)
  {
    HasSplit(p, at, CH.Vec16(v), s);
    HasWord(p, at, |v|, v);
  }

  /** Bytes from the payload to the extension block. */
  function BlockOffset(h: CH.Hello): nat {
    5 + 38 + (1 + |h.session|) + (2 + |h.ciphers|) + (1 + |h.compression|) + 2
  }

  function SkippedLen(exts: seq<CH.Extension>): nat {
    if exts == [] then 0 else 4 + |exts[0].data| + SkippedLen(exts[1..])
  }

  /** Bytes from the payload to the first byte of the name. */
  function NameOffset(h: CH.Hello): nat { BlockOffset(h) + SkippedLen(h.before) + 4 + 5 }

  function LimitAt(off: nat): nat { Min(off + 512, 1024) }

  /** The name list is one the bounded walk reads. */
  predicate NameFits(h: CH.Hello) { h.listLen >= 3 && |h.name| < 64 }

  /** The server_name extension ends inside the scan window and no list is over the caps. */
  predicate Fits(h: CH.Hello, off: nat) {
    && off + NameOffset(h) + |h.name| + |h.more| <= LimitAt(off)
    && |h.compression| <= 32 && |h.before| < 16 && NameFits(h)
  }

  lemma RecordLayout(p: seq<byte>, off: nat, h: CH.Hello)
    requires CH.Valid(h) && Has(p, off, CH.Encode(h))
    ensures LoadU8(p, off) == Loaded(off, 0x16) && LoadU8(p, off + 1) == Loaded(off + 1, 0x03)
    ensures Has(p, off + 5, CH.Body(h))
  {
    var head := [0x16, 0x03, h.minor];
    HasSplit(p, off, head, CH.Vec16(CH.Body(h)) + h.rest);
    HasByte(p, off, head, 0);
    HasByte(p, off, head, 1);
    HasVec16(p, off + 3, CH.Body(h), h.rest);
  }

  lemma FieldLayout(p: seq<byte>, at: nat, h: CH.Hello)
    requires CH.Sized(h) && Has(p, at, CH.Body(h))
    ensures LoadU8(p, at) == Loaded(at, 0x01)
    ensures var s := at + 38; LoadU8(p, s) == Loaded(s, |h.session|)
    ensures var c := at + 39 + |h.session|; LoadBe16(p, c) == Loaded(c + 1, |h.ciphers|)
    ensures var m := at + 41 + |h.session| + |h.ciphers|; LoadU8(p, m) == Loaded(m, |h.compression|)
    ensures var e := at + 42 + |h.session| + |h.ciphers| + |h.compression|;
            LoadBe16(p, e) == Loaded(e + 1, |CH.ExtensionBlock(h)|) && Has(p, e + 2, CH.ExtensionBlock(h))
  {
    var s3 := CH.Vec16(CH.ExtensionBlock(h)) + h.trailing;
    var s2 := CH.Vec8(h.compression) + s3;
    var s1 := CH.Vec16(h.ciphers) + s2;
    var opening := CH.Opening(h.msgLen, h.random);
    HasSplit(p, at, opening, CH.Vec8(h.session) + s1);
    HasByte(p, at, opening, 0);
    HasVec8(p, at + 38, h.session, s1);
    HasVec16(p, at + 39 + |h.session|, h.ciphers, s2);
    HasVec8(p, at + 41 + |h.session| + |h.ciphers|, h.compression, s3);
    HasVec16(p, at + 42 + |h.session| + |h.ciphers| + |h.compression|, CH.ExtensionBlock(h), h.trailing);
  }

  /** The block search, given what it loads. */
  lemma BlockFromLoads(p: seq<byte>, off: nat, session: byte, ciphers: u16, compression: byte, exts: u16)
    requires LoadU8(p, off) == Loaded(off, 0x16) && LoadU8(p, off + 1) == Loaded(off + 1, 0x03)
    requires LoadU8(p, off + 5) == Loaded(off + 5, 0x01) && LoadU8(p, off + 43) == Loaded(off + 43, session)
    requires var c := off + 44 + session; LoadBe16(p, c) == Loaded(c + 1, ciphers)
    requires var m := off + 46 + session + ciphers; LoadU8(p, m) == Loaded(m, compression)
    requires var e := off + 47 + session + ciphers + compression; LoadBe16(p, e) == Loaded(e + 1, exts)
    ensures var b := off + 49 + session + ciphers + compression;
            BlockAt(p, off) == if b <= LimitAt(off) && compression <= 32
                               then Some(Block(b, Min(b + exts, LimitAt(off)), LimitAt(off))) else None
  {
    var limit, c, m, e := LimitAt(off), off + 44 + session, off + 46 + session + ciphers, off + 47 + session + ciphers + compression;
    if c + 2 > limit {
      assert BlockAt(p, off) == None;
    } else if m + 1 > limit {
      assert BlockAt(p, off) == None;
    } else if compression > 32 || e + 2 > limit {
      assert BlockAt(p, off) == None;
    } else {
      assert BlockAt(p, off) == Some(Block(e + 2, Min(e + 2 + exts, limit), limit));
    }
  }

  lemma BlockOfEncoded(p: seq<byte>, off: nat, h: CH.Hello)
    requires CH.Valid(h) && Has(p, off, CH.Encode(h))
    ensures Has(p, off + BlockOffset(h), CH.ExtensionBlock(h))
    ensures var b := off + BlockOffset(h);
            BlockAt(p, off) == if b <= LimitAt(off) && |h.compression| <= 32
                               then Some(Block(b, Min(b + |CH.ExtensionBlock(h)|, LimitAt(off)), LimitAt(off))) else None
  {
    RecordLayout(p, off, h);
    FieldLayout(p, off + 5, h);
    BlockFromLoads(p, off, |h.session|, |h.ciphers|, |h.compression|, |CH.ExtensionBlock(h)|);
  }

  lemma NameLayout(p: seq<byte>, pos: nat, h: CH.Hello)
    requires |h.name| < 0x1_0000 && Has(p, pos, CH.NameList(h))
    ensures LoadBe16(p, pos) == Loaded(pos + 1, h.listLen) && LoadU8(p, pos + 2) == Loaded(pos + 2, 0)
    ensures LoadBe16(p, pos + 3) == Loaded(pos + 4, |h.name|) && Has(p, pos + 5, h.name)
  {
    var head := [h.listLen / 256, h.listLen % 256, 0];
    HasSplit(p, pos, head, CH.Vec16(h.name) + h.more);
    HasByte(p, pos, head, 0);
    HasByte(p, pos, head, 1);
    HasByte(p, pos, head, 2);
    CH.Word16(h.listLen);
    HasVec16(p, pos + 3, h.name, h.more);
  }

  lemma SpanOfEncoded(p: seq<byte>, pos: nat, h: CH.Hello, limit: nat)
    requires 0 < |h.name| < 0x1_0000 && Has(p, pos, CH.NameList(h))
    requires pos + |CH.NameList(h)| <= limit <= MAX_PACKET_READ
    ensures SpanIn(p, pos, |CH.NameList(h)|, limit) == if NameFits(h) then Some(Span(pos + 5, |h.name|)) else None
  {
    NameLayout(p, pos, h);
  }

  lemma ExtensionLayout(p: seq<byte>, pos: nat, kind: u16, data: seq<byte>, next: seq<byte>)
    requires |data| < 0x1_0000 && Has(p, pos, CH.ExtensionThen(kind, data, next))
    ensures LoadBe16(p, pos) == Loaded(pos + 1, kind) && LoadBe16(p, pos + 2) == Loaded(pos + 3, |data|)
    ensures Has(p, pos + 4, data) && Has(p, pos + 4 + |data|, next)
  {
    HasWord(p, pos, kind, CH.Vec16(data) + next);
    HasVec16(p, pos + 2, data, next);
  }

  /** One step of the walk, given what it loads; `to` is where the extension ends. */
  lemma WalkFromLoads(p: seq<byte>, pos: nat, end: nat, limit: nat, left: nat, kind: u16, len: u16)
    requires LoadBe16(p, pos) == Loaded(pos + 1, kind) && LoadBe16(p, pos + 2) == Loaded(pos + 3, len)
    requires pos <= end <= limit <= MAX_PACKET_READ && limit <= pos + MAX_TLS_SCAN
    requires end == limit || pos + 4 + len <= end
    ensures WalkSpan(p, pos, end, limit, left) ==
            if left == 0 || pos + 4 + len > limit then None
            else if kind == 0 then SpanIn(p, pos + 4, len, limit)
            else WalkSpan(p, pos + 4 + len, end, limit, left - 1)
  {
  }

  /** The walk reaches the server_name extension itself. */
  lemma WalkAtName(p: seq<byte>, pos: nat, end: nat, limit: nat, left: nat, h: CH.Hello)
    requires 0 < |h.name| < 0x1_0000 && |CH.NameList(h)| < 0x1_0000
    requires Has(p, pos, CH.ExtensionThen(0, CH.NameList(h), h.after))
    requires pos <= end <= limit <= MAX_PACKET_READ && limit <= pos + MAX_TLS_SCAN
    requires end == limit || pos + 4 + |CH.NameList(h)| <= end
    ensures WalkSpan(p, pos, end, limit, left) ==
            if 0 < left && pos + 4 + |CH.NameList(h)| <= limit && NameFits(h) then Some(Span(pos + 4 + 5, |h.name|)) else None
  {
    ExtensionLayout(p, pos, 0, CH.NameList(h), h.after);
    WalkFromLoads(p, pos, end, limit, left, 0, |CH.NameList(h)|);
    if pos + 4 + |CH.NameList(h)| <= limit {
      SpanOfEncoded(p, pos + 4, h, limit);
    }
  }

  lemma {:induction false} WalkOfEncoded(p: seq<byte>, pos: nat, end: nat, limit: nat, left: nat,
                                         exts: seq<CH.Extension>, h: CH.Hello)
    requires CH.Skippable(exts) && 0 < |h.name| < 0x1_0000 && |CH.NameList(h)| < 0x1_0000
    requires Has(p, pos, CH.EncodeExtensions(exts, CH.ExtensionThen(0, CH.NameList(h), h.after)))
    requires pos <= end <= limit <= MAX_PACKET_READ && limit <= pos + MAX_TLS_SCAN
    requires end == limit || pos + SkippedLen(exts) + 4 + |CH.NameList(h)| <= end
    ensures WalkSpan(p, pos, end, limit, left) ==
            if |exts| < left && pos + SkippedLen(exts) + 4 + |CH.NameList(h)| <= limit && NameFits(h)
            then Some(Span(pos + SkippedLen(exts) + 4 + 5, |h.name|)) else None
    decreases |exts|
  {
    var sni := CH.NameList(h);
    if exts == [] {
      WalkAtName(p, pos, end, limit, left, h);
    } else {
      var data := exts[0].data;
      ExtensionLayout(p, pos, exts[0].kind, data, CH.EncodeExtensions(exts[1..], CH.ExtensionThen(0, sni, h.after)));
      WalkFromLoads(p, pos, end, limit, left, exts[0].kind, |data|);
      if left > 0 && pos + 4 + |data| <= limit {
        WalkOfEncoded(p, pos + 4 + |data|, end, limit, left - 1, exts[1..], h);
      }
    }
  }

  lemma {:induction false} NameIsThere(p: seq<byte>, pos: nat, exts: seq<CH.Extension>, h: CH.Hello)
    requires CH.Skippable(exts) && |h.name| < 0x1_0000 && |CH.NameList(h)| < 0x1_0000
    requires Has(p, pos, CH.EncodeExtensions(exts, CH.ExtensionThen(0, CH.NameList(h), h.after)))
    ensures Has(p, pos + SkippedLen(exts) + 4 + 5, h.name)
    decreases |exts|
  {
    if exts == [] {
      ExtensionLayout(p, pos, 0, CH.NameList(h), h.after);
      NameLayout(p, pos + 4, h);
    } else {
      var next := CH.EncodeExtensions(exts[1..], CH.ExtensionThen(0, CH.NameList(h), h.after));
      ExtensionLayout(p, pos, exts[0].kind, exts[0].data, next);
      NameIsThere(p, pos + 4 + |exts[0].data|, exts[1..], h);
    }
  }

  lemma {:induction false} BlockLength(exts: seq<CH.Extension>, next: seq<byte>)
    requires CH.Skippable(exts)
    ensures |CH.EncodeExtensions(exts, next)| == SkippedLen(exts) + |next|
  {
    if exts != [] {
      BlockLength(exts[1..], next);
    }
  }

  /**
    On a packet whose payload is a ClientHello carrying a name, the bounded walk reaches exactly
    that name when the message fits its window and caps, and nothing at all otherwise.
   */
  lemma SpanIffFits(p: seq<byte>, off: nat, h: CH.Hello)
    requires CH.Valid(h) && Has(p, off, CH.Encode(h))
    ensures SniSpan(p, off) == if Fits(h, off) then Some(Span(off + NameOffset(h), |h.name|)) else None
    ensures Has(p, off + NameOffset(h), h.name)
  {
    BlockOfEncoded(p, off, h);
    SpanInBlock(p, off, h, BlockAt(p, off));
    NameIsThere(p, off + BlockOffset(h), h.before, h);
  }

  lemma SpanInBlock(p: seq<byte>, off: nat, h: CH.Hello, block: Option<Block>)
    requires CH.Sized(h) && Has(p, off + BlockOffset(h), CH.ExtensionBlock(h))
    requires var b := off + BlockOffset(h);
             block == if b <= LimitAt(off) && |h.compression| <= 32
                      then Some(Block(b, Min(b + |CH.ExtensionBlock(h)|, LimitAt(off)), LimitAt(off))) else None
    ensures SpanFrom(p, block) == if Fits(h, off) then Some(Span(off + NameOffset(h), |h.name|)) else None
  {
    BlockLength(h.before, CH.ExtensionThen(0, CH.NameList(h), h.after));
    if block.Some? {
      WalkOfEncoded(p, block.value.pos, block.value.end, block.value.limit, MAX_EXTENSIONS, h.before, h);
    }
  }

  lemma HitByName(table: Table, p: seq<byte>, at: nat, name: Text, action: Action)
    requires Has(p, at, name) && 0 < |name| < KEY_LEN && at + |name| <= MAX_PACKET_READ
    ensures PacketHit(table, p, at, |name|, action) <==> Hit(table, Lower(name), action)
  {
    assert p[at..at + |name|] == name;
  }

  /** The packet program drops such a message exactly when it fits and its name is in the table. */
  lemma HelloVerdict(table: Table, p: seq<byte>, off: nat, h: CH.Hello)
    requires CH.Valid(h) && Has(p, off, CH.Encode(h))
    ensures SpanHit(table, p, SniSpan(p, off), Tls) <==> Fits(h, off) && Hit(table, Lower(h.name), Tls)
  {
    SpanIffFits(p, off, h);
    SpanVerdict(table, p, off, h, SniSpan(p, off));
  }

  lemma SpanVerdict(table: Table, p: seq<byte>, off: nat, h: CH.Hello, span: Option<Span>)
    requires h.name != [] && Has(p, off + NameOffset(h), h.name)
    requires span == if Fits(h, off) then Some(Span(off + NameOffset(h), |h.name|)) else None
    ensures SpanHit(table, p, span, Tls) <==> Fits(h, off) && Hit(table, Lower(h.name), Tls)
  {
    if Fits(h, off) {
      HitByName(table, p, off + NameOffset(h), h.name, Tls);
    }
  }

  /**
    For every payload the Go parser reads a name from: the message decomposes, and the packet
    program looks up exactly the lowercase of that name when the message fits.
   */
  lemma ParsersAgree(table: Table, p: seq<byte>, off: nat) returns (h: CH.Hello)
    requires off <= |p| && CH.Sni(p[off..]) != []
    ensures CH.Valid(h) && CH.Encode(h) == p[off..] && h.name == CH.Sni(p[off..])
    ensures SpanHit(table, p, SniSpan(p, off), Tls) <==> Fits(h, off) && Hit(table, Lower(h.name), Tls)
  {
    h := CH.SniDecomposes(p[off..]);
    HelloVerdict(table, p, off, h);
  }

  /** Where the name of a ClientHello is found, it is that name. */
  predicate Names(p: seq<byte>, span: Option<Span>, name: Text) {
    span.Some? ==> span.value.len == |name| && span.value.off + |name| <= |p| && p[span.value.off..span.value.off + |name|] == name
  }

  lemma SpanNames(p: seq<byte>, off: nat, h: CH.Hello)
    requires CH.Valid(h) && Has(p, off, CH.Encode(h))
    ensures Names(p, SniSpan(p, off), h.name)
  {
    SpanIffFits(p, off, h);
    SpanIsName(p, off + NameOffset(h), h.name);
  }

  lemma SpanIsName(p: seq<byte>, at: nat, name: Text)
    requires Has(p, at, name)
    ensures p[at..at + |name|] == name
  {
  }

  /** Whenever both parsers produce a name for the same payload, it is the same name. */
  lemma ParsersNeverDisagree(p: seq<byte>, off: nat)
    requires off <= |p|
    ensures CH.Sni(p[off..]) != [] ==> Names(p, SniSpan(p, off), CH.Sni(p[off..]))
  {
    if CH.Sni(p[off..]) != [] {
      var h := CH.SniDecomposes(p[off..]);
      SpanNames(p, off, h);
    }
  }
}
