/** The fixed-offset Host probe of the packet program. */
module BpfHttp {
  import opened Bytes
  import opened DomainTable
  import opened BpfTls
  import Request = HttpHost

  predicate IsBlank(b: byte) { b == 32 || b == 9 }

  predicate EndsHost(b: byte) { b == 13 || b == 10 || b == 32 || b == 9 || b == 58 }

  /** The position behind one optional blank, if it can be read. */
  function SkipBlank(p: seq<byte>, at: nat): Option<nat> {
    var c :- LoadU8(p, at);
    var next := if IsBlank(c) then at + 1 else at;
    if next >= MAX_PACKET_READ then None else Some(next)
  }

  function SkipBlanks(p: seq<byte>, at: nat): Option<nat> {
    var one :- SkipBlank(p, at);
    SkipBlank(p, one)
  }

  /** How many host bytes follow, at most `left`. */
  function HostRun(p: seq<byte>, at: nat, left: nat): nat
    decreases left
  {
    if left == 0 || LoadU8(p, at).None? || EndsHost(LoadU8(p, at).value) then 0
    else 1 + HostRun(p, at + 1, left - 1)
  }

  predicate HostToken(p: seq<byte>, at: nat) {
    && at + 4 < MAX_PACKET_READ && at + 5 <= |p|
    && LowerByte(p[at]) == 104 && LowerByte(p[at + 1]) == 111 && LowerByte(p[at + 2]) == 115
    && LowerByte(p[at + 3]) == 116 && p[at + 4] == 58
  }

  /** Where the host lies, with up to two blanks skipped, when "host:" is `rel` bytes into the payload. */
  function HostSpan(p: seq<byte>, off: nat, rel: nat): Option<Span> {
    if rel > 64 || off > MAX_PACKET_READ - rel || !HostToken(p, off + rel) then None else
    var start :- SkipBlanks(p, off + rel + 5);
    Some(Span(start, HostRun(p, start, KEY_LEN - 1)))
  }

  /** What `check_http_host` decides. */
  predicate HttpHit(table: Table, p: seq<byte>, off: nat) { SpanHit(table, p, HostSpan(p, off, 16), Http) }

  /** "host:" in any case sixteen bytes into the payload. */
  predicate TokenAt16(p: seq<byte>, off: nat) {
    off + 21 <= |p| && off + 21 <= 1024 && Lower(p[off + 16..off + 21]) == Ascii("host:")
  }

  /** At most two blanks from `from` to `start`, and no third one unless two came before. */
  predicate BlanksTo(p: seq<byte>, from: nat, start: nat) {
    && from <= start <= from + 2 && start < |p| && start < 1024
    && (forall j | from <= j < start :: p[j] in {32, 9}) && (start < from + 2 ==> p[start] !in {32, 9})
  }

  /** Up to `max` bytes that run to CR, LF, a blank, a colon, the packet's end or the scan limit. */
  predicate RunTo(p: seq<byte>, start: nat, len: nat, max: nat) {
    && len <= max && start + len <= |p| && start + len <= 1024
    && (forall j | start <= j < start + len :: p[j] !in {13, 10, 32, 9, 58})
    && (len == max || start + len == |p| || start + len == 1024 || p[start + len] in {13, 10, 32, 9, 58})
  }

  /** The probe's host: 1 to 63 bytes behind the token and the blanks. */
  predicate HostAt(p: seq<byte>, off: nat, start: nat, len: nat) {
    TokenAt16(p, off) && BlanksTo(p, off + 21, start) && 0 < len && RunTo(p, start, len, 63)
  }

  /** Some rule for HTTP names the lowercase of that host. */
  ghost predicate HostListed(table: Table, p: seq<byte>, off: nat) {
    exists start: nat, len: nat :: HostAt(p, off, start, len) && Hit(table, Lower(p[start..start + len]), Http)
  }

  /** `check_http_host`: drop exactly when such a host is in the table. */
  method CheckHttpHost(table: Table, p: seq<byte>, off: u32, scratch: array<byte>) returns (drop: bool)
    requires scratch.Length == KEY_LEN
    modifies scratch
    ensures drop == HttpHit(table, p, off)
    ensures drop <==> HostListed(table, p, off)
    ensures off + 21 <= |p| && Lower(p[off + 16..off + 21]) != Ascii("host:") ==> !drop
  {
    drop := CheckHttpHostAt(table, p, off, 16, scratch);
    HttpHitMeaning(table, p, off);
  }

  /** `check_http_host_at` */
  method CheckHttpHostAt(table: Table, p: seq<byte>, off: u32, rel: u32, scratch: array<byte>) returns (drop: bool)
    requires scratch.Length == KEY_LEN
    modifies scratch
    ensures drop <==> SpanHit(table, p, HostSpan(p, off, rel), Http)
  {
    if off >= MAX_PACKET_READ {
      return false;
    }
    if rel > 64 || off > MAX_PACKET_READ - rel {
      return false;
    }
    var at: u32 := off + rel;
    var h, o, s, t, colon := LoadU8(p, at), LoadU8(p, at + 1), LoadU8(p, at + 2), LoadU8(p, at + 3), LoadU8(p, at + 4);
    if h.None? || o.None? || s.None? || t.None? || colon.None? {
      return false;
    }
    if LowerByte(h.value) != 104 || LowerByte(o.value) != 111 || LowerByte(s.value) != 115 ||
       LowerByte(t.value) != 116 || colon.value != 58 {
      return false;
    }
    var start: u32 := at + 5;
    if start >= MAX_PACKET_READ {
      return false;
    }
    var c := LoadU8(p, start);
    if c.None? {
      return false;
    }
    if IsBlank(c.value) {
      start := start + 1;
    }
    if start >= MAX_PACKET_READ {
      return false;
    }
    c := LoadU8(p, start);
    if c.None? {
      return false;
    }
    if IsBlank(c.value) {
      start := start + 1;
    }
    if start >= MAX_PACKET_READ {
      return false;
    }
    var len := CountHost(p, start);
    drop := DomainFromPacketMatches(table, p, start, len, Http, scratch);
  }

  /** The host-length loop of `check_http_host_at`. */
  method CountHost(p: seq<byte>, start: u32) returns (len: u32)
    requires start < MAX_PACKET_READ
    ensures len == HostRun(p, start, KEY_LEN - 1) < KEY_LEN
  {
    len := 0;
    for j := 0 to KEY_LEN - 1
      invariant len == j
      invariant HostRun(p, start, KEY_LEN - 1) == j + HostRun(p, start + j, KEY_LEN - 1 - j)
    {
      var c := LoadU8(p, start + j);
      if c.None? || EndsHost(c.value) {
        return;
      }
      len := len + 1;
    }
  }

  // ---------------------------------------------------------------- what the probe finds

  /** The run is the one that stops where it must, and only there. */
  lemma {:induction false} HostRunIs(p: seq<byte>, at: nat, left: nat, n: nat)
    requires at <= |p| && at <= 1024
    ensures HostRun(p, at, left) == n <==> RunTo(p, at, n, left)
    decreases left
  {
    if left > 0 && at < |p| && at < 1024 && !EndsHost(p[at]) {
      if n > 0 {
        HostRunIs(p, at + 1, left - 1, n - 1);
        assert RunTo(p, at, n, left) <==> RunTo(p, at + 1, n - 1, left - 1);
      }
    }
  }

  lemma BlanksAre(p: seq<byte>, from: nat, start: nat)
    requires start < |p|
    ensures SkipBlanks(p, from) == Some(start) <==> BlanksTo(p, from, start)
  {
  }

  lemma TokenIs(p: seq<byte>, off: nat)
    ensures HostToken(p, off + 16) <==> TokenAt16(p, off)
  {
    if off + 21 <= |p| && off + 21 <= 1024 {
      var t := p[off + 16..off + 21];
      assert t[0] == p[off + 16] && t[1] == p[off + 17] && t[2] == p[off + 18] && t[3] == p[off + 19] && t[4] == p[off + 20];
      assert Lower(t) == Ascii("host:") <==> forall j | 0 <= j < 5 :: Lower(t)[j] == Ascii("host:")[j];
    }
  }

  /** The probe finds exactly the host that is there. */
  lemma HostFound(p: seq<byte>, off: nat, start: nat, len: nat)
    requires 0 < len
    ensures HostAt(p, off, start, len) <==> start < |p| && HostSpan(p, off, 16) == Some(Span(start, len))
  {
    TokenIs(p, off);
    if start < |p| {
      BlanksAre(p, off + 21, start);
      if start < 1024 {
        HostRunIs(p, start, 63, len);
      }
    }
  }

  lemma HitAt(table: Table, p: seq<byte>, off: nat, start: nat, len: nat)
    requires HostAt(p, off, start, len)
    ensures HttpHit(table, p, off) <==> Hit(table, Lower(p[start..start + len]), Http)
  {
    HostFound(p, off, start, len);
  }

  /** The probe drops exactly when it finds a host and the table holds its lowercase for HTTP. */
  lemma HttpHitMeaning(table: Table, p: seq<byte>, off: nat)
    ensures HttpHit(table, p, off) <==> HostListed(table, p, off)
  {
    if HttpHit(table, p, off) {
      var span := HostSpan(p, off, 16).value;
      HostFound(p, off, span.off, span.len);
    }
    if start: nat, len: nat :| HostAt(p, off, start, len) && Hit(table, Lower(p[start..start + len]), Http) {
      HitAt(table, p, off, start, len);
    }
  }

  /** No other host is there. */
  lemma OneHost(p: seq<byte>, off: nat, start: nat, len: nat, s: nat, n: nat)
    requires HostAt(p, off, start, len) && HostAt(p, off, s, n)
    ensures s == start && n == len
  {
    HostFound(p, off, start, len);
    HostFound(p, off, s, n);
  }

  lemma ListedAt(table: Table, p: seq<byte>, off: nat, start: nat, len: nat)
    requires HostAt(p, off, start, len)
    ensures HostListed(table, p, off) <==> Hit(table, Lower(p[start..start + len]), Http)
  {
    if s: nat, n: nat :| HostAt(p, off, s, n) && Hit(table, Lower(p[s..s + n]), Http) {
      OneHost(p, off, start, len, s, n);
    }
  }

  // ---------------------------------------------------------------- printed requests

  /** How much of a host is looked up: 63 bytes, and none beyond the scan limit. */
  function Probed(host: Text, start: nat): Text {
    var room := Min(63, 1024 - start);
    if room < 0 then [] else if |host| <= room then host else host[..room]
  }

  /** A request line of fourteen bytes and CR-LF, then the Host line. */
  predicate Requests(p: seq<byte>, off: nat, line: Text, text: Text) {
    off <= |p| && |line| == 14 && p[off..] == Request.Print([line], text)
  }

  lemma PrintedAt(p: seq<byte>, off: nat, line: Text, text: Text)
    requires Requests(p, off, line, text)
    ensures Has(p, off + 16, text) && |p| == off + 16 + |text|
  {
    var all := p[off..];
    assert Request.Print([], text) == text && [line][1..] == [];
    assert all == line + ([13, 10] + text);
    forall i | 0 <= i < |text| ensures p[off + 16 + i] == text[i] {
      assert all[16 + i] == text[i];
    }
  }

  lemma HeaderAt(p: seq<byte>, off: nat, token: Text, blanks: Text, host: Text, tail: Text, text: Text)
    requires Has(p, off + 16, text) && |p| == off + 16 + |text|
    requires Request.HostHeader(text, token, blanks, host, tail)
    requires |blanks| <= 2 && host != [] && off + 21 + |blanks| < 1024
    ensures var start := off + 21 + |blanks|;
            HostAt(p, off, start, |Probed(host, start)|) && p[start..start + |Probed(host, start)|] == Probed(host, start)
  {
    var start, rest := off + 21 + |blanks|, blanks + (host + tail);
    HasSplit(p, off + 16, token, rest);
    HasSplit(p, off + 21, blanks, host + tail);
    HasSplit(p, start, host, tail);
    assert p[off + 16..off + 21] == token;
    forall j | off + 21 <= j < start ensures p[j] in {32, 9} {
      assert p[j] == blanks[j - off - 21];
      assert blanks[j - off - 21] in blanks;
    }
    forall j | start <= j < start + |host| ensures p[j] == host[j - start] && p[j] !in {13, 10, 32, 9, 58} {
      assert host[j - start] in host;
    }
    if tail != [] {
      assert p[start + |host|] == tail[0];
    }
    var n := |Probed(host, start)|;
    assert p[start..start + n] == host[..n] == Probed(host, start);
  }

  /**
    A request whose Host line starts at the sixteenth byte, with at most two blanks, is dropped
    exactly when the table holds the lowercase of its host for HTTP, or of the part that is looked up.
   */
  lemma RequestHit(table: Table, p: seq<byte>, off: nat, line: Text, text: Text, token: Text, blanks: Text, host: Text, tail: Text)
    requires Requests(p, off, line, text) && Request.HostHeader(text, token, blanks, host, tail)
    requires |blanks| <= 2 && host != [] && off + 21 + |blanks| < 1024
    ensures HostListed(table, p, off) <==> Hit(table, Lower(Probed(host, off + 21 + |blanks|)), Http)
  {
    var start := off + 21 + |blanks|;
    PrintedAt(p, off, line, text);
    HeaderAt(p, off, token, blanks, host, tail, text);
    ListedAt(table, p, off, start, |Probed(host, start)|);
  }

  /** On such a request, with a host of at most 63 bytes in view, both programs look up the same name. */
  lemma HostChecksAgree(table: Table, p: seq<byte>, off: nat, line: Text, text: Text, token: Text, blanks: Text, host: Text, tail: Text)
    requires Requests(p, off, line, text) && Request.HostHeader(text, token, blanks, host, tail) && Request.OtherLine(line)
    requires |blanks| <= 2 && 0 < |host| <= 63 && off + 21 + |blanks| + |host| <= 1024
    ensures Request.HostOf(p[off..]) == host && (HostListed(table, p, off) <==> Hit(table, Lower(host), Http))
  {
    Request.PrintedHost([line], text, token, blanks, host, tail);
    RequestHit(table, p, off, line, text, token, blanks, host, tail);
  }
}
