/** The Host header of a plain HTTP request (section 7.2 of RFC 9110), as `httpHost` finds it. */
module HttpHost {
  import opened Bytes

  const CR: byte := 13
  const LF: byte := 10

  /** "host:" */
  const TOKEN: Text := [104, 111, 115, 116, 58]

  predicate IsBlank(b: byte) { b == 32 || b == 9 }

  predicate EndsHost(b: byte) { b == CR || b == LF || b == 32 || b == 9 || b == 58 }

  /** `s` occurs in `p` at `i`. */
  predicate At(p: seq<byte>, i: int, s: seq<byte>) { 0 <= i <= |p| - |s| && p[i..i + |s|] == s }

  /** A line starts at `i` and, in any case, it starts with "host:". */
  predicate HostLine(p: seq<byte>, i: int) {
    (i == 0 || At(p, i - 2, [CR, LF])) && At(Lower(p), i, TOKEN)
  }

  /** The first such line. */
  predicate FirstHostLine(p: seq<byte>, i: int) { HostLine(p, i) && forall j | 0 <= j < i :: !HostLine(p, j) }

  /** `host` is the run behind the blanks after position `from`, up to a delimiter or the end. */
  ghost predicate HostRun(p: seq<byte>, from: int, host: Text) {
    exists start :: HostRunAt(p, from, start, host)
  }

  ghost predicate HostRunAt(p: seq<byte>, from: int, start: int, host: Text) {
    && 0 <= from <= start && start + |host| <= |p|
    && (forall j | from <= j < start :: IsBlank(p[j])) && (start < |p| ==> !IsBlank(p[start]))
    && p[start..start + |host|] == host
    && (forall b | b in host :: !EndsHost(b)) && (start + |host| < |p| ==> EndsHost(p[start + |host|]))
  }

  /**
    What `httpHost` is for: the value of the first Host line, without port; nothing when no line
    starts with "host:".
   */
  ghost predicate IsHostOf(p: seq<byte>, host: Text) {
    || ((forall i | 0 <= i <= |p| :: !HostLine(p, i)) && host == [])
    || exists i :: FirstHostLine(p, i) && HostRun(p, i + 5, host)
  }

  /** `bytes.Index` for a needle: the first occurrence or -1. */
  method Index(s: seq<byte>, needle: seq<byte>) returns (at: int)
    ensures at == -1 ==> forall j | 0 <= j <= |s| :: !At(s, j, needle)
    ensures at != -1 ==> At(s, at, needle) && forall j | 0 <= j < at :: !At(s, j, needle)
  {
    at := 0;
    while at + |needle| <= |s|
      invariant 0 <= at
      invariant forall j | 0 <= j < at :: !At(s, j, needle)
    {
      if s[at..at + |needle|] == needle {
        return;
      }
      at := at + 1;
    }
    at := -1;
  }

  /** "\r\nhost:" occurs in the lowered text exactly where a later Host line starts two bytes on. */
  lemma HeaderIsLine(p: seq<byte>, j: int)
    ensures At(Lower(p), j, [CR, LF] + TOKEN) <==> j >= 0 && At(p, j, [CR, LF]) && At(Lower(p), j + 2, TOKEN)
  {
    var header := [CR, LF] + TOKEN;
    if 0 <= j <= |p| - 7 {
      assert Lower(p)[j..j + 7] == Lower(p)[j..j + 2] + Lower(p)[j + 2..j + 7];
      assert header[..2] == [CR, LF] && header[2..] == TOKEN;
      if Lower(p)[j..j + 7] == header {
        assert Lower(p)[j..j + 2] == header[..2] && Lower(p)[j + 2..j + 7] == header[2..];
        assert Lower(p)[j] == Lower(p)[j..j + 2][0] == CR && Lower(p)[j + 1] == Lower(p)[j..j + 2][1] == LF;
      }
      if p[j..j + 2] == [CR, LF] {
        assert p[j] == p[j..j + 2][0] && p[j + 1] == p[j..j + 2][1];
        assert Lower(p)[j..j + 2] == [CR, LF];
      }
    }
  }

  /** The search half of `httpHost`: the first Host line, or -1. */
  method FindLine(payload: seq<byte>) returns (idx: int)
    ensures idx == -1 ==> forall j | 0 <= j <= |payload| :: !HostLine(payload, j)
    ensures idx != -1 ==> FirstHostLine(payload, idx)
  {
    var lower := Lower(payload);
    if |lower| >= 5 && lower[..5] == TOKEN {
      assert lower[0..5] == TOKEN;
      return 0;
    }
    var pos := Index(lower, [CR, LF] + TOKEN);
    forall j ensures At(lower, j, [CR, LF] + TOKEN) <==> j >= 0 && HostLine(payload, j + 2) {
      HeaderIsLine(payload, j);
    }
    assert !HostLine(payload, 0) && !HostLine(payload, 1);
    idx := if pos >= 0 then pos + 2 else -1;
    forall j | 0 <= j <= |payload| && HostLine(payload, j)
      ensures pos >= 0 && idx <= j
    {
      assert At(lower, j - 2, [CR, LF] + TOKEN);
    }
  }

  /** The reading half of `httpHost`: blanks skipped, then up to a delimiter. */
  method ReadHost(payload: seq<byte>, from: nat) returns (host: Text)
    requires from <= |payload|
    ensures HostRun(payload, from, host)
  {
    var start := from;
    while start < |payload| && IsBlank(payload[start])
      invariant from <= start <= |payload|
      invariant forall j | from <= j < start :: IsBlank(payload[j])
    {
      start := start + 1;
    }
    var end := start;
    while end < |payload| && !EndsHost(payload[end])
      invariant start <= end <= |payload|
      invariant forall j | start <= j < end :: !EndsHost(payload[j])
    {
      end := end + 1;
    }
    host := payload[start..end];
    assert HostRunAt(payload, from, start, host);
  }

  /** `httpHost` on ASCII payloads, where lowercasing keeps every byte in place. */
  method FindHost(payload: seq<byte>) returns (host: Text)
    requires forall b | b in payload :: b < 128
    ensures IsHostOf(payload, host)
  {
    var idx := FindLine(payload);
    if idx < 0 {
      return [];
    }
    host := ReadHost(payload, idx + 5);
  }

  // ---------------------------------------------------------------- the answer is unique

  lemma NoLonger(p: seq<byte>, from: int, start: int, a: Text, b: Text)
    requires HostRunAt(p, from, start, a) && HostRunAt(p, from, start, b)
    ensures |b| <= |a|
  {
    forall j | start <= j < start + |b| ensures !EndsHost(p[j]) {
      assert p[j] == b[j - start];
    }
  }

  lemma RunIsUnique(p: seq<byte>, from: int, a: Text, b: Text)
    requires HostRun(p, from, a) && HostRun(p, from, b)
    ensures a == b
  {
    var i :| HostRunAt(p, from, i, a);
    var j :| HostRunAt(p, from, j, b);
    assert i == j;
    NoLonger(p, from, i, a, b);
    NoLonger(p, from, i, b, a);
  }

  /** Every payload has exactly one such host. */
  lemma HostIsUnique(p: seq<byte>, a: Text, b: Text)
    requires IsHostOf(p, a) && IsHostOf(p, b)
    ensures a == b
  {
    if i :| FirstHostLine(p, i) && HostRun(p, i + 5, a) {
      assert 0 <= i <= |p|;
      var j :| FirstHostLine(p, j) && HostRun(p, j + 5, b);
      assert i == j;
      RunIsUnique(p, i + 5, a, b);
    }
  }

  // ---------------------------------------------------------------- the answer as a function

  function LineFrom(p: seq<byte>, i: nat): (r: Option<nat>)
    requires i <= |p|
    ensures r.None? ==> forall j | i <= j <= |p| :: !HostLine(p, j)
    ensures r.Some? ==> i <= r.value && HostLine(p, r.value) && forall j | i <= j < r.value :: !HostLine(p, j)
    decreases |p| - i
  {
    if HostLine(p, i) then Some(i) else if i == |p| then None else LineFrom(p, i + 1)
  }

  function SkipBlanks(p: seq<byte>, i: nat): (r: nat)
    requires i <= |p|
    ensures i <= r <= |p| && (forall j | i <= j < r :: IsBlank(p[j])) && (r < |p| ==> !IsBlank(p[r]))
    decreases |p| - i
  {
    if i < |p| && IsBlank(p[i]) then SkipBlanks(p, i + 1) else i
  }

  function HostEnd(p: seq<byte>, i: nat): (r: nat)
    requires i <= |p|
    ensures i <= r <= |p| && (forall j | i <= j < r :: !EndsHost(p[j])) && (r < |p| ==> EndsHost(p[r]))
    decreases |p| - i
  {
    if i < |p| && !EndsHost(p[i]) then HostEnd(p, i + 1) else i
  }

  function HostOf(p: seq<byte>): Text {
    match LineFrom(p, 0)
    case None => []
    case Some(i) => var start := SkipBlanks(p, i + 5); p[start..HostEnd(p, start)]
  }

  lemma HostOfMeaning(p: seq<byte>)
    ensures IsHostOf(p, HostOf(p))
  {
    var line := LineFrom(p, 0);
    if line.Some? {
      var start := SkipBlanks(p, line.value + 5);
      assert HostRunAt(p, line.value + 5, start, HostOf(p));
      assert FirstHostLine(p, line.value);
    }
  }

  // ---------------------------------------------------------------- printing a request

  lemma TokenSpelled()
    ensures TOKEN == Ascii("host:")
  {
  }

  /** A request line or header that is not a Host line. */
  predicate OtherLine(line: Text) {
    (forall i | 0 <= i < |line| - 1 :: line[i] == 13 ==> line[i + 1] != 10) && !At(Lower(line), 0, Ascii("host:"))
  }

  function Print(lines: seq<Text>, rest: Text): Text {
    if lines == [] then rest else lines[0] + ([13, 10] + Print(lines[1..], rest))
  }

  function PrintedLength(lines: seq<Text>): nat {
    if lines == [] then 0 else |lines[0]| + 2 + PrintedLength(lines[1..])
  }

  /** A Host line in any case with any blanks; `tail` is what follows the host: a port, CR-LF and so on. */
  predicate HostHeader(text: Text, token: Text, blanks: Text, host: Text, tail: Text) {
    && |token| == 5 && Lower(token) == Ascii("host:") && text == token + (blanks + (host + tail))
    && (forall b | b in blanks :: b in {32, 9}) && (forall b | b in host :: b !in {13, 10, 32, 9, 58})
    && (tail == [] || tail[0] in {13, 10, 32, 9, 58}) && (host == [] && tail != [] ==> tail[0] !in {32, 9})
  }

  lemma AtShift(l: Text, q: Text, j: int, s: Text)
    requires j >= 0
    ensures At(l + q, |l| + j, s) <==> At(q, j, s)
  {
    if j + |s| <= |q| {
      assert (l + q)[|l| + j..|l| + j + |s|] == q[j..j + |s|];
    }
  }

  /** Behind a printed line, Host lines are those of what follows it. */
  lemma LineShift(l: Text, q: Text, j: int)
    requires OtherLine(l)
    ensures HostLine(l + ([CR, LF] + q), j) <==> j >= |l| + 2 && HostLine(q, j - |l| - 2)
  {
    var front := l + [CR, LF];
    assert l + ([CR, LF] + q) == front + q;
    if j >= |front| {
      LineBehind(front, q, j - |front|);
    } else {
      NoLineInside(l, q, j);
    }
  }

  lemma LineBehind(front: Text, q: Text, j: nat)
    requires |front| >= 2 && front[|front| - 2..] == [CR, LF]
    ensures HostLine(front + q, |front| + j) <==> HostLine(q, j)
  {
    assert Lower(front + q) == Lower(front) + Lower(q);
    AtShift(Lower(front), Lower(q), j, TOKEN);
    LineStartShift(front, q, j);
  }

  lemma NoLineInside(l: Text, q: Text, j: int)
    requires OtherLine(l) && j < |l| + 2
    ensures !HostLine(l + ([CR, LF] + q), j)
  {
    var p := l + ([CR, LF] + q);
    if j >= 2 {
      assert p[j - 2] == l[j - 2] && p[j - 1] == if j - 1 < |l| then l[j - 1] else CR;
      assert p[j - 2..j][0] == p[j - 2] && p[j - 2..j][1] == p[j - 1];
    } else if j == 0 {
      NotAtStart(l, q);
    }
  }

  lemma LineStartShift(front: Text, q: Text, j: nat)
    requires |front| >= 2 && front[|front| - 2..] == [CR, LF]
    ensures At(front + q, |front| + j - 2, [CR, LF]) <==> j == 0 || At(q, j - 2, [CR, LF])
  {
    var p := front + q;
    if j >= 2 {
      AtShift(front, q, j - 2, [CR, LF]);
    } else if j == 0 {
      assert p[|front| - 2..|front|] == front[|front| - 2..];
    } else {
      assert p[|front| - 1] == front[|front| - 2..][1];
    }
  }

  lemma NotAtStart(l: Text, q: Text)
    requires OtherLine(l)
    ensures !At(Lower(l + ([CR, LF] + q)), 0, TOKEN)
  {
    var p := l + ([CR, LF] + q);
    if |l| >= 5 {
      assert Lower(p)[0..5] == Lower(l)[0..5];
    } else {
      assert Lower(p)[|l|] == CR;
      assert |p| >= 5 ==> Lower(p)[0..5][|l|] == CR;
    }
  }

  lemma {:induction false} FirstInPrinted(lines: seq<Text>, rest: Text)
    requires forall i | 0 <= i < |lines| :: OtherLine(lines[i])
    requires HostLine(rest, 0)
    ensures FirstHostLine(Print(lines, rest), PrintedLength(lines))
    ensures |Print(lines, rest)| == PrintedLength(lines) + |rest| && Print(lines, rest)[PrintedLength(lines)..] == rest
  {
    if lines != [] {
      var l, q, n := lines[0], Print(lines[1..], rest), PrintedLength(lines);
      FirstInPrinted(lines[1..], rest);
      forall j ensures HostLine(Print(lines, rest), j) <==> j >= |l| + 2 && HostLine(q, j - |l| - 2) {
        LineShift(l, q, j);
      }
      assert Print(lines, rest)[n..] == q[n - |l| - 2..];
    }
  }

  lemma RunInHeader(p: Text, k: nat, token: Text, blanks: Text, host: Text, tail: Text)
    requires k <= |p| && HostHeader(p[k..], token, blanks, host, tail)
    ensures HostRunAt(p, k + 5, k + 5 + |blanks|, host)
  {
    var t := p[k..];
    var start := k + 5 + |blanks|;
    forall j | k + 5 <= j < start ensures IsBlank(p[j]) {
      assert p[j] == t[j - k] == blanks[j - k - 5];
      assert blanks[j - k - 5] in blanks;
    }
    assert p[start..start + |host|] == t[start - k..start - k + |host|] == host;
    if tail != [] {
      assert p[start + |host|] == t[start + |host| - k] == tail[0];
    }
    if host != [] {
      assert p[start] == t[start - k] == host[0];
      assert host[0] in host;
    }
  }

  /** So the method and the function agree. */
  lemma FoundIsHostOf(p: seq<byte>, host: Text)
    ensures IsHostOf(p, host) <==> host == HostOf(p)
  {
    HostOfMeaning(p);
    if IsHostOf(p, host) {
      HostIsUnique(p, host, HostOf(p));
    }
  }

  /** Round trip: the host of any printed request is the one its first Host line was printed with. */
  lemma PrintedHost(lines: seq<Text>, text: Text, token: Text, blanks: Text, host: Text, tail: Text)
    requires forall i | 0 <= i < |lines| :: OtherLine(lines[i])
    requires HostHeader(text, token, blanks, host, tail)
    ensures HostOf(Print(lines, text)) == host
  {
    var p, k := Print(lines, text), PrintedLength(lines);
    assert Lower(text)[0..5] == Lower(token);
    FirstInPrinted(lines, text);
    RunInHeader(p, k, token, blanks, host, tail);
    assert HostRun(p, k + 5, host);
    FoundIsHostOf(p, host);
  }
}
