/** Domain names as configuration text: trimming, lowercasing and `normalizeDomain`. */
module DomainText {
  import opened Bytes

  const SPACE: byte := 32
  const DOT: byte := 46
  const SLASH: byte := 47
  const COLON: byte := 58

  predicate IsSpace(b: byte) { 9 <= b <= 13 || b == 32 }

  function TrimLeft(s: Text): Text {
    if s != [] && IsSpace(s[0]) then TrimLeft(s[1..]) else s
  }

  function TrimRight(s: Text): Text {
    if s != [] && IsSpace(s[|s| - 1]) then TrimRight(s[..|s| - 1]) else s
  }

  function TrimSpace(s: Text): Text { TrimRight(TrimLeft(s)) }

  predicate OuterSpace(s: Text) { s != [] && (IsSpace(s[0]) || IsSpace(s[|s| - 1])) }

  predicate HasPrefix(s: Text, p: Text) { |p| <= |s| && s[..|p|] == p }

  function TrimPrefix(s: Text, p: Text): Text { if HasPrefix(s, p) then s[|p|..] else s }

  predicate EndsWithDot(s: Text) { s != [] && s[|s| - 1] == DOT }

  function TrimDot(s: Text): Text { if EndsWithDot(s) then s[..|s| - 1] else s }

  /** The text in front of the first `c`, or all of it. */
  function CutAt(s: Text, c: byte): Text {
    if s == [] || s[0] == c then [] else [s[0]] + CutAt(s[1..], c)
  }

  function Normalize(input: Text): Text {
    var s := TrimSpace(Lower(input));
    var s := TrimPrefix(s, Ascii("http://"));
    var s := TrimPrefix(s, Ascii("https://"));
    TrimDot(CutAt(CutAt(s, SLASH), COLON))
  }

  predicate IsLower(s: Text) { forall i | 0 <= i < |s| :: LowerByte(s[i]) == s[i] }

  // ---------------------------------------------------------------- cutting and trimming

  lemma {:induction false} CutIsPrefix(s: Text, c: byte)
    ensures CutAt(s, c) <= s && c !in CutAt(s, c)
    ensures c !in s ==> CutAt(s, c) == s
  {
    if s != [] && s[0] != c {
      CutIsPrefix(s[1..], c);
      assert s == [s[0]] + s[1..];
    }
  }

  lemma {:induction false} TrimLeftIsSuffix(s: Text)
    ensures |TrimLeft(s)| <= |s| && TrimLeft(s) == s[|s| - |TrimLeft(s)|..]
    ensures TrimLeft(s) == [] || !IsSpace(TrimLeft(s)[0])
    ensures s == [] || !IsSpace(s[0]) <==> TrimLeft(s) == s
  {
    if s != [] && IsSpace(s[0]) {
      TrimLeftIsSuffix(s[1..]);
    }
  }

  lemma {:induction false} TrimRightIsPrefix(s: Text)
    ensures TrimRight(s) <= s
    ensures TrimRight(s) == [] || !IsSpace(TrimRight(s)[|TrimRight(s)| - 1])
    ensures s == [] || !IsSpace(s[|s| - 1]) <==> TrimRight(s) == s
  {
    if s != [] && IsSpace(s[|s| - 1]) {
      TrimRightIsPrefix(s[..|s| - 1]);
    }
  }

  /** Trimming removes outer blanks, nothing else, and is done after one pass. */
  lemma TrimSpaceMeaning(s: Text)
    ensures !OuterSpace(TrimSpace(s)) && |TrimSpace(s)| <= |s|
    ensures !OuterSpace(s) <==> TrimSpace(s) == s
    ensures IsLower(s) ==> IsLower(TrimSpace(s))
  {
    var t := TrimLeft(s);
    TrimLeftIsSuffix(s);
    TrimRightIsPrefix(t);
    TrimKeepsLower(s, t, |s| - |t|, TrimRight(t));
    if t == s {
      assert TrimSpace(s) == TrimRight(s);
    }
  }

  lemma TrimKeepsLower(s: Text, t: Text, k: nat, r: Text)
    requires k <= |s| && t == s[k..] && r <= t
    ensures IsLower(s) ==> IsLower(r)
  {
    assert forall i | 0 <= i < |r| :: r[i] == t[i] == s[k + i];
  }

  lemma LowerKeepsSpace(b: byte)
    ensures IsSpace(LowerByte(b)) <==> IsSpace(b)
  {
  }

  lemma {:induction false} LowerTrimLeft(s: Text)
    ensures TrimLeft(Lower(s)) == Lower(TrimLeft(s))
  {
    if s != [] {
      LowerKeepsSpace(s[0]);
      assert Lower(s)[1..] == Lower(s[1..]);
      LowerTrimLeft(s[1..]);
    }
  }

  lemma {:induction false} LowerTrimRight(s: Text)
    ensures TrimRight(Lower(s)) == Lower(TrimRight(s))
  {
    if s != [] {
      LowerKeepsSpace(s[|s| - 1]);
      assert Lower(s)[..|s| - 1] == Lower(s[..|s| - 1]);
      LowerTrimRight(s[..|s| - 1]);
    }
  }

  /** A trimmed entry normalizes to the same name as the raw one. */
  lemma NormalizeIgnoresBlanks(s: Text)
    ensures Normalize(TrimSpace(s)) == Normalize(s)
  {
    LowerTrimLeft(s);
    LowerTrimRight(TrimLeft(s));
    LowerTrimLeft(TrimSpace(s));
    LowerTrimRight(TrimLeft(TrimSpace(s)));
    TrimSpaceMeaning(s);
    TrimSpaceMeaning(TrimSpace(s));
  }

  // ---------------------------------------------------------------- what normal names look like

  lemma LowerIsLower(s: Text)
    ensures IsLower(Lower(s))
    ensures IsLower(s) ==> Lower(s) == s
  {
  }

  lemma TrimPrefixShape(s: Text, p: Text)
    requires IsLower(s)
    ensures IsLower(TrimPrefix(s, p)) && |TrimPrefix(s, p)| <= |s|
  {
  }

  /** A normal name is lowercase and free of path and port. */
  lemma NormalizedShape(s: Text)
    ensures IsLower(Normalize(s))
    ensures SLASH !in Normalize(s) && COLON !in Normalize(s)
    ensures |Normalize(s)| <= |s|
  {
    LowerIsLower(s);
    TrimSpaceMeaning(Lower(s));
    var t := TrimSpace(Lower(s));
    TrimPrefixShape(t, Ascii("http://"));
    var v := TrimPrefix(t, Ascii("http://"));
    TrimPrefixShape(v, Ascii("https://"));
    var u := TrimPrefix(v, Ascii("https://"));
    CutShape(u);
  }

  lemma CutShape(u: Text)
    requires IsLower(u)
    ensures var r := TrimDot(CutAt(CutAt(u, SLASH), COLON));
            IsLower(r) && SLASH !in r && COLON !in r && |r| <= |u|
  {
    CutIsPrefix(u, SLASH);
    CutIsPrefix(CutAt(u, SLASH), COLON);
  }

  lemma NotAPrefix(s: Text, p: Text, k: nat)
    requires k < |p| && p[k] !in s
    ensures !HasPrefix(s, p)
  {
    assert |p| <= |s| ==> s[..|p|][k] == s[k];
  }

  lemma NoScheme(s: Text)
    requires SLASH !in s
    ensures TrimPrefix(TrimPrefix(s, Ascii("http://")), Ascii("https://")) == s
  {
    NotAPrefix(s, Ascii("http://"), 5);
    NotAPrefix(s, Ascii("https://"), 6);
  }

  /** A lowercase name without path and port is normal except for blanks and one final dot. */
  lemma NormalizePlain(s: Text)
    requires IsLower(s) && SLASH !in s && COLON !in s
    ensures Normalize(s) == TrimDot(TrimSpace(s))
  {
    LowerIsLower(s);
    var t := TrimSpace(s);
    TrimLeftIsSuffix(s);
    TrimRightIsPrefix(TrimLeft(s));
    assert forall b | b in t :: b in s;
    NoScheme(t);
    CutIsPrefix(t, SLASH);
    CutIsPrefix(t, COLON);
  }

  /** Normalizing twice changes nothing exactly when no outer blank and no final dot is left. */
  lemma NormalizeFixedPoint(s: Text)
    ensures var r := Normalize(s); Normalize(r) == r <==> !OuterSpace(r) && !EndsWithDot(r)
  {
    var r := Normalize(s);
    NormalizedShape(s);
    NormalizePlain(r);
    TrimSpaceMeaning(r);
  }

  /** A second final dot survives one normalization: "a.." becomes "a.", not a fixed point. */
  lemma NormalizeNotIdempotent()
    ensures exists s :: Normalize(Normalize(s)) != Normalize(s)
  {
    var two: Text, one: Text := [97, DOT, DOT], [97, DOT];
    assert IsLower(two);
    NormalizePlain(two);
    TrimSpaceMeaning(two);
    assert two[..2] == one;
    assert Normalize(two) == one;
    NormalizeFixedPoint(two);
  }

  // ---------------------------------------------------------------- what normalizing removes

  predicate AllBlank(s: Text) { forall i | 0 <= i < |s| :: s[i] in {9, 10, 11, 12, 13, 32} }

  lemma {:induction false} TrimLeftOf(a: Text, m: Text)
    requires AllBlank(a)
    ensures TrimLeft(a + m) == TrimLeft(m)
  {
    if a == [] {
      assert a + m == m;
    } else {
      assert (a + m)[1..] == a[1..] + m;
      TrimLeftOf(a[1..], m);
    }
  }

  lemma {:induction false} TrimRightOf(m: Text, b: Text)
    requires AllBlank(b)
    ensures TrimRight(m + b) == TrimRight(m)
  {
    if b == [] {
      assert m + b == m;
    } else {
      var n := |b| - 1;
      assert (m + b)[..|m| + n] == m + b[..n];
      TrimRightOf(m, b[..n]);
    }
  }

  /** Trimming removes the blanks around a text and nothing else. */
  lemma TrimSpaceOf(a: Text, m: Text, b: Text)
    requires AllBlank(a) && AllBlank(b) && !OuterSpace(m)
    ensures TrimSpace(a + (m + b)) == m
  {
    TrimLeftOf(a, m + b);
    if m == [] {
      assert m + b == b + [];
      TrimLeftOf(b, []);
    } else {
      TrimLeftIsSuffix(m + b);
      TrimRightOf(m, b);
      TrimRightIsPrefix(m);
    }
  }

  lemma {:induction false} TrimLeftSplits(s: Text) returns (a: Text)
    ensures AllBlank(a) && s == a + TrimLeft(s)
  {
    a := [];
    if s != [] && IsSpace(s[0]) {
      a := TrimLeftSplits(s[1..]);
      a := [s[0]] + a;
      assert s == [s[0]] + s[1..];
    }
  }

  lemma {:induction false} TrimRightSplits(s: Text) returns (b: Text)
    ensures AllBlank(b) && s == TrimRight(s) + b
  {
    b := [];
    if s != [] && IsSpace(s[|s| - 1]) {
      b := TrimRightSplits(s[..|s| - 1]);
      b := b + [s[|s| - 1]];
      assert s == s[..|s| - 1] + [s[|s| - 1]];
    }
  }

  lemma TrimSplits(s: Text) returns (a: Text, m: Text, b: Text)
    ensures s == a + (m + b) && AllBlank(a) && AllBlank(b) && !OuterSpace(m)
  {
    m := TrimSpace(s);
    a := TrimLeftSplits(s);
    b := TrimRightSplits(TrimLeft(s));
    TrimSpaceMeaning(s);
  }

  lemma {:induction false} CutKeeps(x: Text, rest: Text, c: byte)
    requires c !in x
    ensures CutAt(x + rest, c) == x + CutAt(rest, c)
  {
    if x == [] {
      assert x + rest == rest && x + CutAt(rest, c) == CutAt(rest, c);
    } else {
      assert (x + rest)[1..] == x[1..] + rest;
      CutKeeps(x[1..], rest, c);
    }
  }

  /** Nothing, or a port or path. */
  predicate PortOrPath(rest: Text) { rest == [] || rest[0] == 47 || rest[0] == 58 }

  lemma CutBoth(x: Text, rest: Text)
    requires 47 !in x && 58 !in x && PortOrPath(rest)
    ensures CutAt(CutAt(x + rest, SLASH), COLON) == x
  {
    CutKeeps(x, rest, SLASH);
    CutKeeps(x, CutAt(rest, SLASH), COLON);
    assert x + [] == x;
  }

  lemma {:induction false} CutSplits(s: Text) returns (x: Text, rest: Text)
    ensures s == x + rest && 47 !in x && 58 !in x && PortOrPath(rest)
  {
    if PortOrPath(s) {
      x, rest := [], s;
    } else {
      x, rest := CutSplits(s[1..]);
      x := [s[0]] + x;
      assert s == [s[0]] + s[1..];
    }
  }

  /**
    The schemes that are removed in front of `body`: one of each kind, "http://" first; what is
    left does not start with one that would still be removed.
   */
  predicate Schemes(scheme: Text, body: Text) {
    || (scheme == [] && !HasPrefix(body, Ascii("http://")) && !HasPrefix(body, Ascii("https://")))
    || (scheme == Ascii("http://") && !HasPrefix(body, Ascii("https://")))
    || scheme == Ascii("https://")
    || scheme == Ascii("http://") + Ascii("https://")
  }

  lemma PrefixOf(p: Text, body: Text)
    ensures HasPrefix(p + body, p) && TrimPrefix(p + body, p) == body
  {
    assert (p + body)[..|p|] == p;
  }

  lemma SchemesDiffer(body: Text)
    ensures !HasPrefix(Ascii("https://") + body, Ascii("http://"))
  {
    var s := Ascii("https://") + body;
    assert s[..7][4] == s[4] == 115;
    assert Ascii("http://")[4] == 58;
  }

  lemma SchemesGo(scheme: Text, body: Text)
    requires Schemes(scheme, body)
    ensures TrimPrefix(TrimPrefix(scheme + body, Ascii("http://")), Ascii("https://")) == body
  {
    if scheme == [] {
      assert scheme + body == body;
    } else if scheme == Ascii("http://") {
      PrefixOf(scheme, body);
    } else if scheme == Ascii("https://") {
      SchemesDiffer(body);
      PrefixOf(scheme, body);
    } else {
      assert scheme + body == Ascii("http://") + (Ascii("https://") + body);
      PrefixOf(Ascii("http://"), Ascii("https://") + body);
      PrefixOf(Ascii("https://"), body);
    }
  }

  lemma PrefixSplits(s: Text, p: Text)
    requires HasPrefix(s, p)
    ensures s == p + TrimPrefix(s, p)
  {
    assert s == s[..|p|] + s[|p|..];
  }

  lemma SchemesSplit(s: Text) returns (scheme: Text, body: Text)
    ensures s == scheme + body && Schemes(scheme, body)
  {
    var one := TrimPrefix(s, Ascii("http://"));
    body := TrimPrefix(one, Ascii("https://"));
    if HasPrefix(s, Ascii("http://")) {
      PrefixSplits(s, Ascii("http://"));
      scheme := Ascii("http://");
      if HasPrefix(one, Ascii("https://")) {
        PrefixSplits(one, Ascii("https://"));
        scheme := Ascii("http://") + Ascii("https://");
        assert s == scheme + body;
      }
    } else if HasPrefix(s, Ascii("https://")) {
      PrefixSplits(s, Ascii("https://"));
      scheme := Ascii("https://");
    } else {
      scheme := [];
    }
  }

  /**
    The parts of an entry: blanks, schemes, the name, at most one dot, a port or path, blanks; all of
    it in any case.
   */
  predicate Parts(input: Text, a: Text, scheme: Text, name: Text, dot: Text, rest: Text, b: Text) {
    && Lower(input) == a + ((scheme + ((name + dot) + rest)) + b)
    && AllBlank(a) && AllBlank(b) && !OuterSpace(scheme + ((name + dot) + rest))
    && Schemes(scheme, (name + dot) + rest)
    && 47 !in name && 58 !in name && PortOrPath(rest)
    && (dot == [46] || (dot == [] && (name == [] || name[|name| - 1] != 46)))
  }

  /** Normalizing an entry gives its name: all other parts are removed. */
  lemma NormalizeParts(input: Text, a: Text, scheme: Text, name: Text, dot: Text, rest: Text, b: Text)
    requires Parts(input, a, scheme, name, dot, rest, b)
    ensures Normalize(input) == name
  {
    TrimSpaceOf(a, scheme + ((name + dot) + rest), b);
    SchemesGo(scheme, (name + dot) + rest);
    CutBoth(name + dot, rest);
    if dot == [] {
      assert name + dot == name;
    } else {
      assert (name + dot)[..|name|] == name;
    }
  }

  /** Every entry has such parts, so they say what the result is for all of them. */
  lemma NormalizeSplits(input: Text) returns (a: Text, scheme: Text, name: Text, dot: Text, rest: Text, b: Text)
    ensures Parts(input, a, scheme, name, dot, rest, b) && name == Normalize(input)
  {
    var text, body, full;
    a, text, b := TrimSplits(Lower(input));
    scheme, body := SchemesSplit(text);
    full, rest := CutSplits(body);
    name, dot := full, [];
    if EndsWithDot(full) {
      name, dot := full[..|full| - 1], [46];
    }
    assert name + dot == full;
    NormalizeParts(input, a, scheme, name, dot, rest, b);
  }

  /** A name normalizes to itself from inside any URL, however it is written. */
  lemma NormalizeUrl(input: Text, a: Text, scheme: Text, name: Text, port: Text, path: Text, b: Text)
    requires Lower(input) == a + ((scheme + (name + (port + path))) + b) && AllBlank(a) && AllBlank(b)
    requires scheme == [] || scheme == Ascii("http://") || scheme == Ascii("https://")
    requires name != [] && forall c | c in name :: c !in {9, 10, 11, 12, 13, 32, 47, 58}
    requires name[|name| - 1] != 46
    requires port == [] || (|port| > 1 && port[0] == 58 && forall i | 1 <= i < |port| :: 48 <= port[i] <= 57)
    requires path == [] || (path[0] == 47 && path[|path| - 1] !in {9, 10, 11, 12, 13, 32})
    ensures Normalize(input) == name
  {
    var rest := port + path;
    assert name + [] == name;
    NotSchemed(name, port, path);
    EdgesInk(scheme, name, rest);
    NormalizeParts(input, a, scheme, name, [], rest, b);
  }

  /** A name with a port or path does not look like a scheme. */
  lemma NotSchemed(name: Text, port: Text, path: Text)
    requires 47 !in name && 58 !in name
    requires port == [] || (|port| > 1 && port[0] == 58 && forall i | 1 <= i < |port| :: 48 <= port[i] <= 57)
    requires path == [] || path[0] == 47
    ensures !HasPrefix(name + (port + path), Ascii("http://")) && !HasPrefix(name + (port + path), Ascii("https://"))
  {
    NotBefore(name, port, path, Ascii("http://"), 4);
    NotBefore(name, port, path, Ascii("https://"), 5);
  }

  lemma NotBefore(name: Text, port: Text, path: Text, p: Text, k: nat)
    requires 47 !in name && 58 !in name && k + 2 < |p| && p[k] == 58 && p[k + 1] == 47
    requires forall i | 0 <= i < k :: p[i] != 58 && p[i] != 47
    requires port == [] || (|port| > 1 && port[0] == 58 && forall i | 1 <= i < |port| :: 48 <= port[i] <= 57)
    requires path == [] || path[0] == 47
    ensures !HasPrefix(name + (port + path), p)
  {
    var s := name + (port + path);
    if |p| <= |s| {
      var i := if |name| == k && port != [] then k + 1 else if |name| < k then |name| else k;
      assert s[i] != p[i];
      assert s[..|p|][i] == s[i];
    }
  }

  /** Neither end of the text is blank. */
  lemma EdgesInk(scheme: Text, name: Text, rest: Text)
    requires scheme == [] || scheme == Ascii("http://") || scheme == Ascii("https://")
    requires name != [] && forall c | c in name :: !IsSpace(c)
    requires rest == [] || !IsSpace(rest[|rest| - 1])
    ensures !OuterSpace(scheme + (name + rest))
  {
    var s := scheme + (name + rest);
    assert name[0] in name && name[|name| - 1] in name;
    assert s[0] == if scheme == [] then name[0] else 104;
    assert s[|s| - 1] == if rest == [] then name[|name| - 1] else rest[|rest| - 1];
  }
}
