/** The v1.3 signed-header protocol: path canonicalisation, the string to sign, and the split of
    the signature over numbered headers. */
module Signing {
  import opened Wrappers
  import opened Bytes
  import opened Strings
  import Base64

  const SERVER_API_VERSION := "1"

  datatype Request = Request(method_: string, path: string, userId: string, timestamp: string)

  // ---------------------------------------------------------------------------
  // Canonical paths

  function NonEmpty(pieces: seq<string>): seq<string> {
    if pieces == [] then []
    else if pieces[0] == "" then NonEmpty(pieces[1..])
    else [pieces[0]] + NonEmpty(pieces[1..])
  }

  /** What a canonical path stands for: whether the path starts at the root, and its non-empty
      segments.  The empty path counts as "/". */
  datatype Route = Route(rooted: bool, segments: seq<string>)

  function RouteOf(p: string): Route {
    Route(p == "" || p[0] == '/', NonEmpty(Split(p, '/')))
  }

  function Render(r: Route): string {
    (if r.rooted then "/" else "") + Join(r.segments, '/')
  }

  ghost predicate HasDoubleSlash(p: string) {
    exists i :: 0 <= i < |p| - 1 && p[i] == '/' && p[i + 1] == '/'
  }

  /** strings.Contains(p, "//") */
  method ContainsDoubleSlash(p: string) returns (found: bool)
    ensures found <==> HasDoubleSlash(p)
  {
    for i := 0 to |p|
      invariant forall k :: 0 <= k < i && k < |p| - 1 ==> !(p[k] == '/' && p[k + 1] == '/')
    {
      if i < |p| - 1 && p[i] == '/' && p[i + 1] == '/' {
        return true;
      }
    }
    return false;
  }

  /** Both the fast path and the byte loop render the route of the path. */
  method CanonicalPath(p: string) returns (out: string)
    ensures out == Render(RouteOf(p))
  {
    if p == "" {
      return "/";
    }
    var slow := ContainsDoubleSlash(p);
    SqueezedRenders(p);
    if !slow {
      SqueezeNothing(p, false);
      if |p| > 1 && p[|p| - 1] == '/' {
        return p[..|p| - 1];
      }
      return p;
    }
    out := SqueezeLoop(p);
    if |out| > 1 && out[|out| - 1] == '/' {
      out := out[..|out| - 1];
    }
  }

  /** The byte loop of `CanonicalPath`. */
  method SqueezeLoop(p: string) returns (out: string)
    ensures out == Squeeze(p, false)
  {
    out := "";
    var prev: char := '\0';
    for i := 0 to |p|
      invariant out + Squeeze(p[i..], prev == '/') == Squeeze(p, false)
    {
      var c := p[i];
      SqueezeStep(out, p[i..], prev == '/');
      assert p[i..][1..] == p[i + 1..];
      if c == '/' && prev == '/' {
        continue;
      }
      out := out + [c];
      prev := c;
    }
    assert p[|p|..] == "" && out + "" == out;
  }

  lemma SqueezeStep(out: string, rest: string, afterSlash: bool)
    requires rest != ""
    ensures out + Squeeze(rest, afterSlash) ==
            if rest[0] == '/' && afterSlash then out + Squeeze(rest[1..], true)
            else out + [rest[0]] + Squeeze(rest[1..], rest[0] == '/')
  {
  }

  /** `p` without the slashes that follow a slash. */
  function Squeeze(p: string, afterSlash: bool): string {
    if p == "" then ""
    else if p[0] == '/' && afterSlash then Squeeze(p[1..], true)
    else [p[0]] + Squeeze(p[1..], p[0] == '/')
  }

  function TrimOne(p: string): string {
    if p != "" && p[|p| - 1] == '/' then p[..|p| - 1] else p
  }

  lemma {:induction false} SqueezeNothing(p: string, afterSlash: bool)
    requires !HasDoubleSlash(p) && (afterSlash && p != "" ==> p[0] != '/')
    ensures Squeeze(p, afterSlash) == p
  {
    if p != "" {
      forall i | 0 <= i < |p[1..]| - 1 ensures !(p[1..][i] == '/' && p[1..][i + 1] == '/') {
        assert p[1..][i] == p[i + 1] && p[1..][i + 1] == p[i + 2];
      }
      SqueezeNothing(p[1..], p[0] == '/');
    }
  }

  lemma NonEmptySegments(pieces: seq<string>)
    requires forall piece :: piece in pieces ==> Free(piece, '/')
    ensures forall piece :: piece in NonEmpty(pieces) ==> piece != "" && Free(piece, '/')
  {
  }

  lemma {:induction false} JoinSegments(segs: seq<string>)
    requires forall seg :: seg in segs ==> seg != "" && Free(seg, '/')
    ensures Join(segs, '/') == "" <==> segs == []
    ensures segs != [] ==> Join(segs, '/')[0] != '/' && Join(segs, '/')[|Join(segs, '/')| - 1] != '/'
    ensures !HasDoubleSlash(Join(segs, '/'))
  {
    if segs != [] {
      var first := segs[0];
      assert first in segs;
      assert forall i :: 0 <= i < |first| ==> first[i] in first;
      if |segs| > 1 {
        assert forall seg :: seg in segs[1..] ==> seg in segs;
        JoinSegments(segs[1..]);
        var rest := Join(segs[1..], '/');
        var all := first + ['/'] + rest;
        forall i | 0 <= i < |all| - 1 ensures !(all[i] == '/' && all[i + 1] == '/') {
          if i > |first| {
            assert all[i] == rest[i - |first| - 1] && all[i + 1] == rest[i - |first|];
          }
        }
      }
    }
  }

  /** After a slash, squeezing gives the joined segments, perhaps with one slash at the end. */
  lemma {:induction false} SqueezeAfterSlash(p: string)
    ensures TrimOne(Squeeze(p, true)) == Join(NonEmpty(Split(p, '/')), '/')
    ensures Squeeze(p, true) != "" ==> Squeeze(p, true)[0] != '/'
    decreases |p|, 0
  {
    if p != "" {
      if p[0] == '/' {
        SqueezeAfterSlash(p[1..]);
        assert Split(p, '/')[1..] == Split(p[1..], '/');
      } else {
        SqueezeInside([p[0]], p[1..]);
        var r := Split(p[1..], '/');
        assert Split(p, '/') == [[p[0]] + r[0]] + r[1..];
        assert NonEmpty(Split(p, '/')) == [[p[0]] + r[0]] + NonEmpty(r[1..]);
      }
    }
  }

  /** Inside a segment that starts with `w`. */
  lemma {:induction false} SqueezeInside(w: string, p: string)
    requires w != "" && Free(w, '/')
    ensures TrimOne(w + Squeeze(p, false))
            == Join([w + Split(p, '/')[0]] + NonEmpty(Split(p, '/')[1..]), '/')
    decreases |p|, 1
  {
    var r := Split(p, '/');
    if p == "" {
      assert w[|w| - 1] in w;
      assert w + "" == w;
    } else if p[0] == '/' {
      SqueezeAfterSlash(p[1..]);
      SegmentEnds(w, p[1..]);
      assert r[0] == "" && r[1..] == Split(p[1..], '/') && w + r[0] == w;
      assert w + Squeeze(p, false) == w + "/" + Squeeze(p[1..], true);
    } else {
      SqueezeInside(w + [p[0]], p[1..]);
      var r1 := Split(p[1..], '/');
      assert r == [[p[0]] + r1[0]] + r1[1..];
      assert w + [p[0]] + Squeeze(p[1..], false) == w + Squeeze(p, false);
      assert w + [p[0]] + r1[0] == w + r[0];
    }
  }

  /** A slash ends the segment `w`, and `rest` follows. */
  lemma SegmentEnds(w: string, rest: string)
    requires w != "" && Free(w, '/')
    requires TrimOne(Squeeze(rest, true)) == Join(NonEmpty(Split(rest, '/')), '/')
    requires Squeeze(rest, true) != "" ==> Squeeze(rest, true)[0] != '/'
    ensures TrimOne(w + "/" + Squeeze(rest, true)) == Join([w] + NonEmpty(Split(rest, '/')), '/')
  {
    var s, segs := Squeeze(rest, true), NonEmpty(Split(rest, '/'));
    JoinSplit(rest, '/');
    NonEmptySegments(Split(rest, '/'));
    JoinSegments(segs);
    if s == "" {
      assert TrimOne(w + "/" + s) == w;
      assert [w] + segs == [w];
    } else {
      assert TrimOne(w + "/" + s) == w + "/" + TrimOne(s);
      assert ([w] + segs)[1..] == segs;
    }
  }

  lemma SplitFirst(p: string)
    requires p != "" && p[0] != '/'
    ensures Split(p, '/') == [[p[0]] + Split(p[1..], '/')[0]] + Split(p[1..], '/')[1..]
    ensures NonEmpty(Split(p, '/')) == [[p[0]] + Split(p[1..], '/')[0]] + NonEmpty(Split(p[1..], '/')[1..])
  {
  }

  function TrimLong(q: string): string {
    if |q| > 1 && q[|q| - 1] == '/' then q[..|q| - 1] else q
  }

  lemma TrimAfterRoot(q: string)
    requires q != "" ==> q[0] != '/'
    ensures TrimLong("/" + q) == "/" + TrimOne(q)
  {
  }

  /** The byte loop followed by the final trim renders the route. */
  lemma SqueezedRenders(p: string)
    requires p != ""
    ensures TrimLong(Squeeze(p, false)) == Render(RouteOf(p))
  {
    if p[0] == '/' {
      SqueezeAfterSlash(p[1..]);
      TrimAfterRoot(Squeeze(p[1..], true));
      assert NonEmpty(Split(p, '/')) == NonEmpty(Split(p[1..], '/')) by {
        assert Split(p, '/')[1..] == Split(p[1..], '/');
      }
    } else {
      SqueezeInside([p[0]], p[1..]);
      SplitFirst(p);
    }
  }

  lemma {:induction false} NonEmptyOfSegments(segs: seq<string>)
    requires forall seg :: seg in segs ==> seg != ""
    ensures NonEmpty(segs) == segs
  {
    if segs != [] {
      assert segs[0] in segs && forall seg :: seg in segs[1..] ==> seg in segs;
      NonEmptyOfSegments(segs[1..]);
    }
  }

  /** Rendering loses nothing of a route. */
  lemma RouteOfRender(p: string)
    ensures RouteOf(Render(RouteOf(p))) == RouteOf(p)
  {
    var r := RouteOf(p);
    JoinSplit(p, '/');
    NonEmptySegments(Split(p, '/'));
    JoinSegments(r.segments);
    NonEmptyOfSegments(r.segments);
    if r.segments != [] {
      SplitJoin(r.segments, '/');
      if r.rooted {
        assert Render(r)[1..] == Join(r.segments, '/');
        assert Split(Render(r), '/') == [""] + r.segments;
        assert NonEmpty([""] + r.segments) == NonEmpty(r.segments) by {
          assert ([""] + r.segments)[1..] == r.segments;
        }
      } else {
        assert Render(r) == Join(r.segments, '/');
      }
    } else {
      if !r.rooted {
        UnrootedHasSegment(p);
      }
      assert Split("/", '/') == ["", ""] && NonEmpty(["", ""]) == NonEmpty([""]) == [];
    }
  }

  lemma UnrootedHasSegment(p: string)
    requires p != "" && p[0] != '/'
    ensures NonEmpty(Split(p, '/')) != []
  {
  }

  /** Two paths have the same canonical form exactly when they have the same route; in particular
      canonicalising twice changes nothing, and the canonical form is clean. */
  lemma CanonicalDecides(p: string, q: string)
    ensures Render(RouteOf(p)) == Render(RouteOf(q)) <==> RouteOf(p) == RouteOf(q)
    ensures Render(RouteOf(Render(RouteOf(p)))) == Render(RouteOf(p))
    ensures !HasDoubleSlash(Render(RouteOf(p)))
    ensures Render(RouteOf(p)) != ""
    ensures Render(RouteOf(p))[|Render(RouteOf(p))| - 1] == '/' <==> Render(RouteOf(p)) == "/"
  {
    RouteOfRender(p);
    RouteOfRender(q);
    var r := RouteOf(p);
    JoinSplit(p, '/');
    NonEmptySegments(Split(p, '/'));
    JoinSegments(r.segments);
    if r.segments == [] {
      if !r.rooted {
        UnrootedHasSegment(p);
      }
    } else {
      assert r.rooted ==> Render(r)[1..] == Join(r.segments, '/');
      forall i | 0 <= i < |Render(r)| - 1 ensures !(Render(r)[i] == '/' && Render(r)[i + 1] == '/') {
        if r.rooted && i > 0 {
          assert Render(r)[i] == Render(r)[1..][i - 1] && Render(r)[i + 1] == Render(r)[1..][i];
        }
      }
    }
  }

  /** A canonical path has no character that is not in the path, but for a slash. */
  lemma RenderChars(p: string, c: char)
    requires c != '/' && Free(p, c)
    ensures Free(Render(RouteOf(p)), c)
  {
    if p != "" {
      SqueezedRenders(p);
      SqueezeChars(p, false, c);
    }
  }

  lemma SqueezeChars(p: string, afterSlash: bool, c: char)
    requires Free(p, c)
    ensures Free(Squeeze(p, afterSlash), c)
  {
  }

  // ---------------------------------------------------------------------------
  // The string to sign

  function Lines(r: Request, contentHash: string): seq<string> {
    ["Method:" + r.method_,
     "Path:" + Render(RouteOf(r.path)),
     "X-Ops-Content-Hash:" + contentHash,
     "X-Ops-Sign:version=1.3",
     "X-Ops-Timestamp:" + r.timestamp,
     "X-Ops-UserId:" + r.userId,
     "X-Ops-Server-API-Version:" + SERVER_API_VERSION]
  }

  function StringToSign(r: Request, contentHash: string): string {
    Join(Lines(r, contentHash), '\n')
  }

  method CanonicalRequest(r: Request, contentHash: string) returns (b: string)
    ensures b == StringToSign(r, contentHash)
    ensures OneLine(r) && Free(contentHash, '\n') ==> SevenLines(Split(b, '\n'), r, contentHash)
  {
    var path := CanonicalPath(r.path);
    b := WriteAll(r, path, contentHash, Lines(r, contentHash));
    if OneLine(r) && Free(contentHash, '\n') {
      LinesAreLines(r, contentHash);
      SplitJoin(Lines(r, contentHash), '\n');
    }
  }

  /** The seven lines of the protocol, each with its label. */
  ghost predicate SevenLines(lines: seq<string>, r: Request, contentHash: string) {
    && |lines| == 7
    && lines[0] == "Method:" + r.method_
    && lines[1] == "Path:" + Render(RouteOf(r.path))
    && lines[2] == "X-Ops-Content-Hash:" + contentHash
    && lines[3] == "X-Ops-Sign:version=1.3"
    && lines[4] == "X-Ops-Timestamp:" + r.timestamp
    && lines[5] == "X-Ops-UserId:" + r.userId
    && lines[6] == "X-Ops-Server-API-Version:1"
  }

  /** The writes to the builder, field by field. */
  method WriteAll(r: Request, path: string, contentHash: string, ghost l: seq<string>) returns (b: string)
    requires l == ["Method:" + r.method_, "Path:" + path, "X-Ops-Content-Hash:" + contentHash, "X-Ops-Sign:version=1.3",
                   "X-Ops-Timestamp:" + r.timestamp, "X-Ops-UserId:" + r.userId,
                   "X-Ops-Server-API-Version:" + SERVER_API_VERSION]
    ensures b == Join(l, '\n')
  {
    b := "Method:" + r.method_;
    assert b == Join(l[..1], '\n');
    b := WriteField(b, "\nPath:", path, l, 1, "Path:");
    b := WriteField(b, "\nX-Ops-Content-Hash:", contentHash, l, 2, "X-Ops-Content-Hash:");
    b := WriteField(b, "\nX-Ops-Sign:", "version=1.3", l, 3, "X-Ops-Sign:");
    b := WriteField(b, "\nX-Ops-Timestamp:", r.timestamp, l, 4, "X-Ops-Timestamp:");
    b := WriteField(b, "\nX-Ops-UserId:", r.userId, l, 5, "X-Ops-UserId:");
    b := WriteField(b, "\nX-Ops-Server-API-Version:", SERVER_API_VERSION, l, 6, "X-Ops-Server-API-Version:");
    assert l[..7] == l;
  }

  /** Two writes to the builder: a separator with a field's name, and its value. */
  method WriteField(b: string, separator: string, value: string, ghost l: seq<string>, ghost k: nat, ghost name: string)
    returns (b': string)
    requires separator == "\n" + name
    requires 1 <= k < |l| && b == Join(l[..k], '\n') && l[k] == name + value
    ensures b' == b + separator + value && b' == Join(l[..k + 1], '\n')
  {
    b' := b + separator;
    b' := b' + value;
    JoinAppend(l[..k], [l[k]], '\n');
    assert l[..k] + [l[k]] == l[..k + 1];
    assert b' == b + "\n" + l[k];
  }

  ghost predicate OneLine(r: Request) {
    Free(r.method_, '\n') && Free(r.path, '\n') && Free(r.userId, '\n') && Free(r.timestamp, '\n')
  }

  lemma LinesAreLines(r: Request, contentHash: string)
    requires OneLine(r) && Free(contentHash, '\n')
    ensures forall line :: line in Lines(r, contentHash) ==> Free(line, '\n')
  {
    RenderChars(r.path, '\n');
    var l := Lines(r, contentHash);
    forall i | 0 <= i < |l| ensures Free(l[i], '\n') {
    }
  }

  lemma SameTail(prefix: string, a: string, b: string)
    requires prefix + a == prefix + b
    ensures a == b
  {
    assert a == (prefix + a)[|prefix|..] && b == (prefix + b)[|prefix|..];
  }

  /** For fields without newlines the string to sign determines the request up to the spelling of
      its path: it is the same exactly when every field is and the paths have the same route. */
  lemma StringToSignDecides(r: Request, h: string, r': Request, h': string)
    requires OneLine(r) && OneLine(r') && Free(h, '\n') && Free(h', '\n')
    ensures StringToSign(r, h) == StringToSign(r', h') <==>
            && r.method_ == r'.method_ && RouteOf(r.path) == RouteOf(r'.path) && h == h'
            && r.timestamp == r'.timestamp && r.userId == r'.userId
  {
    if StringToSign(r, h) == StringToSign(r', h') {
      LinesAreLines(r, h);
      LinesAreLines(r', h');
      SplitJoin(Lines(r, h), '\n');
      SplitJoin(Lines(r', h'), '\n');
      var l, l' := Lines(r, h), Lines(r', h');
      assert l == l';
      assert l[0] == l'[0] && l[1] == l'[1] && l[2] == l'[2] && l[4] == l'[4] && l[5] == l'[5];
      SameTail("Method:", r.method_, r'.method_);
      SameTail("Path:", Render(RouteOf(r.path)), Render(RouteOf(r'.path)));
      SameTail("X-Ops-Content-Hash:", h, h');
      SameTail("X-Ops-Timestamp:", r.timestamp, r'.timestamp);
      SameTail("X-Ops-UserId:", r.userId, r'.userId);
      CanonicalDecides(r.path, r'.path);
    }
  }

  // ---------------------------------------------------------------------------
  // The signature's headers

  /** The pieces give back the text; there are exactly as many as were allotted; all are full but
      the last, which is not empty. */
  method Chunk60(s: string) returns (out: seq<string>)
    ensures Concat(out) == s
    ensures |out| == (|s| + 59) / 60
    ensures forall i :: 0 <= i < |out| - 1 ==> |out[i]| == 60
    ensures out != [] ==> 1 <= |out[|out| - 1]| <= 60
  {
    out := [];
    var rest := s;
    while |rest| > 60
      invariant Concat(out) + rest == s
      invariant |s| == 60 * |out| + |rest|
      invariant out != [] ==> rest != ""
      invariant forall i :: 0 <= i < |out| ==> |out[i]| == 60
    {
      ConcatSnoc(out, rest[..60]);
      assert rest == rest[..60] + rest[60..];
      out := out + [rest[..60]];
      rest := rest[60..];
    }
    if |rest| > 0 {
      ConcatSnoc(out, rest);
      out := out + [rest];
    }
  }

  /** strconv.Itoa on the naturals. */
  function Itoa(n: nat): string {
    if n < 10 then ['0' + n as char] else Itoa(n / 10) + ['0' + (n % 10) as char]
  }

  lemma {:induction false} ItoaInjective(m: nat, n: nat)
    requires Itoa(m) == Itoa(n)
    ensures m == n
  {
    var s, t := Itoa(m), Itoa(n);
    assert s[|s| - 1] == t[|t| - 1];
    assert s[..|s| - 1] == t[..|t| - 1];
    if m >= 10 {
      assert s[..|s| - 1] == Itoa(m / 10);
    }
    if n >= 10 {
      assert t[..|t| - 1] == Itoa(n / 10);
    }
    if m >= 10 && n >= 10 {
      ItoaInjective(m / 10, n / 10);
    }
  }

  /** The number a string of decimal digits stands for. */
  function ReadDecimal(s: string): int {
    if s == "" then 0 else 10 * ReadDecimal(s[..|s| - 1]) + (s[|s| - 1] as int - '0' as int)
  }

  /** Decimal notation: digits only, no leading zero, and they read as the number. */
  lemma {:induction false} ItoaIsDecimal(n: nat)
    ensures Itoa(n) != "" && ReadDecimal(Itoa(n)) == n
    ensures forall c :: c in Itoa(n) ==> '0' <= c <= '9'
    ensures Itoa(n)[0] == '0' ==> n == 0 && Itoa(n) == "0"
  {
    if n < 10 {
      assert Itoa(n)[..0] == "";
      assert ReadDecimal("") == 0;
    } else {
      ItoaIsDecimal(n / 10);
      assert Itoa(n)[..|Itoa(n)| - 1] == Itoa(n / 10);
    }
  }

  function AuthorizationKey(i: nat): string {
    "X-Ops-Authorization-" + Itoa(i)
  }

  lemma KeysDistinct(i: nat, j: nat)
    requires AuthorizationKey(i) == AuthorizationKey(j)
    ensures i == j
  {
    SameTail("X-Ops-Authorization-", Itoa(i), Itoa(j));
    ItoaInjective(i, j);
  }

  /** The pieces under the keys 1 to `n`. */
  function Collected(h: map<string, string>, n: nat): string
    requires forall i :: 1 <= i <= n ==> AuthorizationKey(i) in h
  {
    if n == 0 then "" else Collected(h, n - 1) + h[AuthorizationKey(n)]
  }

  /** The keys 1 to `n` are present and the key `n + 1` is not. */
  ghost predicate Numbered(h: map<string, string>, n: nat) {
    && (forall i :: 1 <= i <= n ==> AuthorizationKey(i) in h)
    && AuthorizationKey(n + 1) !in h
  }

  /** What a server needs of a request to check its signature. */
  ghost predicate Carries(h: map<string, string>, r: Request, contentHash: string) {
    && "X-Ops-Sign" in h && h["X-Ops-Sign"] == "version=1.3"
    && "X-Ops-UserId" in h && h["X-Ops-UserId"] == r.userId
    && "X-Ops-Timestamp" in h && h["X-Ops-Timestamp"] == r.timestamp
    && "X-Ops-Content-Hash" in h && h["X-Ops-Content-Hash"] == contentHash
    && "X-Ops-Server-API-Version" in h && h["X-Ops-Server-API-Version"] == "1"
  }

  /** The string to sign, rebuilt by a server from the headers and the method and path it sees. */
  function Rebuilt(h: map<string, string>, method_: string, path: string): string
    requires "X-Ops-UserId" in h && "X-Ops-Timestamp" in h && "X-Ops-Content-Hash" in h
  {
    StringToSign(Request(method_, path, h["X-Ops-UserId"], h["X-Ops-Timestamp"]), h["X-Ops-Content-Hash"])
  }

  /** A server rebuilds the string that was signed from the headers of a request and any path with
      the same route, and from no other method or path: a signature is good for one resource. */
  lemma ServerRebuilds(h: map<string, string>, r: Request, contentHash: string, method_: string, path: string)
    requires Carries(h, r, contentHash) && OneLine(r) && Free(contentHash, '\n')
    requires Free(method_, '\n') && Free(path, '\n')
    ensures Rebuilt(h, method_, path) == StringToSign(r, contentHash) <==>
            method_ == r.method_ && RouteOf(path) == RouteOf(r.path)
  {
    StringToSignDecides(Request(method_, path, r.userId, r.timestamp), contentHash, r, contentHash);
  }

  /** The headers a signed request has, by their names: the five fixed ones, and "X-Ops-Authorization-"
      with each numeral from 1 to `n`. */
  ghost predicate IsHeader(name: string, n: nat) {
    || name in {"X-Ops-Sign", "X-Ops-UserId", "X-Ops-Timestamp", "X-Ops-Content-Hash", "X-Ops-Server-API-Version"}
    || exists k: nat :: 1 <= k <= n && name == "X-Ops-Authorization-" + Itoa(k)
  }

  type Signer = string -> Option<Bytes>
  type Hasher = Bytes -> Bytes

  /** The headers of a signed request; `sign` hashes and signs.  A reader that collects the numbered
      pieces from 1 until one is missing gets the text of the signature of the string to sign. */
  method SignHeaders(r: Request, body: Bytes, sha256: Hasher, sign: Signer)
    returns (h: Option<map<string, string>>, ghost n: nat)
    ensures h.None? <==> sign(StringToSign(r, Base64.Encode(sha256(body)))).None?
    ensures h.Some? ==>
              var signature := sign(StringToSign(r, Base64.Encode(sha256(body)))).value;
              && Numbered(h.value, n)
              && (forall m :: Numbered(h.value, m) ==> m == n && Collected(h.value, m) == Base64.Encode(signature))
              && n == (|Base64.Encode(signature)| + 59) / 60
    ensures h.Some? ==> Carries(h.value, r, Base64.Encode(sha256(body)))
    ensures h.Some? ==> forall name :: name in h.value <==> IsHeader(name, n)
    ensures h.Some? && n > 0 ==> "X-Ops-Authorization-1" in h.value
  {
    n := 0;
    var contentHash := Base64.Encode(sha256(body));
    var canonical := CanonicalRequest(r, contentHash);
    var signature := sign(canonical);
    if signature.None? {
      return None, n;
    }
    var fixed := FixedHeaders(r, contentHash);
    var headers;
    headers, n := SetSignature(fixed, signature.value);
    HeaderNames(fixed, headers, n);
    return Some(headers), n;
  }

  method FixedHeaders(r: Request, contentHash: string) returns (h: map<string, string>)
    ensures Carries(h, r, contentHash) && forall j: nat :: AuthorizationKey(j) !in h
    ensures FixedOnly(h)
  {
    h := map["X-Ops-Sign" := "version=1.3", "X-Ops-UserId" := r.userId, "X-Ops-Timestamp" := r.timestamp,
             "X-Ops-Content-Hash" := contentHash, "X-Ops-Server-API-Version" := SERVER_API_VERSION];
    KeysDistinctFromFixed(h);
  }

  ghost predicate FixedOnly(h: map<string, string>) {
    forall name :: name in h <==>
      name in {"X-Ops-Sign", "X-Ops-UserId", "X-Ops-Timestamp", "X-Ops-Content-Hash", "X-Ops-Server-API-Version"}
  }

  ghost predicate Extended(fixed: map<string, string>, h: map<string, string>, n: nat) {
    forall name :: name in h <==> name in fixed || exists j: nat :: 1 <= j <= n && name == AuthorizationKey(j)
  }

  lemma HeaderNames(fixed: map<string, string>, h: map<string, string>, n: nat)
    requires FixedOnly(fixed) && Extended(fixed, h, n)
    ensures forall name :: name in h <==> IsHeader(name, n)
    ensures n > 0 ==> "X-Ops-Authorization-1" in h
  {
    forall name ensures name in h <==> IsHeader(name, n) {
      assert forall j: nat :: AuthorizationKey(j) == "X-Ops-Authorization-" + Itoa(j);
    }
    assert Itoa(1) == "1" && "X-Ops-Authorization-" + Itoa(1) == "X-Ops-Authorization-1";
  }

  /** The text of the signature, split over the numbered headers. */
  method SetSignature(fixed: map<string, string>, signature: Bytes) returns (h: map<string, string>, ghost n: nat)
    requires forall j: nat :: AuthorizationKey(j) !in fixed
    ensures Numbered(h, n)
    ensures forall m :: Numbered(h, m) ==> m == n && Collected(h, m) == Base64.Encode(signature)
    ensures n == (|Base64.Encode(signature)| + 59) / 60
    ensures (forall k :: k in fixed ==> k in h && h[k] == fixed[k]) && Extended(fixed, h, n)
  {
    var chunks := Chunk60(Base64.Encode(signature));
    n := |chunks|;
    h := SetAuthorization(fixed, chunks);
  }

  /** The loop that sets one numbered header for each chunk. */
  method SetAuthorization(fixed: map<string, string>, chunks: seq<string>) returns (h: map<string, string>)
    requires forall j: nat :: AuthorizationKey(j) !in fixed
    ensures forall j: nat :: AuthorizationKey(j) in h <==> 1 <= j <= |chunks|
    ensures Collected(h, |chunks|) == Concat(chunks)
    ensures (forall k :: k in fixed ==> k in h && h[k] == fixed[k]) && Extended(fixed, h, |chunks|)
  {
    h := fixed;
    for i := 0 to |chunks|
      invariant forall j: nat :: AuthorizationKey(j) in h <==> 1 <= j <= i
      invariant Collected(h, i) == Concat(chunks[..i])
      invariant (forall k :: k in fixed ==> k in h && h[k] == fixed[k]) && Extended(fixed, h, i)
    {
      ghost var before := h;
      h := h[AuthorizationKey(i + 1) := chunks[i]];
      forall j: nat ensures AuthorizationKey(j) in h <==> 1 <= j <= i + 1 {
        if AuthorizationKey(j) == AuthorizationKey(i + 1) {
          KeysDistinct(j, i + 1);
        }
      }
      CollectedSame(before, h, i);
      ConcatSnoc(chunks[..i], chunks[i]);
      assert chunks[..i + 1] == chunks[..i] + [chunks[i]];
    }
    assert chunks[..|chunks|] == chunks;
  }

  lemma KeysDistinctFromFixed(h: map<string, string>)
    requires h.Keys == {"X-Ops-Sign", "X-Ops-UserId", "X-Ops-Timestamp", "X-Ops-Content-Hash", "X-Ops-Server-API-Version"}
    ensures forall j: nat :: AuthorizationKey(j) !in h
  {
    forall j: nat ensures AuthorizationKey(j) !in h {
      assert AuthorizationKey(j)[6] == 'A';
      assert "X-Ops-Sign"[6] == 'S' && "X-Ops-UserId"[6] == 'U' && "X-Ops-Timestamp"[6] == 'T'
          && "X-Ops-Content-Hash"[6] == 'C' && "X-Ops-Server-API-Version"[6] == 'S';
    }
  }

  lemma {:induction false} CollectedSame(h: map<string, string>, h': map<string, string>, n: nat)
    requires forall i :: 1 <= i <= n ==>
               AuthorizationKey(i) in h && AuthorizationKey(i) in h' && h[AuthorizationKey(i)] == h'[AuthorizationKey(i)]
    ensures Collected(h, n) == Collected(h', n)
  {
    if n > 0 {
      CollectedSame(h, h', n - 1);
    }
  }
}
