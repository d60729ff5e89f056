/** Standard base64 (section 4 of RFC 4648) as Go's decoder reads it, and the whitespace
    stripping in front of it. */
module Base64 {
  import opened Wrappers
  import opened Bytes
  import opened Strings

  type sextet = i: int | 0 <= i < 64

  function EncodeChar(i: sextet): char {
    if i < 26 then 'A' + i as char
    else if i < 52 then 'a' + (i - 26) as char
    else if i < 62 then '0' + (i - 52) as char
    else if i == 62 then '+' else '/'
  }

  function DecodeChar(c: char): Option<sextet> {
    if 'A' <= c <= 'Z' then Some(c as int - 'A' as int)
    else if 'a' <= c <= 'z' then Some(c as int - 'a' as int + 26)
    else if '0' <= c <= '9' then Some(c as int - '0' as int + 52)
    else if c == '+' then Some(62)
    else if c == '/' then Some(63)
    else None
  }

  lemma DecodeEncodeChar(i: sextet)
    ensures DecodeChar(EncodeChar(i)) == Some(i)
    ensures EncodeChar(i) != '=' && EncodeChar(i) != '\n' && !IsSpace(EncodeChar(i))
  {
  }

  /** The alphabet of table 1 of RFC 4648: A to Z, a to z, 0 to 9 without a gap, then "+" and "/". */
  lemma AlphabetIs(i: sextet)
    ensures EncodeChar(0) == 'A' && EncodeChar(25) == 'Z' && EncodeChar(26) == 'a' && EncodeChar(51) == 'z'
    ensures EncodeChar(52) == '0' && EncodeChar(61) == '9' && EncodeChar(62) == '+' && EncodeChar(63) == '/'
    ensures i !in {25, 51, 61, 62, 63} ==> EncodeChar(i + 1) as int == EncodeChar(i) as int + 1
    ensures forall c :: DecodeChar(c) == Some(i) <==> c == EncodeChar(i)
  {
  }

  /** The four characters of a group of one to three bytes. */
  function EncodeGroup(g: Bytes): string
    requires 1 <= |g| <= 3
  {
    var x := g[0] as int;
    var y := if |g| > 1 then g[1] as int else 0;
    var z := if |g| > 2 then g[2] as int else 0;
    [EncodeChar(x / 4),
     EncodeChar(x % 4 * 16 + y / 16),
     if |g| > 1 then EncodeChar(y % 16 * 4 + z / 64) else '=',
     if |g| > 2 then EncodeChar(z % 64) else '=']
  }

  /** The bits of the group, six to a character, with zero bits and "=" for the bytes it lacks. */
  lemma EncodeGroupMeans(g: Bytes) returns (d: seq<sextet>)
    requires 1 <= |g| <= 3
    ensures |d| == 4 && |EncodeGroup(g)| == 4
    ensures forall n :: 0 <= n < 4 ==> EncodeGroup(g)[n] == if n <= |g| then EncodeChar(d[n]) else '='
    ensures ((d[0] as int * 64 + d[1] as int) * 64 + d[2] as int) * 64 + d[3] as int
            == g[0] as int * 65536 + (if |g| > 1 then g[1] as int else 0) * 256 + (if |g| > 2 then g[2] as int else 0)
  {
    var x := g[0] as int;
    var y := if |g| > 1 then g[1] as int else 0;
    var z := if |g| > 2 then g[2] as int else 0;
    d := [x / 4, x % 4 * 16 + y / 16, y % 16 * 4 + z / 64, z % 64];
  }

  /** The text is that of the groups of three bytes, one after the other. */
  lemma EncodeGroups(g: Bytes, rest: Bytes)
    requires |g| == 3
    ensures Encode(g + rest) == EncodeGroup(g) + Encode(rest) && Encode([]) == ""
    ensures forall last: Bytes :: 1 <= |last| <= 3 ==> Encode(last) == EncodeGroup(last)
  {
    if rest == [] {
      assert g + rest == g && EncodeGroup(g) + "" == EncodeGroup(g);
    } else {
      assert (g + rest)[..3] == g && (g + rest)[3..] == rest;
    }
  }

  /** base64.StdEncoding.EncodeToString */
  function Encode(b: Bytes): string {
    if b == [] then ""
    else if |b| <= 3 then EncodeGroup(b)
    else EncodeGroup(b[..3]) + Encode(b[3..])
  }

  function First(i: sextet, j: sextet): byte { (i * 4 + j / 16) as byte }
  function Second(j: sextet, k: sextet): byte { (j % 16 * 16 + k / 4) as byte }
  function Third(k: sextet, l: sextet): byte { (k % 4 * 64 + l) as byte }

  /** The one to three bytes of a group of four characters; padding only in the `last` one. */
  function DecodeGroup(q: string, last: bool): Option<Bytes>
    requires |q| == 4
  {
    var i, j, k, l := DecodeChar(q[0]), DecodeChar(q[1]), DecodeChar(q[2]), DecodeChar(q[3]);
    if i.None? || j.None? then None
    else if last && q[2] == '=' && q[3] == '=' then Some([First(i.value, j.value)])
    else if k.None? then None
    else if last && q[3] == '=' then Some([First(i.value, j.value), Second(j.value, k.value)])
    else if l.None? then None
    else Some([First(i.value, j.value), Second(j.value, k.value), Third(k.value, l.value)])
  }

  /** base64.StdEncoding.DecodeString on text without whitespace.  The unused low bits of a last
      group are not looked at. */
  function Decode(s: string): Option<Bytes> {
    if s == "" then Some([])
    else if |s| < 4 then None
    else
      var head := DecodeGroup(s[..4], |s| == 4);
      if head.None? then None
      else
        var tail := Decode(s[4..]);
        if tail.None? then None else Some(head.value + tail.value)
  }

  predicate Digits(s: string) {
    forall i :: 0 <= i < |s| ==> DecodeChar(s[i]).Some?
  }

  predicate Pads(s: string) {
    forall i :: 0 <= i < |s| ==> s[i] == '='
  }

  ghost predicate WellFormedAt(s: string, n: int) {
    0 <= n <= |s| && |s| - n <= 2 && (|s| > n ==> n > 0) && Digits(s[..n]) && Pads(s[n..])
  }

  /** Text decodes exactly when its length is a multiple of four and it is digits followed by at most
      two "=" characters. */
  lemma {:induction false} DecodesIff(s: string)
    ensures Decode(s).Some? <==> |s| % 4 == 0 && exists n :: WellFormedAt(s, n)
    decreases |s|
  {
    if s == "" {
      assert WellFormedAt(s, 0);
    } else if |s| == 4 {
      assert s[4..] == "" && s[..4] == s;
      LastGroup(s);
    } else if |s| > 4 {
      DecodesIff(s[4..]);
      FirstGroup(s);
    }
  }

  lemma LastGroup(q: string)
    requires |q| == 4
    ensures DecodeGroup(q, true).Some? <==> exists n :: WellFormedAt(q, n)
  {
    if DecodeGroup(q, true).Some? {
      var n := if q[2] == '=' then 2 else if q[3] == '=' then 3 else 4;
      assert WellFormedAt(q, n);
    }
    if n :| WellFormedAt(q, n) {
      assert forall i :: 0 <= i < n ==> q[..n][i] == q[i];
      assert forall i :: n <= i < 4 ==> q[n..][i - n] == q[i];
    }
  }

  lemma FirstGroup(s: string)
    requires |s| > 4
    ensures |s| % 4 == 0 ==>
              ((exists n :: WellFormedAt(s, n)) <==>
               DecodeGroup(s[..4], false).Some? && exists n :: WellFormedAt(s[4..], n))
  {
    var q, rest := s[..4], s[4..];
    assert Digits(q) <==> DecodeGroup(q, false).Some?;
    if |s| % 4 == 0 {
      if n :| WellFormedAt(s, n) {
        assert s[..n][..4] == q && s[..n][4..] == rest[..n - 4] && s[n..] == rest[n - 4..];
        assert forall i :: 0 <= i < 4 ==> q[i] == s[..n][i];
        assert rest[..n - 4] == s[..n][4..];
        assert WellFormedAt(rest, n - 4);
      }
      if DecodeGroup(q, false).Some? && exists n :: WellFormedAt(rest, n) {
        var n :| WellFormedAt(rest, n);
        assert s[..n + 4] == q + rest[..n] && s[n + 4..] == rest[n..];
        assert WellFormedAt(s, n + 4);
      }
    }
  }

  lemma {:induction false} EncodeHasNoSpace(b: Bytes)
    ensures forall c :: c in Encode(b) ==> !IsSpace(c)
    decreases |b|
  {
    if 1 <= |b| <= 3 {
      DecodeEncodeGroup(b, true);
    } else if |b| > 3 {
      DecodeEncodeGroup(b[..3], false);
      EncodeHasNoSpace(b[3..]);
    }
  }

  /** What is encoded decodes to itself. */
  lemma {:induction false} DecodeEncode(b: Bytes)
    ensures Decode(Encode(b)) == Some(b)
    decreases |b|
  {
    if b == [] {
    } else if |b| <= 3 {
      DecodeEncodeGroup(b, true);
      DecodeCons(EncodeGroup(b), b, "", []);
      assert EncodeGroup(b) + "" == EncodeGroup(b) && b + [] == b;
    } else {
      DecodeEncodeGroup(b[..3], false);
      DecodeEncode(b[3..]);
      DecodeCons(EncodeGroup(b[..3]), b[..3], Encode(b[3..]), b[3..]);
      assert b == b[..3] + b[3..];
    }
  }

  lemma DecodeCons(q: string, g: Bytes, rest: string, b: Bytes)
    requires |q| == 4 && DecodeGroup(q, rest == "") == Some(g) && Decode(rest) == Some(b)
    ensures Decode(q + rest) == Some(g + b)
  {
    assert (q + rest)[..4] == q && (q + rest)[4..] == rest;
  }

  lemma DecodeEncodeGroup(g: Bytes, last: bool)
    requires 1 <= |g| <= 3 && (!last ==> |g| == 3)
    ensures DecodeGroup(EncodeGroup(g), last) == Some(g)
    ensures forall c :: c in EncodeGroup(g) ==> !IsSpace(c)
  {
    var x := g[0] as int;
    var y := if |g| > 1 then g[1] as int else 0;
    var z := if |g| > 2 then g[2] as int else 0;
    var i: sextet, j: sextet, k: sextet, l: sextet :=
      x / 4, x % 4 * 16 + y / 16, y % 16 * 4 + z / 64, z % 64;
    DecodeEncodeChar(i);
    DecodeEncodeChar(j);
    DecodeEncodeChar(k);
    DecodeEncodeChar(l);
    Regroup(x, y, z);
    var q := EncodeGroup(g);
    assert q[0] == EncodeChar(i) && q[1] == EncodeChar(j);
    assert |g| == 1 ==> g == [First(i, j)];
    assert |g| == 2 ==> g == [First(i, j), Second(j, k)];
    assert |g| == 3 ==> g == [First(i, j), Second(j, k), Third(k, l)];
  }

  lemma Regroup(x: int, y: int, z: int)
    requires 0 <= x < 256 && 0 <= y < 256 && 0 <= z < 256
    ensures x / 4 * 4 + (x % 4 * 16 + y / 16) / 16 == x
    ensures (x % 4 * 16 + y / 16) % 16 * 16 + (y % 16 * 4 + z / 64) / 4 == y
    ensures (y % 16 * 4 + z / 64) % 4 * 64 + z % 64 == z
  {
  }

  // ---------------------------------------------------------------------------
  // Whitespace

  function NonSpaceRun(s: string): (n: nat)
    ensures n <= |s| && (s != "" && !IsSpace(s[0]) ==> n > 0)
    ensures forall i :: 0 <= i < n ==> !IsSpace(s[i])
  {
    if s == "" || IsSpace(s[0]) then 0 else 1 + NonSpaceRun(s[1..])
  }

  /** strings.Fields: the maximal runs of characters that are not spaces. */
  function Fields(s: string): seq<string> {
    if s == "" then []
    else if IsSpace(s[0]) then Fields(s[1..])
    else [s[..NonSpaceRun(s)]] + Fields(s[NonSpaceRun(s)..])
  }

  /** The characters that are not spaces. */
  function Strip(s: string): string {
    if s == "" then "" else if IsSpace(s[0]) then Strip(s[1..]) else [s[0]] + Strip(s[1..])
  }

  lemma {:induction false} ConcatFields(s: string)
    ensures Concat(Fields(s)) == Strip(s)
    decreases |s|
  {
    if s != "" {
      if IsSpace(s[0]) {
        ConcatFields(s[1..]);
      } else {
        var n := NonSpaceRun(s);
        ConcatFields(s[n..]);
        assert s == s[..n] + s[n..];
        StripAppend(s[..n], s[n..]);
        StripNothing(s[..n]);
      }
    }
  }

  lemma {:induction false} StripAppend(a: string, b: string)
    ensures Strip(a + b) == Strip(a) + Strip(b)
  {
    if a == "" {
      assert a + b == b;
    } else {
      assert (a + b)[1..] == a[1..] + b;
      StripAppend(a[1..], b);
    }
  }

  lemma {:induction false} StripNothing(s: string)
    requires forall c :: c in s ==> !IsSpace(c)
    ensures Strip(s) == s
  {
    if s != "" {
      assert s[0] in s;
      StripNothing(s[1..]);
      assert s == [s[0]] + s[1..];
    }
  }

  function DecodeB64(s: string): Option<Bytes> {
    Decode(Concat(Fields(s)))
  }

  /** Text that is the encoding of `b` up to inserted whitespace decodes to `b`. */
  lemma DecodeWithWhitespace(s: string, b: Bytes)
    requires Strip(s) == Encode(b)
    ensures DecodeB64(s) == Some(b)
  {
    ConcatFields(s);
    DecodeEncode(b);
  }

  lemma DecodeClean(b: Bytes)
    ensures DecodeB64(Encode(b)) == Some(b)
  {
    EncodeHasNoSpace(b);
    StripNothing(Encode(b));
    DecodeWithWhitespace(Encode(b), b);
  }
}
