/** The laws assumed of the cryptographic primitives and the JSON printer hold of some functions,
    so nothing is proved from a contradiction. */
module CryptoLaws {
  import opened Wrappers
  import opened Bytes
  import opened Padding
  import opened DataBag

  function Unary(n: nat): Bytes {
    if n == 0 then [0] else [1] + Unary(n - 1)
  }

  function PrintString(s: string): Bytes {
    if s == "" then [0] else [1] + Unary(s[0] as nat) + PrintString(s[1..])
  }

  /** A printer of JSON values: a tag, then the parts. */
  ghost function Print(j: Json): Bytes
    decreases j, 0
  {
    match j
    case Null => [0]
    case Bool(b) => [1, if b then 1 else 0]
    case Num(f) => [2, if f.negative then 1 else 0] + Unary(f.whole) + Unary(f.fraction)
    case Str(s) => [3] + PrintString(s)
    case Arr(items) => [4] + PrintItems(items)
    case Obj(fields) => [5] + PrintFields(j, fields)
  }

  ghost function PrintItems(items: seq<Json>): Bytes
    decreases items, 0
  {
    if items == [] then [0] else [1] + Print(items[0]) + PrintItems(items[1..])
  }

  ghost function PrintFields(j: Json, left: map<string, Json>): Bytes
    requires j.Obj? && forall k :: k in left ==> k in j.fields && left[k] == j.fields[k]
    decreases j, 0, |left|
  {
    if left == map[] then [0]
    else
      var k := Pick(left);
      [1] + PrintString(k) + Print(j.fields[k]) + PrintFields(j, left - {k})
  }

  ghost function Pick(m: map<string, Json>): (k: string)
    requires m != map[]
    ensures k in m
  {
    var k :| k in m;
    k
  }

  lemma SameRest(p: Bytes, x: Bytes, y: Bytes)
    requires p + x == p + y
    ensures x == y
  {
    assert x == (p + x)[|p|..] && y == (p + y)[|p|..];
  }

  lemma {:induction false} UnaryPrefix(m: nat, n: nat, x: Bytes, y: Bytes)
    requires Unary(m) + x == Unary(n) + y
    ensures m == n && x == y
  {
    assert (Unary(m) + x)[0] == (Unary(n) + y)[0];
    if m == 0 {
      SameRest([0], x, y);
    } else {
      assert Unary(m) + x == [1] + (Unary(m - 1) + x) && Unary(n) + y == [1] + (Unary(n - 1) + y);
      SameRest([1], Unary(m - 1) + x, Unary(n - 1) + y);
      UnaryPrefix(m - 1, n - 1, x, y);
    }
  }

  lemma {:induction false} StringPrefix(s: string, t: string, x: Bytes, y: Bytes)
    requires PrintString(s) + x == PrintString(t) + y
    ensures s == t && x == y
  {
    assert (PrintString(s) + x)[0] == (PrintString(t) + y)[0];
    if s == "" {
      SameRest([0], x, y);
    } else {
      var a, b := PrintString(s[1..]) + x, PrintString(t[1..]) + y;
      assert PrintString(s) + x == [1] + (Unary(s[0] as nat) + a);
      assert PrintString(t) + y == [1] + (Unary(t[0] as nat) + b);
      SameRest([1], Unary(s[0] as nat) + a, Unary(t[0] as nat) + b);
      UnaryPrefix(s[0] as nat, t[0] as nat, a, b);
      StringPrefix(s[1..], t[1..], x, y);
      assert s == [s[0]] + s[1..] && t == [t[0]] + t[1..];
    }
  }

  lemma NumPrefix(f: Float, g: Float, x: Bytes, y: Bytes)
    requires Print(Num(f)) + x == Print(Num(g)) + y
    ensures f == g && x == y
  {
    assert (Print(Num(f)) + x)[1] == (Print(Num(g)) + y)[1];
    var head: Bytes := [2, if f.negative then 1 else 0];
    assert Print(Num(f)) + x == head + (Unary(f.whole) + (Unary(f.fraction) + x));
    assert Print(Num(g)) + y == head + (Unary(g.whole) + (Unary(g.fraction) + y));
    SameRest(head, Unary(f.whole) + (Unary(f.fraction) + x), Unary(g.whole) + (Unary(g.fraction) + y));
    UnaryPrefix(f.whole, g.whole, Unary(f.fraction) + x, Unary(g.fraction) + y);
    UnaryPrefix(f.fraction, g.fraction, x, y);
  }

  /** No printed value is a prefix of another's text. */
  lemma {:induction false} PrintPrefix(i: Json, j: Json, x: Bytes, y: Bytes)
    requires Print(i) + x == Print(j) + y
    ensures i == j && x == y
    decreases i, 0
  {
    assert (Print(i) + x)[0] == (Print(j) + y)[0];
    match i {
      case Null => SameRest([0], x, y);
      case Bool(b) =>
        assert (Print(i) + x)[1] == (Print(j) + y)[1];
        SameRest(Print(i), x, y);
      case Num(f) =>
        NumPrefix(f, j.f, x, y);
      case Str(s) =>
        assert Print(i) + x == [3] + (PrintString(s) + x) && Print(j) + y == [3] + (PrintString(j.s) + y);
        SameRest([3], PrintString(s) + x, PrintString(j.s) + y);
        StringPrefix(s, j.s, x, y);
      case Arr(items) =>
        assert Print(i) + x == [4] + (PrintItems(items) + x) && Print(j) + y == [4] + (PrintItems(j.items) + y);
        SameRest([4], PrintItems(items) + x, PrintItems(j.items) + y);
        ItemsPrefix(items, j.items, x, y);
      case Obj(fields) =>
        assert Print(i) + x == [5] + (PrintFields(i, fields) + x) && Print(j) + y == [5] + (PrintFields(j, j.fields) + y);
        SameRest([5], PrintFields(i, fields) + x, PrintFields(j, j.fields) + y);
        FieldsPrefix(i, fields, j, j.fields, x, y);
    }
  }

  lemma {:induction false} ItemsPrefix(a: seq<Json>, b: seq<Json>, x: Bytes, y: Bytes)
    requires PrintItems(a) + x == PrintItems(b) + y
    ensures a == b && x == y
    decreases a, 0
  {
    assert (PrintItems(a) + x)[0] == (PrintItems(b) + y)[0];
    if a == [] {
      SameRest([0], x, y);
    } else {
      var p, q := PrintItems(a[1..]) + x, PrintItems(b[1..]) + y;
      assert PrintItems(a) + x == [1] + (Print(a[0]) + p) && PrintItems(b) + y == [1] + (Print(b[0]) + q);
      SameRest([1], Print(a[0]) + p, Print(b[0]) + q);
      PrintPrefix(a[0], b[0], p, q);
      ItemsPrefix(a[1..], b[1..], x, y);
      assert a == [a[0]] + a[1..] && b == [b[0]] + b[1..];
    }
  }

  /** The key printed next, and the rest. */
  lemma NextField(j: Json, left: map<string, Json>, x: Bytes) returns (k: string, rest: Bytes)
    requires j.Obj? && left != map[] && forall k :: k in left ==> k in j.fields && left[k] == j.fields[k]
    ensures k in left && rest == PrintFields(j, left - {k}) + x
    ensures PrintFields(j, left) + x == [1] + (PrintString(k) + (Print(left[k]) + rest))
  {
    k := Pick(left);
    rest := PrintFields(j, left - {k}) + x;
  }

  lemma {:induction false} FieldsPrefix(i: Json, l: map<string, Json>, j: Json, m: map<string, Json>, x: Bytes, y: Bytes)
    requires i.Obj? && j.Obj?
    requires forall k :: k in l ==> k in i.fields && l[k] == i.fields[k]
    requires forall k :: k in m ==> k in j.fields && m[k] == j.fields[k]
    requires PrintFields(i, l) + x == PrintFields(j, m) + y
    ensures l == m && x == y
    decreases i, 0, |l|
  {
    assert (PrintFields(i, l) + x)[0] == (PrintFields(j, m) + y)[0];
    if l == map[] {
      SameRest([0], x, y);
    } else {
      var k, p := NextField(i, l, x);
      var n, q := NextField(j, m, y);
      SameRest([1], PrintString(k) + (Print(l[k]) + p), PrintString(n) + (Print(m[n]) + q));
      StringPrefix(k, n, Print(l[k]) + p, Print(m[n]) + q);
      PrintPrefix(l[k], m[k], p, q);
      FieldsPrefix(i, l - {k}, j, m - {k}, x, y);
      SameBut(l, m, k);
    }
  }

  lemma SameBut(l: map<string, Json>, m: map<string, Json>, k: string)
    requires k in l && k in m && l[k] == m[k] && l - {k} == m - {k}
    ensures l == m
  {
    assert l == (l - {k})[k := l[k]] && m == (m - {k})[k := m[k]];
  }

  ghost function Parse(b: Bytes): Option<Json> {
    if j :| Print(j) == b then Some(j) else None
  }

  lemma ParsePrint(j: Json)
    ensures Parse(Print(j)) == Some(j)
  {
    var i :| Parse(Print(j)) == Some(i) && Print(i) == Print(j);
    PrintPrefix(i, j, [], []);
  }

  /** Some primitives obey the laws. */
  lemma LawsAreConsistent() returns (c: Crypto)
    ensures Lawful(c)
  {
    var tag: Bytes := seq(TAG_SIZE, _ => 0);
    var digest: Bytes := seq(32, _ => 0);
    var seal := (k: Bytes, n: Bytes, p: Bytes) => p + tag;
    var open_ := (k: Bytes, n: Bytes, s: Bytes) => if |s| >= TAG_SIZE then Some(s[..|s| - TAG_SIZE]) else None;
    var same: BlockFn := b => b;
    c := Crypto(s => digest, (k, m) => digest, seal, open_, k => same, k => same, s => [], j => Print(j), b => Parse(b));
    forall p: Bytes ensures (p + tag)[..|p + tag| - TAG_SIZE] == p {
    }
    forall j ensures Parse(Print(j)) == Some(j) {
      ParsePrint(j);
    }
  }
}
