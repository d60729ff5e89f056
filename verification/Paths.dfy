/** The lexical path functions of Go's `path` package. */
module Paths {
  import opened Strings

  predicate IsName(s: string) {
    s != "" && s != "." && s != ".." && Free(s, '/')
  }

  /** The names of a clean relative path, outermost first. */
  ghost predicate Names(segs: seq<string>) {
    segs != [] && forall seg :: seg in segs ==> IsName(seg)
  }

  /** The elements a path keeps when "", "." and ".." are taken away, as a stack. */
  function Resolve(segs: seq<string>, rooted: bool, stack: seq<string>): seq<string> {
    if segs == [] then stack
    else
      var seg := segs[0];
      var next :=
        if seg == "" || seg == "." then stack
        else if seg != ".." then stack + [seg]
        else if stack != [] && stack[|stack| - 1] != ".." then stack[..|stack| - 1]
        else if rooted then stack
        else stack + [".."];
      Resolve(segs[1..], rooted, next)
  }

  /** path.Clean */
  function Clean(p: string): string {
    if p == "" then "."
    else
      var rooted := p[0] == '/';
      var stack := Resolve(Split(p, '/'), rooted, []);
      if rooted then "/" + Join(stack, '/')
      else if stack == [] then "." else Join(stack, '/')
  }

  /** The length of the part of `p` up to and including its last slash. */
  function LastSlash(p: string): (n: nat)
    ensures n <= |p| && (n > 0 ==> p[n - 1] == '/') && Free(p[n..], '/')
  {
    if p == "" then 0 else if p[|p| - 1] == '/' then |p| else
      var n := LastSlash(p[..|p| - 1]);
      assert p[n..] == p[..|p| - 1][n..] + [p[|p| - 1]];
      n
  }

  /** path.Dir */
  function Dir(p: string): string {
    Clean(p[..LastSlash(p)])
  }

  function TrimSlashes(p: string): string {
    if p != "" && p[|p| - 1] == '/' then TrimSlashes(p[..|p| - 1]) else p
  }

  /** path.Base */
  function Base(p: string): string {
    if p == "" then "."
    else
      var q := TrimSlashes(p);
      if q == "" then "/" else q[LastSlash(q)..]
  }

  // ---------------------------------------------------------------------------
  // Dir shortens

  /** The length of the elements with one separator each. */
  function Weight(segs: seq<string>): nat {
    if segs == [] then 0 else Weight(segs[..|segs| - 1]) + |segs[|segs| - 1]| + 1
  }

  lemma {:induction false} WeightAppend(a: seq<string>, b: seq<string>)
    ensures Weight(a + b) == Weight(a) + Weight(b)
  {
    if b == [] {
      assert a + b == a;
    } else {
      assert (a + b)[..|a + b| - 1] == a + b[..|b| - 1];
      WeightAppend(a, b[..|b| - 1]);
    }
  }

  lemma {:induction false} JoinWeight(segs: seq<string>, c: char)
    requires segs != []
    ensures |Join(segs, c)| == Weight(segs) - 1
  {
    assert segs == [segs[0]] + segs[1..];
    WeightAppend([segs[0]], segs[1..]);
    assert Weight([segs[0]]) == Weight([]) + |segs[0]| + 1 by {
      assert [segs[0]][..0] == [];
    }
    if |segs| > 1 {
      JoinWeight(segs[1..], c);
    }
  }

  lemma {:induction false} ResolveLightens(segs: seq<string>, rooted: bool, stack: seq<string>)
    ensures Weight(Resolve(segs, rooted, stack)) <= Weight(stack) + Weight(segs)
    ensures segs != [] && segs[0] == "" ==>
              Weight(Resolve(segs, rooted, stack)) < Weight(stack) + Weight(segs)
    decreases |segs|
  {
    if segs != [] {
      var seg := segs[0];
      assert segs == [seg] + segs[1..];
      WeightAppend([seg], segs[1..]);
      assert Weight([seg]) == |seg| + 1 by {
        assert [seg][..0] == [];
      }
      assert (stack + [seg])[..|stack|] == stack;
      ResolveLightens(segs[1..], rooted, stack);
      ResolveLightens(segs[1..], rooted, stack + [seg]);
      if stack != [] {
        ResolveLightens(segs[1..], rooted, stack[..|stack| - 1]);
      }
    }
  }

  lemma {:induction false} ResolveAppend(a: seq<string>, b: seq<string>, rooted: bool, stack: seq<string>)
    ensures Resolve(a + b, rooted, stack) == Resolve(b, rooted, Resolve(a, rooted, stack))
    decreases |a|
  {
    if a == [] {
      assert a + b == b;
    } else {
      assert (a + b)[1..] == a[1..] + b;
      var whole := Resolve(a + b, rooted, stack);
      ResolveAppend(a[1..], b, rooted, stack);
      ResolveAppend(a[1..], b, rooted, stack + [a[0]]);
      if stack != [] {
        ResolveAppend(a[1..], b, rooted, stack[..|stack| - 1]);
      }
    }
  }

  /** Cleaning a path that ends in a slash drops at least that slash. */
  lemma CleanShortens(p: string)
    requires p != "" && p[|p| - 1] == '/'
    ensures Clean(p) == "/" || Clean(p) == "." || |Clean(p)| < |p|
  {
    var rooted := p[0] == '/';
    var q := p[..|p| - 1];
    var segs := Split(q, '/');
    JoinSplit(q, '/');
    JoinAppend(segs, [""], '/');
    assert Join(segs + [""], '/') == p;
    SplitJoin(segs + [""], '/');
    ResolveAppend(segs, [""], rooted, []);
    var stack := Resolve(Split(p, '/'), rooted, []);
    assert stack == Resolve(segs, rooted, []);
    ResolveLightens(segs, rooted, []);
    JoinWeight(segs, '/');
    if stack != [] {
      JoinWeight(stack, '/');
      if rooted && q != "" {
        assert segs[0] == "";
      }
    }
  }

  predicate IsTop(dir: string) {
    dir == "." || dir == "/" || dir == ""
  }

  /** The number of times `Dir` can still be applied is bounded by this measure. */
  function Depth(dir: string): nat {
    if IsTop(dir) then 0 else |dir|
  }

  /** Taking the parent of any path, clean or not, leads to the top. */
  lemma DirShortens(dir: string)
    requires !IsTop(dir)
    ensures Depth(Dir(dir)) < Depth(dir)
  {
    var head := dir[..LastSlash(dir)];
    if head != "" {
      CleanShortens(head);
    }
  }

  // ---------------------------------------------------------------------------
  // Clean relative paths

  lemma {:induction false} ResolveNames(segs: seq<string>, stack: seq<string>)
    requires forall seg :: seg in segs ==> IsName(seg)
    ensures Resolve(segs, false, stack) == stack + segs
    decreases |segs|
  {
    if segs != [] {
      assert segs[0] in segs;
      ResolveNames(segs[1..], stack + [segs[0]]);
      assert stack + [segs[0]] + segs[1..] == stack + segs;
    }
  }

  lemma JoinNames(segs: seq<string>)
    requires Names(segs)
    ensures Join(segs, '/') != "" && Join(segs, '/')[0] != '/'
    ensures Join(segs, '/')[|Join(segs, '/')| - 1] != '/'
    ensures !IsTop(Join(segs, '/'))
  {
    assert segs[0] in segs && segs[|segs| - 1] in segs;
    var last := segs[|segs| - 1];
    assert last[|last| - 1] != '/' by {
      assert last[|last| - 1] in last;
    }
    assert segs[0][0] in segs[0];
    if |segs| > 1 {
      var front := segs[..|segs| - 1];
      assert segs == front + [last];
      JoinAppend(front, [last], '/');
      assert '/' in Join(segs, '/') by {
        assert (Join(front, '/') + ['/'] + last)[|Join(front, '/')|] == '/';
      }
    }
  }

  lemma {:induction false} LastSlashUnique(p: string, n: nat)
    requires n <= |p| && (n > 0 ==> p[n - 1] == '/') && Free(p[n..], '/')
    ensures LastSlash(p) == n
  {
    if n < |p| {
      var last := |p| - 1;
      assert p[n..][last - n] == p[last];
      assert p[n..] == p[..last][n..] + [p[last]];
      LastSlashUnique(p[..last], n);
    }
  }

  lemma LastSlashOfNames(front: seq<string>, last: string)
    requires front != [] && Free(last, '/')
    ensures Join(front + [last], '/') == Join(front, '/') + "/" + last
    ensures LastSlash(Join(front + [last], '/')) == |Join(front, '/')| + 1
  {
    JoinAppend(front, [last], '/');
    var p, f := Join(front + [last], '/'), Join(front, '/');
    assert p == f + "/" + last;
    assert p[|f| + 1..] == last;
    LastSlashUnique(p, |f| + 1);
  }

  lemma CleanNames(segs: seq<string>)
    requires Names(segs)
    ensures Clean(Join(segs, '/') + "/") == Join(segs, '/')
  {
    JoinNames(segs);
    JoinAppend(segs, [""], '/');
    SplitJoin(segs + [""], '/');
    ResolveAppend(segs, [""], false, []);
    ResolveNames(segs, []);
    assert [] + segs == segs;
    assert Join(segs, '/') + "/" == Join(segs + [""], '/');
  }

  /** The parent of a clean relative path is the path of its outer names. */
  lemma DirOfNames(segs: seq<string>)
    requires Names(segs)
    ensures Dir(Join(segs, '/')) == if |segs| == 1 then "." else Join(segs[..|segs| - 1], '/')
  {
    var p := Join(segs, '/');
    var front, last := segs[..|segs| - 1], segs[|segs| - 1];
    assert last in segs;
    if |segs| == 1 {
      LastSlashUnique(p, 0);
    } else {
      assert segs == front + [last];
      LastSlashOfNames(front, last);
      assert p[..LastSlash(p)] == Join(front, '/') + "/";
      assert forall seg :: seg in front ==> seg in segs;
      CleanNames(front);
    }
  }

  /** The base name of a clean relative path is its innermost name. */
  lemma BaseOfNames(segs: seq<string>)
    requires Names(segs)
    ensures Base(Join(segs, '/')) == segs[|segs| - 1]
  {
    var front, last := segs[..|segs| - 1], segs[|segs| - 1];
    assert last in segs;
    FrontAndLast(segs);
    JoinNames(segs);
    BaseOfLast(front, last, Join(segs, '/'));
  }

  lemma FrontAndLast(segs: seq<string>)
    requires segs != []
    ensures segs == segs[..|segs| - 1] + [segs[|segs| - 1]]
  {
  }

  lemma BaseOfLast(front: seq<string>, last: string, p: string)
    requires p == Join(front + [last], '/') && p != "" && p[|p| - 1] != '/' && Free(last, '/')
    ensures Base(p) == last
  {
    BaseAfterSlash(p);
    AfterLastSlash(front, last);
  }

  lemma AfterLastSlash(front: seq<string>, last: string)
    requires Free(last, '/')
    ensures Join(front + [last], '/')[LastSlash(Join(front + [last], '/'))..] == last
  {
    if front == [] {
      assert front + [last] == [last];
      LastSlashUnique(last, 0);
    } else {
      LastSlashOfNames(front, last);
      Suffix(Join(front, '/') + "/", last);
    }
  }

  lemma Suffix(a: string, b: string)
    ensures (a + b)[|a|..] == b
  {
  }

  lemma BaseAfterSlash(p: string)
    requires p != "" && p[|p| - 1] != '/'
    ensures Base(p) == p[LastSlash(p)..]
  {
  }
}
