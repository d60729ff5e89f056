/** A cookbook directory walked into a cookbook ready for upload. */
module CookbookDir {
  import opened Wrappers
  import opened Bytes
  import opened Strings
  import opened Paths
  import opened Chefignore

  datatype CookbookFile = CookbookFile(name: string, content: Bytes, checksum: string)

  class LocalCookbook {
    var name: string
    var version: string
    var identifier: string   // set for cookbook artifact uploads
    var files: seq<CookbookFile>

    constructor (name: string, version: string)
      ensures this.name == name && this.version == version && identifier == "" && files == []
    {
      this.name, this.version, identifier, files := name, version, "", [];
    }
  }

  /** A file is `None` when it cannot be read. */
  datatype Node =
    | File(content: Option<Bytes>)
    | Directory(children: seq<Child>, readable: bool)

  datatype Child = Child(name: string, node: Node)

  /** What a file system guarantees of the entries of every directory. */
  ghost predicate WellNamed(node: Node) {
    node.Directory? ==>
      && (forall c :: c in node.children ==> IsName(c.name) && WellNamed(c.node))
      && (forall i, j :: 0 <= i < j < |node.children| ==> node.children[i].name != node.children[j].name)
  }

  /** The library and environment calls of the walk. */
  datatype Env = Env(matches: Matcher, md5Hex: Bytes -> string, text: Bytes -> string)

  datatype Found = Entered | Unreadable | Content(bytes: Bytes)

  /** One call of the walk's function. */
  datatype Visit = Visit(rel: string, found: Found)

  function Beneath(rel: string, name: string): string {
    if rel == "." then name else rel + "/" + name
  }

  /** Everything under a directory, in walk order, with nothing skipped. */
  function Listing(rel: string, node: Node): seq<Visit>
    decreases node, 1
  {
    match node
    case File(content) => [Visit(rel, if content.Some? then Content(content.value) else Unreadable)]
    case Directory(children, readable) =>
      if readable then [Visit(rel, Entered)] + ListChildren(rel, children) else [Visit(rel, Unreadable)]
  }

  function ListChildren(rel: string, children: seq<Child>): seq<Visit>
    decreases children, 0
  {
    if children == [] then []
    else Listing(Beneath(rel, children[0].name), children[0].node) + ListChildren(rel, children[1..])
  }

  /** The flat meaning of a chefignore file: keep what is not ignored. */
  ghost function Keep(patterns: seq<string>, matches: Matcher, visits: seq<Visit>): seq<Visit> {
    if visits == [] then []
    else
      var rest := Keep(patterns, matches, visits[1..]);
      if Ignored(patterns, matches, visits[0].rel) then rest else [visits[0]] + rest
  }

  function FileOf(env: Env, rel: string, bytes: Bytes): CookbookFile {
    CookbookFile(rel, bytes, env.md5Hex(bytes))
  }

  /** The files of a list of visits, or the first path that could not be read. */
  function Gather(env: Env, visits: seq<Visit>): Result<seq<CookbookFile>, string> {
    if visits == [] then Ok([])
    else
      match visits[0].found
      case Unreadable => Err(visits[0].rel)
      case Entered => Gather(env, visits[1..])
      case Content(bytes) =>
        var rest := Gather(env, visits[1..]);
        if rest.Ok? then Ok([FileOf(env, visits[0].rel, bytes)] + rest.value) else rest
  }

  /** Two lists gathered one after the other. */
  function Then(a: Result<seq<CookbookFile>, string>, b: Result<seq<CookbookFile>, string>)
    : Result<seq<CookbookFile>, string>
  {
    if a.Err? then a else if b.Err? then b else Ok(a.value + b.value)
  }

  lemma {:induction false} GatherAppend(env: Env, a: seq<Visit>, b: seq<Visit>)
    ensures Gather(env, a + b) == Then(Gather(env, a), Gather(env, b))
  {
    if a == [] {
      assert a + b == b;
      assert Gather(env, b).Ok? ==> [] + Gather(env, b).value == Gather(env, b).value;
    } else {
      assert (a + b)[1..] == a[1..] + b;
      GatherAppend(env, a[1..], b);
      var x, y := Gather(env, a[1..]), Gather(env, b);
      if a[0].found.Content? && x.Ok? && y.Ok? {
        var f := FileOf(env, a[0].rel, a[0].found.bytes);
        assert [f] + (x.value + y.value) == ([f] + x.value) + y.value;
      }
    }
  }

  lemma {:induction false} KeepAppend(patterns: seq<string>, matches: Matcher, a: seq<Visit>, b: seq<Visit>)
    ensures Keep(patterns, matches, a + b) == Keep(patterns, matches, a) + Keep(patterns, matches, b)
  {
    if a == [] {
      assert a + b == b;
    } else {
      assert (a + b)[1..] == a[1..] + b;
      KeepAppend(patterns, matches, a[1..], b);
    }
  }

  lemma {:induction false} KeepIsFilter(patterns: seq<string>, matches: Matcher, visits: seq<Visit>)
    ensures forall v :: v in Keep(patterns, matches, visits) <==>
              v in visits && !Ignored(patterns, matches, v.rel)
  {
    if visits != [] {
      KeepIsFilter(patterns, matches, visits[1..]);
      assert visits == [visits[0]] + visits[1..];
    }
  }

  /** Gathering succeeds exactly when every visit could be read, and then holds a file for each
      file visited and no other. */
  lemma {:induction false} GatherMeans(env: Env, visits: seq<Visit>)
    ensures Gather(env, visits).Ok? <==> forall v :: v in visits ==> !v.found.Unreadable?
    ensures Gather(env, visits).Ok? ==> forall f ::
              f in Gather(env, visits).value <==>
              exists v :: v in visits && v.found.Content? && f == FileOf(env, v.rel, v.found.bytes)
  {
    if visits != [] {
      assert visits == [visits[0]] + visits[1..];
      GatherMeans(env, visits[1..]);
    }
  }

  // ---------------------------------------------------------------------------
  // The pruned walk

  /** The visits of the walk that skips a subtree as soon as its root is ignored. */
  ghost function Pruned(patterns: seq<string>, matches: Matcher, rel: string, node: Node): seq<Visit>
    decreases node, 1
  {
    if Ignored(patterns, matches, rel) then []
    else if node.Directory? && node.readable then
      [Visit(rel, Entered)] + PrunedChildren(patterns, matches, rel, node.children)
    else Listing(rel, node)
  }

  ghost function PrunedChildren(patterns: seq<string>, matches: Matcher, rel: string, children: seq<Child>): seq<Visit>
    decreases children, 0
  {
    if children == [] then []
    else Pruned(patterns, matches, Beneath(rel, children[0].name), children[0].node)
         + PrunedChildren(patterns, matches, rel, children[1..])
  }

  function Rel(segs: seq<string>): string {
    if segs == [] then "." else Join(segs, '/')
  }

  lemma RelBeneath(segs: seq<string>, name: string)
    requires (forall seg :: seg in segs ==> IsName(seg)) && IsName(name)
    ensures Beneath(Rel(segs), name) == Rel(segs + [name])
    ensures Names(segs + [name])
  {
    if segs == [] {
      assert segs + [name] == [name];
    } else {
      JoinNames(segs);
      JoinAppend(segs, [name], '/');
    }
  }

  /** Nothing beneath an ignored path is kept. */
  lemma {:induction false} NothingKeptBeneath(patterns: seq<string>, matches: Matcher,
                                              outer: seq<string>, inner: seq<string>, node: Node)
    requires Names(outer) && Names(outer + inner) && WellNamed(node)
    requires Ignored(patterns, matches, Join(outer, '/'))
    ensures Keep(patterns, matches, Listing(Join(outer + inner, '/'), node)) == []
    decreases node, 1
  {
    IgnoredBeneath(patterns, matches, outer, inner);
    if node.Directory? && node.readable {
      var rel := Join(outer + inner, '/');
      NoChildrenKept(patterns, matches, outer, inner, node.children);
      KeepAppend(patterns, matches, [Visit(rel, Entered)], ListChildren(rel, node.children));
    }
  }

  lemma {:induction false} NoChildrenKept(patterns: seq<string>, matches: Matcher,
                                          outer: seq<string>, inner: seq<string>, children: seq<Child>)
    requires Names(outer) && Names(outer + inner)
    requires forall c :: c in children ==> IsName(c.name) && WellNamed(c.node)
    requires Ignored(patterns, matches, Join(outer, '/'))
    ensures Keep(patterns, matches, ListChildren(Join(outer + inner, '/'), children)) == []
    decreases children, 0
  {
    if children != [] {
      var c := children[0];
      assert c in children;
      RelBeneath(outer + inner, c.name);
      assert outer + inner + [c.name] == outer + (inner + [c.name]);
      NothingKeptBeneath(patterns, matches, outer, inner + [c.name], c.node);
      NoChildrenKept(patterns, matches, outer, inner, children[1..]);
      var rel := Join(outer + inner, '/');
      assert Beneath(rel, c.name) == Join(outer + (inner + [c.name]), '/');
      KeepAppend(patterns, matches, Listing(Beneath(rel, c.name), c.node), ListChildren(rel, children[1..]));
    }
  }

  /** Pruning whole subtrees keeps the same visits, in the same order, as walking everything and
      leaving out what is ignored. */
  lemma {:induction false} PrunedIsFlat(patterns: seq<string>, matches: Matcher, segs: seq<string>, node: Node)
    requires (forall seg :: seg in segs ==> IsName(seg)) && WellNamed(node)
    ensures Pruned(patterns, matches, Rel(segs), node) == Keep(patterns, matches, Listing(Rel(segs), node))
    decreases node, 1
  {
    var rel := Rel(segs);
    if Ignored(patterns, matches, rel) {
      assert segs + [] == segs;
      NothingKeptBeneath(patterns, matches, segs, [], node);
    } else if node.Directory? && node.readable {
      PrunedChildrenAreFlat(patterns, matches, segs, node.children);
      KeepAppend(patterns, matches, [Visit(rel, Entered)], ListChildren(rel, node.children));
    }
  }

  lemma {:induction false} PrunedChildrenAreFlat(patterns: seq<string>, matches: Matcher,
                                                 segs: seq<string>, children: seq<Child>)
    requires forall seg :: seg in segs ==> IsName(seg)
    requires forall c :: c in children ==> IsName(c.name) && WellNamed(c.node)
    ensures PrunedChildren(patterns, matches, Rel(segs), children)
            == Keep(patterns, matches, ListChildren(Rel(segs), children))
    decreases children, 0
  {
    if children != [] {
      var c := children[0];
      assert c in children;
      RelBeneath(segs, c.name);
      PrunedIsFlat(patterns, matches, segs + [c.name], c.node);
      PrunedChildrenAreFlat(patterns, matches, segs, children[1..]);
      KeepAppend(patterns, matches, Listing(Beneath(Rel(segs), c.name), c.node),
                 ListChildren(Rel(segs), children[1..]));
    }
  }

  // ---------------------------------------------------------------------------
  // Names of the files found

  /** Every visit below the root has a clean path that extends the path of the walk's start. */
  ghost predicate Extends(segs: seq<string>, v: Visit) {
    && segs <= Split(v.rel, '/')
    && Names(Split(v.rel, '/'))
    && Join(Split(v.rel, '/'), '/') == v.rel
  }

  ghost predicate DistinctPaths(visits: seq<Visit>) {
    forall i, j :: 0 <= i < j < |visits| ==> visits[i].rel != visits[j].rel
  }

  lemma {:induction false} ListingDistinct(segs: seq<string>, node: Node)
    requires Names(segs) && WellNamed(node)
    ensures DistinctPaths(Listing(Rel(segs), node))
    ensures forall v :: v in Listing(Rel(segs), node) ==> Extends(segs, v)
    decreases node, 1
  {
    SplitJoin(segs, '/');
    if node.Directory? && node.readable {
      ChildrenDistinct(segs, node.children);
    }
  }

  /** The visits under different children differ at the child's name. */
  lemma {:induction false} ChildrenDistinct(segs: seq<string>, children: seq<Child>)
    requires forall seg :: seg in segs ==> IsName(seg)
    requires forall c :: c in children ==> IsName(c.name) && WellNamed(c.node)
    requires forall i, j :: 0 <= i < j < |children| ==> children[i].name != children[j].name
    ensures DistinctPaths(ListChildren(Rel(segs), children))
    ensures forall v :: v in ListChildren(Rel(segs), children) ==>
              && Extends(segs, v) && |Split(v.rel, '/')| > |segs|
              && exists c :: c in children && Split(v.rel, '/')[|segs|] == c.name
    decreases children, 0
  {
    if children != [] {
      var c := children[0];
      assert c in children;
      RelBeneath(segs, c.name);
      ListingDistinct(segs + [c.name], c.node);
      ChildrenDistinct(segs, children[1..]);
      var first, rest := Listing(Rel(segs + [c.name]), c.node), ListChildren(Rel(segs), children[1..]);
      forall v | v in first
        ensures Extends(segs, v) && |Split(v.rel, '/')| > |segs| && Split(v.rel, '/')[|segs|] == c.name
      {
        assert segs + [c.name] <= Split(v.rel, '/');
        assert (segs + [c.name])[|segs|] == c.name;
      }
      forall i, j | 0 <= i < |first| && 0 <= j < |rest| ensures first[i].rel != rest[j].rel {
        assert first[i] in first && rest[j] in rest;
        var d :| d in children[1..] && Split(rest[j].rel, '/')[|segs|] == d.name;
        var k :| 1 <= k < |children| && children[k] == d;
      }
    }
  }

  // ---------------------------------------------------------------------------
  // What the walk visits, and in which order

  /** `leaf` is what lies at the path in the tree, by way of readable directories. */
  ghost predicate LiesAt(node: Node, path: seq<string>, leaf: Node)
    decreases |path|
  {
    if path == [] then leaf == node
    else node.Directory? && node.readable &&
         exists c :: c in node.children && c.name == path[0] && LiesAt(c.node, path[1..], leaf)
  }

  function FoundAt(leaf: Node): Found {
    match leaf
    case File(content) => if content.Some? then Content(content.value) else Unreadable
    case Directory(_, readable) => if readable then Entered else Unreadable
  }

  ghost predicate Visits(segs: seq<string>, node: Node, v: Visit, path: seq<string>, leaf: Node) {
    LiesAt(node, path, leaf) && v == Visit(Rel(segs + path), FoundAt(leaf))
  }

  /** The full listing visits exactly what lies in the tree, each under its path. */
  lemma {:induction false} ListingIsTree(segs: seq<string>, node: Node, v: Visit)
    requires (forall seg :: seg in segs ==> IsName(seg)) && WellNamed(node)
    ensures v in Listing(Rel(segs), node) <==> exists path, leaf :: Visits(segs, node, v, path, leaf)
    decreases node, 1
  {
    assert segs + [] == segs;
    var own := Visit(Rel(segs), FoundAt(node));
    assert Visits(segs, node, own, [], node);
    if node.Directory? && node.readable {
      ChildrenAreTree(segs, node.children, v);
      if c, path, leaf :| c in node.children && Visits(segs + [c.name], c.node, v, path, leaf) {
        VisitsUp(segs, node, v, c, path, leaf);
      }
      if path, leaf :| Visits(segs, node, v, path, leaf) && path != [] {
        var c := VisitsDown(segs, node, v, path, leaf);
      }
    }
  }

  lemma VisitsUp(segs: seq<string>, node: Node, v: Visit, c: Child, path: seq<string>, leaf: Node)
    requires node.Directory? && node.readable && c in node.children && Visits(segs + [c.name], c.node, v, path, leaf)
    ensures Visits(segs, node, v, [c.name] + path, leaf)
  {
    assert segs + [c.name] + path == segs + ([c.name] + path);
    assert ([c.name] + path)[1..] == path;
  }

  lemma VisitsDown(segs: seq<string>, node: Node, v: Visit, path: seq<string>, leaf: Node) returns (c: Child)
    requires Visits(segs, node, v, path, leaf) && path != []
    ensures node.Directory? && c in node.children && Visits(segs + [c.name], c.node, v, path[1..], leaf)
  {
    c :| c in node.children && c.name == path[0] && LiesAt(c.node, path[1..], leaf);
    assert segs + [c.name] + path[1..] == segs + path;
  }

  lemma {:induction false} ChildrenAreTree(segs: seq<string>, children: seq<Child>, v: Visit)
    requires forall seg :: seg in segs ==> IsName(seg)
    requires forall c :: c in children ==> IsName(c.name) && WellNamed(c.node)
    ensures v in ListChildren(Rel(segs), children) <==>
            exists c, path, leaf :: c in children && Visits(segs + [c.name], c.node, v, path, leaf)
    decreases children, 0
  {
    if children != [] {
      var first := children[0];
      assert first in children;
      RelBeneath(segs, first.name);
      ListingIsTree(segs + [first.name], first.node, v);
      ChildrenAreTree(segs, children[1..], v);
      assert forall c :: c in children <==> c == first || c in children[1..];
    }
  }

  /** The entries of every directory are in lexical order, as filepath.WalkDir reads them. */
  ghost predicate Ordered(node: Node) {
    node.Directory? ==>
      && (forall c :: c in node.children ==> Ordered(c.node))
      && (forall i, j :: 0 <= i < j < |node.children| ==> Leq(node.children[i].name, node.children[j].name))
  }

  /** A path comes before what lies beneath it, and otherwise the first differing name decides. */
  ghost predicate PathBefore(a: seq<string>, b: seq<string>) {
    exists k :: DecidedAt(a, b, k)
  }

  ghost predicate DecidedAt(a: seq<string>, b: seq<string>, k: int) {
    && 0 <= k <= |a| && k < |b| && a[..k] == b[..k]
    && (k < |a| ==> a[k] != b[k] && Leq(a[k], b[k]))
  }

  ghost predicate InOrder(visits: seq<Visit>) {
    forall i, j :: 0 <= i < j < |visits| ==> PathBefore(Split(visits[i].rel, '/'), Split(visits[j].rel, '/'))
  }

  /** The walk visits the tree in the order of its paths. */
  lemma {:induction false} ListingInOrder(segs: seq<string>, node: Node)
    requires Names(segs) && WellNamed(node) && Ordered(node)
    ensures InOrder(Listing(Rel(segs), node))
    decreases node, 1
  {
    SplitJoin(segs, '/');
    if node.Directory? && node.readable {
      ChildrenInOrder(segs, node.children);
      ChildrenDistinct(segs, node.children);
      var rest := ListChildren(Rel(segs), node.children);
      forall j | 0 <= j < |rest| ensures PathBefore(segs, Split(rest[j].rel, '/')) {
        assert rest[j] in rest && Extends(segs, rest[j]);
        assert DecidedAt(segs, Split(rest[j].rel, '/'), |segs|);
      }
    }
  }

  lemma {:induction false} ChildrenInOrder(segs: seq<string>, children: seq<Child>)
    requires forall seg :: seg in segs ==> IsName(seg)
    requires forall c :: c in children ==> IsName(c.name) && WellNamed(c.node) && Ordered(c.node)
    requires forall i, j :: 0 <= i < j < |children| ==>
               children[i].name != children[j].name && Leq(children[i].name, children[j].name)
    ensures InOrder(ListChildren(Rel(segs), children))
    decreases children, 0
  {
    if children != [] {
      var c := children[0];
      assert c in children;
      RelBeneath(segs, c.name);
      ListingInOrder(segs + [c.name], c.node);
      ListingDistinct(segs + [c.name], c.node);
      ChildrenInOrder(segs, children[1..]);
      ChildrenDistinct(segs, children[1..]);
      var first, rest := Listing(Rel(segs + [c.name]), c.node), ListChildren(Rel(segs), children[1..]);
      forall i, j | 0 <= i < |first| && 0 <= j < |rest|
        ensures PathBefore(Split(first[i].rel, '/'), Split(rest[j].rel, '/'))
      {
        assert first[i] in first && rest[j] in rest;
        var d :| d in children[1..] && Split(rest[j].rel, '/')[|segs|] == d.name;
        var a, b := Split(first[i].rel, '/'), Split(rest[j].rel, '/');
        assert segs + [c.name] <= a && segs <= b;
        assert a[|segs|] == (segs + [c.name])[|segs|];
        assert DecidedAt(a, b, |segs|);
      }
    }
  }

  // ---------------------------------------------------------------------------
  // LocalCookbookFromDir

  datatype DirError = BadChefignore | BadDirectory(path: string) | NoFiles

  /** The walk appended what it found to the cookbook, or failed at the first unreadable path. */
  ghost predicate Walked(found: Result<seq<CookbookFile>, string>, before: seq<CookbookFile>,
                         after: seq<CookbookFile>, failed: Option<string>)
  {
    if found.Ok? then failed.None? && after == before + found.value else failed == Some(found.error)
  }

  /** The recursion of filepath.WalkDir with the walk's function inlined: a file found is appended
      to the cookbook, an ignored directory is skipped with all that is beneath it. */
  method WalkDir(cb: LocalCookbook, patterns: seq<string>, env: Env, rel: string, node: Node)
    returns (failed: Option<string>)
    modifies cb`files
    ensures Walked(Gather(env, Pruned(patterns, env.matches, rel, node)), old(cb.files), cb.files, failed)
    decreases node, 1
  {
    var ignored := Ignores(patterns, env.matches, rel);
    match node {
      case Directory(children, readable) =>
        if rel != "." && ignored {
          return None;
        }
        if !readable {
          return Some(rel);
        }
        failed := WalkChildren(cb, patterns, env, rel, children);
        GatherAppend(env, [Visit(rel, Entered)], PrunedChildren(patterns, env.matches, rel, children));
      case File(content) =>
        if ignored {
          return None;
        }
        if content.None? {
          return Some(rel);
        }
        cb.files := cb.files + [CookbookFile(rel, content.value, env.md5Hex(content.value))];
        return None;
    }
  }

  method WalkChildren(cb: LocalCookbook, patterns: seq<string>, env: Env, rel: string, children: seq<Child>)
    returns (failed: Option<string>)
    modifies cb`files
    ensures Walked(Gather(env, PrunedChildren(patterns, env.matches, rel, children)), old(cb.files), cb.files, failed)
    decreases children, 0
  {
    if children == [] {
      return None;
    }
    var c := children[0];
    ghost var before := cb.files;
    ghost var a, b := GatherChildren(patterns, env, rel, children);
    failed := WalkDir(cb, patterns, env, Beneath(rel, c.name), c.node);
    if failed.None? {
      ghost var between := cb.files;
      failed := WalkChildren(cb, patterns, env, rel, children[1..]);
      WalkedThen(a, b, before, between, cb.files, failed);
    }
  }

  lemma GatherChildren(patterns: seq<string>, env: Env, rel: string, children: seq<Child>)
    returns (a: Result<seq<CookbookFile>, string>, b: Result<seq<CookbookFile>, string>)
    requires children != []
    ensures a == Gather(env, Pruned(patterns, env.matches, Beneath(rel, children[0].name), children[0].node))
    ensures b == Gather(env, PrunedChildren(patterns, env.matches, rel, children[1..]))
    ensures Gather(env, PrunedChildren(patterns, env.matches, rel, children)) == Then(a, b)
  {
    var first := Pruned(patterns, env.matches, Beneath(rel, children[0].name), children[0].node);
    var rest := PrunedChildren(patterns, env.matches, rel, children[1..]);
    a, b := Gather(env, first), Gather(env, rest);
    GatherAppend(env, first, rest);
  }

  lemma WalkedThen(a: Result<seq<CookbookFile>, string>, b: Result<seq<CookbookFile>, string>,
                   before: seq<CookbookFile>, between: seq<CookbookFile>, after: seq<CookbookFile>,
                   failed: Option<string>)
    requires Walked(a, before, between, None) && Walked(b, between, after, failed)
    ensures Walked(Then(a, b), before, after, failed)
  {
  }

  /** The text of the chefignore file at the root; empty when there is no such file. */
  function ChefignoreText(env: Env, root: Node): Result<string, DirError> {
    if root.File? then Err(BadChefignore) else FindChefignore(env, root.children)
  }

  function FindChefignore(env: Env, children: seq<Child>): Result<string, DirError> {
    if children == [] then Ok("")
    else if children[0].name != "chefignore" then FindChefignore(env, children[1..])
    else if children[0].node.File? && children[0].node.content.Some? then
      Ok(env.text(children[0].node.content.value))
    else Err(BadChefignore)
  }

  /** A file named "chefignore" at the root that cannot be read as one. */
  ghost predicate BadIgnoreFile(root: Node) {
    root.File? || exists c :: c in root.children && c.name == "chefignore" && !(c.node.File? && c.node.content.Some?)
  }

  /** The patterns are those of the file named "chefignore" at the root, or none without it. */
  ghost predicate PatternsFor(env: Env, root: Node, patterns: seq<string>)
    requires root.Directory?
  {
    if exists c :: c in root.children && c.name == "chefignore" then
      exists c :: c in root.children && c.name == "chefignore" && c.node.File? && c.node.content.Some?
        && patterns == PatternsOf(Split(env.text(c.node.content.value), '\n'))
    else patterns == []
  }

  /** Which file the patterns come from. */
  lemma ChefignoreRead(env: Env, root: Node)
    requires WellNamed(root)
    ensures if BadIgnoreFile(root) then ChefignoreText(env, root) == Err(BadChefignore)
            else ChefignoreText(env, root).Ok? && root.Directory?
    ensures ChefignoreText(env, root).Ok? && root.Directory? ==>
              forall patterns :: PatternsFor(env, root, patterns) <==>
                patterns == PatternsOf(Split(ChefignoreText(env, root).value, '\n'))
  {
    if root.Directory? {
      if i :| 0 <= i < |root.children| && root.children[i].name == "chefignore" {
        ChefignoreFound(env, root.children, i);
        assert forall c :: c in root.children && c.name == "chefignore" ==> c == root.children[i];
      } else {
        ChefignoreMissing(env, root.children);
        assert Split("", '\n') == [""] && PatternsOf([""]) == [] + PatternsOf([]);
      }
    }
  }

  lemma {:induction false} ChefignoreFound(env: Env, children: seq<Child>, i: nat)
    requires i < |children| && children[i].name == "chefignore"
    requires forall j :: 0 <= j < |children| && j != i ==> children[j].name != "chefignore"
    ensures FindChefignore(env, children) ==
              if children[i].node.File? && children[i].node.content.Some? then Ok(env.text(children[i].node.content.value))
              else Err(BadChefignore)
  {
    if i > 0 {
      ChefignoreFound(env, children[1..], i - 1);
    }
  }

  lemma {:induction false} ChefignoreMissing(env: Env, children: seq<Child>)
    requires forall c :: c in children ==> c.name != "chefignore"
    ensures FindChefignore(env, children) == Ok("")
  {
    if children != [] {
      assert children[0] in children;
      ChefignoreMissing(env, children[1..]);
    }
  }

  ghost predicate KeptFile(env: Env, patterns: seq<string>, root: Node, v: Visit) {
    v in Listing(".", root) && v.found.Content? && !Ignored(patterns, env.matches, v.rel)
  }

  /** The files of a directory, or why there are none: the first path that is not ignored and
      cannot be read, or no file that is not ignored. */
  ghost predicate Assembled(env: Env, patterns: seq<string>, root: Node, r: Result<seq<CookbookFile>, DirError>) {
    if exists i :: StopsAt(patterns, env.matches, Listing(".", root), i) then
      exists i :: StopsAt(patterns, env.matches, Listing(".", root), i) && r == Err(BadDirectory(Listing(".", root)[i].rel))
    else if !exists v :: KeptFile(env, patterns, root, v) then r == Err(NoFiles)
    else
      r.Ok? && forall f :: f in r.value <==>
        exists v :: KeptFile(env, patterns, root, v) && f == CookbookFile(v.rel, v.found.bytes, env.md5Hex(v.found.bytes))
  }

  /** The first unreadable path that is kept. */
  ghost predicate StopsAt(patterns: seq<string>, matches: Matcher, visits: seq<Visit>, i: int) {
    && 0 <= i < |visits| && visits[i].found.Unreadable? && !Ignored(patterns, matches, visits[i].rel)
    && forall j :: 0 <= j < i && visits[j].found.Unreadable? ==> Ignored(patterns, matches, visits[j].rel)
  }

  lemma StopsLater(patterns: seq<string>, matches: Matcher, visits: seq<Visit>, k: nat)
    requires visits != [] && StopsAt(patterns, matches, visits[1..], k)
    requires visits[0].found.Unreadable? ==> Ignored(patterns, matches, visits[0].rel)
    ensures StopsAt(patterns, matches, visits, k + 1)
  {
    forall j | 0 <= j < k + 1 && visits[j].found.Unreadable? ensures Ignored(patterns, matches, visits[j].rel) {
      if j > 0 {
        assert visits[1..][j - 1] == visits[j];
      }
    }
  }

  lemma {:induction false} GatherStops(env: Env, patterns: seq<string>, visits: seq<Visit>) returns (i: nat)
    requires Gather(env, Keep(patterns, env.matches, visits)).Err?
    ensures StopsAt(patterns, env.matches, visits, i)
    ensures Gather(env, Keep(patterns, env.matches, visits)).error == visits[i].rel
  {
    var rest := Keep(patterns, env.matches, visits[1..]);
    if !Ignored(patterns, env.matches, visits[0].rel) {
      assert Keep(patterns, env.matches, visits) == [visits[0]] + rest && ([visits[0]] + rest)[1..] == rest;
    }
    if visits[0].found.Unreadable? && !Ignored(patterns, env.matches, visits[0].rel) {
      i := 0;
    } else {
      assert Gather(env, rest).Err? && Gather(env, rest).error == Gather(env, Keep(patterns, env.matches, visits)).error;
      var k := GatherStops(env, patterns, visits[1..]);
      StopsLater(patterns, env.matches, visits, k);
      i := k + 1;
    }
  }

  lemma FlatIsAssembled(env: Env, patterns: seq<string>, root: Node)
    ensures Assembled(env, patterns, root, FlatCookbook(env, patterns, root))
  {
    var kept := Keep(patterns, env.matches, Listing(".", root));
    KeepIsFilter(patterns, env.matches, Listing(".", root));
    GatherMeans(env, kept);
    var found := Gather(env, kept);
    forall i | StopsAt(patterns, env.matches, Listing(".", root), i) ensures Listing(".", root)[i] in kept {
    }
    if found.Err? {
      var i := GatherStops(env, patterns, Listing(".", root));
    } else {
      if v :| KeptFile(env, patterns, root, v) {
        assert v in kept;
        assert FileOf(env, v.rel, v.found.bytes) in found.value;
      } else if found.value != [] {
        assert found.value[0] in found.value;
        var v :| v in kept && v.found.Content? && found.value[0] == FileOf(env, v.rel, v.found.bytes);
        assert KeptFile(env, patterns, root, v);
      }
    }
  }

  /** What the flat reading of the documentation promises: every listed file that is not ignored,
      in walk order; an error when one of them, or a directory that is not ignored, cannot be read,
      or when there are none. */
  ghost function FlatCookbook(env: Env, patterns: seq<string>, root: Node): Result<seq<CookbookFile>, DirError> {
    var found := Gather(env, Keep(patterns, env.matches, Listing(".", root)));
    if found.Err? then Err(BadDirectory(found.error))
    else if found.value == [] then Err(NoFiles)
    else Ok(found.value)
  }

  /** `name` is the base name of the directory; a directory that does not exist is `None`. */
  method LocalCookbookFromDir(env: Env, name: string, version: string, root: Option<Node>)
    returns (r: Result<LocalCookbook, DirError>)
    requires root.Some? ==> WellNamed(root.value)
    ensures root.None? ==> r == Err(BadDirectory("."))
    ensures root.Some? ==>
              var text := ChefignoreText(env, root.value);
              if text.Err? then r == Err(BadChefignore)
              else
                var flat := FlatCookbook(env, PatternsOf(Split(text.value, '\n')), root.value);
                if flat.Err? then r == Err(flat.error) else r.Ok? && r.value.files == flat.value
    ensures root.Some? ==>
              if BadIgnoreFile(root.value) then r == Err(BadChefignore)
              else
                root.value.Directory? && forall patterns :: PatternsFor(env, root.value, patterns) ==>
                  Assembled(env, patterns, root.value, if r.Ok? then Ok(r.value.files) else Err(r.error))
    ensures r.Ok? ==> fresh(r.value) && r.value.name == name && r.value.version == version && r.value.identifier == ""
  {
    var cb := new LocalCookbook(name, version);
    if root.None? {
      return Err(BadDirectory("."));
    }
    ChefignoreRead(env, root.value);
    var text := ChefignoreText(env, root.value);
    if text.Err? {
      return Err(BadChefignore);
    }
    var patterns := ParseChefignore(text.value);
    PrunedIsFlat(patterns, env.matches, [], root.value);
    FlatIsAssembled(env, patterns, root.value);
    var failed := WalkDir(cb, patterns, env, ".", root.value);
    if failed.Some? {
      return Err(BadDirectory(failed.value));
    }
    if |cb.files| == 0 {
      return Err(NoFiles);
    }
    return Ok(cb);
  }

  /** What `uploadCookbook` relies on: distinct clean paths, and the digest of each content. */
  ghost predicate UploadReady(md5Hex: Bytes -> string, files: seq<CookbookFile>) {
    && (forall f :: f in files ==> Names(Split(f.name, '/')) && f.checksum == md5Hex(f.content))
    && (forall i, j :: 0 <= i < j < |files| ==> files[i].name != files[j].name)
  }

  /** Every cookbook read from a directory is ready for upload, and holds exactly the readable
      files that are listed and not ignored. */
  lemma FlatCookbookIsReady(env: Env, patterns: seq<string>, root: Node)
    requires root.Directory? && WellNamed(root)
    requires FlatCookbook(env, patterns, root).Ok?
    ensures UploadReady(env.md5Hex, FlatCookbook(env, patterns, root).value)
    ensures forall f :: f in FlatCookbook(env, patterns, root).value <==>
              exists v :: v in Listing(".", root) && !Ignored(patterns, env.matches, v.rel)
                && v.found.Content? && f == FileOf(env, v.rel, v.found.bytes)
  {
    var all := Listing(".", root);
    var kept := Keep(patterns, env.matches, all);
    KeepIsFilter(patterns, env.matches, all);
    GatherMeans(env, kept);
    if root.readable {
      ChildrenDistinct([], root.children);
      KeepAppend(patterns, env.matches, [Visit(".", Entered)], ListChildren(".", root.children));
      KeepDistinct(patterns, env.matches, ListChildren(".", root.children));
      GatherDistinct(env, Keep(patterns, env.matches, ListChildren(".", root.children)));
      GatherAppend(env, Keep(patterns, env.matches, [Visit(".", Entered)]),
                   Keep(patterns, env.matches, ListChildren(".", root.children)));
    }
  }

  lemma {:induction false} KeepDistinct(patterns: seq<string>, matches: Matcher, visits: seq<Visit>)
    requires DistinctPaths(visits)
    ensures DistinctPaths(Keep(patterns, matches, visits))
  {
    if visits != [] {
      KeepDistinct(patterns, matches, visits[1..]);
      KeepIsFilter(patterns, matches, visits[1..]);
      forall v | v in Keep(patterns, matches, visits[1..]) ensures v.rel != visits[0].rel {
        var k :| 1 <= k < |visits| && visits[k] == v;
      }
    }
  }

  lemma {:induction false} GatherDistinct(env: Env, visits: seq<Visit>)
    requires DistinctPaths(visits) && Gather(env, visits).Ok?
    ensures forall i, j :: 0 <= i < j < |Gather(env, visits).value| ==>
              Gather(env, visits).value[i].name != Gather(env, visits).value[j].name
  {
    if visits != [] {
      GatherDistinct(env, visits[1..]);
      GatherMeans(env, visits[1..]);
      var rest := Gather(env, visits[1..]).value;
      forall i | 0 <= i < |rest| ensures rest[i].name != visits[0].rel {
        assert rest[i] in rest;
        var v :| v in visits[1..] && v.found.Content? && rest[i] == FileOf(env, v.rel, v.found.bytes);
        var k :| 1 <= k < |visits| && visits[k] == v;
      }
    }
  }

  /** The files of a cookbook read from a directory are in the order of their paths. */
  lemma FilesInOrder(env: Env, patterns: seq<string>, root: Node)
    requires root.Directory? && WellNamed(root) && Ordered(root) && FlatCookbook(env, patterns, root).Ok?
    ensures NamesInOrder(FlatCookbook(env, patterns, root).value)
  {
    var own, below := [Visit(".", Entered)], ListChildren(".", root.children);
    if root.readable {
      ChildrenInOrder([], root.children);
      KeepInOrder(patterns, env.matches, below);
      GatherInOrder(env, Keep(patterns, env.matches, below));
      KeepAppend(patterns, env.matches, own, below);
      GatherAppend(env, Keep(patterns, env.matches, own), Keep(patterns, env.matches, below));
    }
  }

  ghost predicate NamesInOrder(files: seq<CookbookFile>) {
    forall i, j :: 0 <= i < j < |files| ==> PathBefore(Split(files[i].name, '/'), Split(files[j].name, '/'))
  }

  lemma {:induction false} KeepInOrder(patterns: seq<string>, matches: Matcher, visits: seq<Visit>)
    requires InOrder(visits)
    ensures InOrder(Keep(patterns, matches, visits))
  {
    if visits != [] {
      KeepInOrder(patterns, matches, visits[1..]);
      KeepIsFilter(patterns, matches, visits[1..]);
      forall v | v in Keep(patterns, matches, visits[1..])
        ensures PathBefore(Split(visits[0].rel, '/'), Split(v.rel, '/'))
      {
        var k :| 1 <= k < |visits| && visits[k] == v;
      }
    }
  }

  lemma {:induction false} GatherInOrder(env: Env, visits: seq<Visit>)
    requires InOrder(visits) && Gather(env, visits).Ok?
    ensures NamesInOrder(Gather(env, visits).value)
  {
    if visits != [] {
      GatherInOrder(env, visits[1..]);
      GatherMeans(env, visits[1..]);
      var rest := Gather(env, visits[1..]).value;
      forall i | 0 <= i < |rest| ensures PathBefore(Split(visits[0].rel, '/'), Split(rest[i].name, '/')) {
        assert rest[i] in rest;
        var v :| v in visits[1..] && v.found.Content? && rest[i] == FileOf(env, v.rel, v.found.bytes);
        var k :| 1 <= k < |visits| && visits[k] == v;
      }
    }
  }
}
