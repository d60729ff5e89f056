/** The chefignore matcher.  Glob matching itself is an arbitrary predicate `matches`
    (pattern, candidate), so every result holds for every matcher. */
module Chefignore {
  import opened Strings
  import opened Paths

  type Matcher = (string, string) -> bool

  // ---------------------------------------------------------------------------
  // Parsing

  function TrimLeft(s: string): string {
    if s != "" && IsSpace(s[0]) then TrimLeft(s[1..]) else s
  }

  function TrimRight(s: string): string {
    if s != "" && IsSpace(s[|s| - 1]) then TrimRight(s[..|s| - 1]) else s
  }

  /** strings.TrimSpace */
  function TrimSpace(s: string): string {
    TrimRight(TrimLeft(s))
  }

  predicate IsPattern(line: string) {
    TrimSpace(line) != "" && TrimSpace(line)[0] != '#'
  }

  function PatternsOf(lines: seq<string>): seq<string> {
    if lines == [] then []
    else
      var rest := PatternsOf(lines[..|lines| - 1]);
      var line := lines[|lines| - 1];
      if IsPattern(line) then rest + [TrimSpace(line)] else rest
  }

  method ParseChefignore(data: string) returns (patterns: seq<string>)
    ensures patterns == PatternsOf(Split(data, '\n'))
    ensures forall pattern :: pattern in patterns ==>
              pattern != "" && pattern[0] != '#' && TrimSpace(pattern) == pattern && Free(pattern, '\n')
  {
    patterns := [];
    var lines := Split(data, '\n');
    JoinSplit(data, '\n');
    for i := 0 to |lines|
      invariant patterns == PatternsOf(lines[..i])
      invariant forall pattern :: pattern in patterns ==>
                  pattern != "" && pattern[0] != '#' && TrimSpace(pattern) == pattern && Free(pattern, '\n')
    {
      assert lines[..i + 1][..i] == lines[..i];
      var line := TrimSpace(lines[i]);
      Trimmed(lines[i]);
      assert lines[i] in lines;
      if line == "" || line[0] == '#' {
        continue;
      }
      patterns := patterns + [line];
    }
    assert lines[..|lines|] == lines;
  }

  /** A trimmed string has no space at either end, and is a part of the original. */
  lemma Trimmed(s: string)
    ensures TrimSpace(TrimSpace(s)) == TrimSpace(s)
    ensures forall c :: c in TrimSpace(s) ==> c in s
  {
    TrimLeftEnds(s);
    TrimRightEnds(TrimLeft(s));
    var t := TrimSpace(s);
    TrimRightEnds(t);
    assert t != "" ==> !IsSpace(t[0]) && !IsSpace(t[|t| - 1]);
  }

  lemma {:induction false} TrimLeftEnds(s: string)
    ensures TrimLeft(s) != "" ==> !IsSpace(TrimLeft(s)[0])
    ensures forall c :: c in TrimLeft(s) ==> c in s
  {
    if s != "" {
      TrimLeftEnds(s[1..]);
    }
  }

  lemma {:induction false} TrimRightEnds(s: string)
    ensures TrimRight(s) <= s
    ensures TrimRight(s) != "" ==> !IsSpace(TrimRight(s)[|TrimRight(s)| - 1])
  {
    if s != "" {
      TrimRightEnds(s[..|s| - 1]);
    }
  }

  predicate Blank(s: string) {
    forall i :: 0 <= i < |s| ==> IsSpace(s[i])
  }

  /** No space at either end. */
  predicate Bare(s: string) {
    s == "" || (!IsSpace(s[0]) && !IsSpace(s[|s| - 1]))
  }

  /** Trimming takes away the space around the text, all of it and nothing else. */
  lemma TrimSpaceMeans(a: string, text: string, b: string)
    requires Blank(a) && Bare(text) && Blank(b)
    ensures TrimSpace(a + text + b) == text
  {
    TrimLeftBlank(a, text + b);
    assert a + text + b == a + (text + b);
    if text == "" {
      TrimLeftBlank(b, "");
      assert text + b == b && b + "" == b;
    } else {
      TrimRightBlank(text, b);
    }
  }

  lemma {:induction false} TrimLeftBlank(a: string, s: string)
    requires Blank(a)
    ensures TrimLeft(a + s) == TrimLeft(s)
  {
    if a == "" {
      assert a + s == s;
    } else {
      assert (a + s)[1..] == a[1..] + s;
      TrimLeftBlank(a[1..], s);
    }
  }

  lemma {:induction false} TrimRightBlank(s: string, b: string)
    requires s != "" && Bare(s) && Blank(b)
    ensures TrimRight(s + b) == s
  {
    if b == "" {
      assert s + b == s;
    } else {
      assert (s + b)[..|s + b| - 1] == s + b[..|b| - 1];
      TrimRightBlank(s, b[..|b| - 1]);
    }
  }

  /** What a line among others adds to the patterns: its text without the space around it, or nothing
      when that is empty or begins with "#". */
  lemma LinePattern(before: seq<string>, a: string, text: string, b: string, after: seq<string>)
    requires Blank(a) && Bare(text) && Blank(b)
    ensures PatternsOf(before + [a + text + b] + after) ==
              PatternsOf(before) + (if text == "" || text[0] == '#' then [] else [text]) + PatternsOf(after)
    ensures PatternsOf([]) == []
  {
    var line := a + text + b;
    TrimSpaceMeans(a, text, b);
    PatternsAppend(before + [line], after);
    assert (before + [line])[..|before|] == before;
  }

  lemma {:induction false} PatternsAppend(before: seq<string>, after: seq<string>)
    ensures PatternsOf(before + after) == PatternsOf(before) + PatternsOf(after)
  {
    if after == [] {
      assert before + after == before;
    } else {
      var init := after[..|after| - 1];
      assert (before + after)[..|before + after| - 1] == before + init;
      PatternsAppend(before, init);
    }
  }

  /** Writing the parsed patterns back, one a line, and parsing again gives the same patterns. */
  lemma ParseAgain(patterns: seq<string>)
    requires forall pattern :: pattern in patterns ==>
               pattern != "" && pattern[0] != '#' && TrimSpace(pattern) == pattern && Free(pattern, '\n')
    ensures PatternsOf(Split(Join(patterns, '\n'), '\n')) == patterns
  {
    if patterns == [] {
      assert Split("", '\n') == [""] && !IsPattern("");
    } else {
      SplitJoin(patterns, '\n');
      PatternsOfPatterns(patterns);
    }
  }

  lemma {:induction false} PatternsOfPatterns(patterns: seq<string>)
    requires forall pattern :: pattern in patterns ==>
               pattern != "" && pattern[0] != '#' && TrimSpace(pattern) == pattern
    ensures PatternsOf(patterns) == patterns
  {
    if patterns != [] {
      var init, last := patterns[..|patterns| - 1], patterns[|patterns| - 1];
      assert patterns == init + [last] && last in patterns;
      assert IsPattern(last) && forall pattern :: pattern in init ==> pattern in patterns;
      PatternsOfPatterns(init);
    }
  }

  // ---------------------------------------------------------------------------
  // Candidates

  /** The ancestor directories from `dir` outwards, each with its base name. */
  function Ancestors(dir: string): seq<string>
    decreases Depth(dir)
  {
    if IsTop(dir) then [] else
      DirShortens(dir);
      [dir, Base(dir)] + Ancestors(Dir(dir))
  }

  function Candidates(relPath: string): seq<string> {
    [relPath, Base(relPath)] + Ancestors(Dir(relPath))
  }

  /** For any string at all the loop over the ancestors ends. */
  method ChefignoreCandidates(relPath: string) returns (candidates: seq<string>)
    ensures candidates == Candidates(relPath)
  {
    candidates := [relPath, Base(relPath)];
    var dir := Dir(relPath);
    while dir != "." && dir != "/" && dir != ""
      invariant candidates + Ancestors(dir) == Candidates(relPath)
      decreases Depth(dir)
    {
      AncestorsStep(candidates, dir);
      candidates := candidates + [dir, Base(dir)];
      dir := Dir(dir);
    }
  }

  lemma AncestorsStep(before: seq<string>, dir: string)
    requires !IsTop(dir)
    ensures before + Ancestors(dir) == before + [dir, Base(dir)] + Ancestors(Dir(dir))
    ensures Depth(Dir(dir)) < Depth(dir)
  {
    DirShortens(dir);
  }

  /** The names from the root down to depth `k`, or the name at depth `k`. */
  ghost predicate OnTheWay(cand: string, segs: seq<string>, k: int) {
    1 <= k <= |segs| && (cand == Join(segs[..k], '/') || cand == segs[k - 1])
  }

  /** `cand` is the path, one of its ancestors, or the base name of one of them. */
  ghost predicate PathHas(segs: seq<string>, cand: string) {
    exists k :: OnTheWay(cand, segs, k)
  }

  /** The candidates of a clean relative path are exactly the path, its ancestors, and the base
      name of each. */
  lemma CandidatesOfNames(segs: seq<string>, cand: string)
    requires Names(segs)
    ensures cand in Candidates(Join(segs, '/')) <==> PathHas(segs, cand)
  {
    JoinNames(segs);
    AncestorsOfNames(segs, cand);
    DirOfNames(segs);
    assert Candidates(Join(segs, '/')) == Ancestors(Join(segs, '/'));
  }

  lemma {:induction false} AncestorsOfNames(segs: seq<string>, cand: string)
    requires Names(segs)
    ensures cand in Ancestors(Join(segs, '/')) <==> PathHas(segs, cand)
    decreases |segs|
  {
    var front, last := segs[..|segs| - 1], segs[|segs| - 1];
    assert segs == front + [last];
    OnTheWayDown(front, last, cand);
    if front == [] {
      AncestorsUnfold(segs, cand);
      assert !PathHas(front, cand);
    } else {
      assert forall seg :: seg in front ==> seg in segs;
      AncestorsUnfold(segs, cand);
      AncestorsOfNames(front, cand);
    }
  }

  /** The outermost step of the loop over the ancestors. */
  lemma AncestorsUnfold(segs: seq<string>, cand: string)
    requires Names(segs)
    ensures cand in Ancestors(Join(segs, '/')) <==>
            || cand == Join(segs, '/') || cand == segs[|segs| - 1]
            || (|segs| > 1 && cand in Ancestors(Join(segs[..|segs| - 1], '/')))
  {
    JoinNames(segs);
    DirShortens(Join(segs, '/'));
    DirOfNames(segs);
    BaseOfNames(segs);
  }

  lemma OnTheWayDown(front: seq<string>, last: string, cand: string)
    ensures PathHas(front + [last], cand) <==> cand == Join(front + [last], '/') || cand == last || PathHas(front, cand)
  {
    var segs := front + [last];
    assert segs[..|segs|] == segs;
    assert OnTheWay(cand, segs, |segs|) <==> cand == Join(segs, '/') || cand == last;
    if PathHas(front, cand) {
      var k :| OnTheWay(cand, front, k);
      assert front[..k] == segs[..k];
      assert OnTheWay(cand, segs, k);
    }
    if PathHas(segs, cand) {
      var k :| OnTheWay(cand, segs, k);
      if k < |segs| {
        assert front[..k] == segs[..k];
        assert OnTheWay(cand, front, k);
      }
    }
  }

  /** What lies beneath a directory has every candidate of the directory. */
  lemma CandidatesGrow(outer: seq<string>, inner: seq<string>, cand: string)
    requires Names(outer) && Names(outer + inner) && cand in Candidates(Join(outer, '/'))
    ensures cand in Candidates(Join(outer + inner, '/'))
  {
    CandidatesOfNames(outer, cand);
    CandidatesOfNames(outer + inner, cand);
    var k :| OnTheWay(cand, outer, k);
    assert (outer + inner)[..k] == outer[..k];
    assert OnTheWay(cand, outer + inner, k);
  }

  // ---------------------------------------------------------------------------
  // Ignoring

  ghost predicate MatchesSome(pattern: string, matches: Matcher, candidates: seq<string>) {
    exists cand :: cand in candidates && matches(pattern, cand)
  }

  /** Some pattern matches some candidate; the empty path and "." are never ignored. */
  ghost predicate Ignored(patterns: seq<string>, matches: Matcher, relPath: string) {
    && relPath != "" && relPath != "."
    && exists pattern :: pattern in patterns && MatchesSome(pattern, matches, Candidates(relPath))
  }

  method Ignores(patterns: seq<string>, matches: Matcher, relPath: string) returns (ignored: bool)
    ensures ignored <==> Ignored(patterns, matches, relPath)
  {
    if |patterns| == 0 || relPath == "" || relPath == "." {
      return false;
    }
    var candidates := ChefignoreCandidates(relPath);
    ignored := AnyMatch(patterns, matches, candidates);
  }

  /** The nested loop of `Ignores`. */
  method AnyMatch(patterns: seq<string>, matches: Matcher, candidates: seq<string>) returns (found: bool)
    ensures found <==> exists pattern :: pattern in patterns && MatchesSome(pattern, matches, candidates)
  {
    for i := 0 to |patterns|
      invariant forall a :: 0 <= a < i ==> !MatchesSome(patterns[a], matches, candidates)
    {
      var pattern := patterns[i];
      for j := 0 to |candidates|
        invariant forall b :: 0 <= b < j ==> !matches(pattern, candidates[b])
      {
        if matches(pattern, candidates[j]) {
          assert MatchesSome(pattern, matches, candidates) by {
            assert candidates[j] in candidates;
          }
          return true;
        }
      }
      assert !MatchesSome(pattern, matches, candidates);
    }
    return false;
  }

  /** What lies beneath an ignored directory is ignored. */
  lemma IgnoredBeneath(patterns: seq<string>, matches: Matcher, outer: seq<string>, inner: seq<string>)
    requires Names(outer) && Names(outer + inner)
    requires Ignored(patterns, matches, Join(outer, '/'))
    ensures Ignored(patterns, matches, Join(outer + inner, '/'))
  {
    var pattern :| pattern in patterns && MatchesSome(pattern, matches, Candidates(Join(outer, '/')));
    var cand :| cand in Candidates(Join(outer, '/')) && matches(pattern, cand);
    CandidatesGrow(outer, inner, cand);
    assert MatchesSome(pattern, matches, Candidates(Join(outer + inner, '/')));
    JoinNames(outer + inner);
  }

  /** A pattern matches the path down to depth `k`, or the name at depth `k`. */
  ghost predicate MatchesAt(pattern: string, matches: Matcher, segs: seq<string>, k: int) {
    1 <= k <= |segs| && (matches(pattern, Join(segs[..k], '/')) || matches(pattern, segs[k - 1]))
  }

  /** A clean relative path is ignored exactly when a pattern matches the path, one of its
      ancestors, or one of the names on the way. */
  lemma IgnoredMeans(patterns: seq<string>, matches: Matcher, segs: seq<string>)
    requires Names(segs)
    ensures Ignored(patterns, matches, Join(segs, '/')) <==>
            exists pattern, k :: pattern in patterns && MatchesAt(pattern, matches, segs, k)
  {
    JoinNames(segs);
    forall pattern
      ensures MatchesSome(pattern, matches, Candidates(Join(segs, '/'))) <==>
              exists k :: MatchesAt(pattern, matches, segs, k)
    {
      MatchesSomeMeans(pattern, matches, segs);
    }
  }

  lemma MatchesSomeMeans(pattern: string, matches: Matcher, segs: seq<string>)
    requires Names(segs)
    ensures MatchesSome(pattern, matches, Candidates(Join(segs, '/'))) <==>
            exists k :: MatchesAt(pattern, matches, segs, k)
  {
    var cands := Candidates(Join(segs, '/'));
    if cand :| cand in cands && matches(pattern, cand) {
      CandidatesOfNames(segs, cand);
      var k :| OnTheWay(cand, segs, k);
      assert MatchesAt(pattern, matches, segs, k);
    }
    if k :| MatchesAt(pattern, matches, segs, k) {
      var cand := if matches(pattern, segs[k - 1]) then segs[k - 1] else Join(segs[..k], '/');
      assert OnTheWay(cand, segs, k);
      CandidatesOfNames(segs, cand);
    }
  }
}
