/** Paging through a stable search result. */
module Search {
  import opened Wrappers
  import opened Transport

  type Row = string

  datatype SearchResult = SearchResult(total: nat, start: int, rows: seq<Row>)

  datatype SearchParams = SearchParams(start: int, rows: int, partial: map<string, seq<string>>)

  datatype SearchOption =
    | WithStart(n: int)
    | WithRows(n: int)
    | WithPartial(keys: map<string, seq<string>>)

  function Apply(p: SearchParams, o: SearchOption): SearchParams {
    match o
    case WithStart(n) => p.(start := n)
    case WithRows(n) => p.(rows := n)
    case WithPartial(keys) => p.(partial := keys)
  }

  /** The parameters after all options, the last of each kind winning. */
  function Params(opts: seq<SearchOption>): SearchParams {
    if opts == [] then SearchParams(0, 1000, map[])
    else Apply(Params(opts[..|opts| - 1]), opts[|opts| - 1])
  }

  method ApplyOptions(opts: seq<SearchOption>) returns (p: SearchParams)
    ensures p == Params(opts)
  {
    p := SearchParams(0, 1000, map[]);
    for i := 0 to |opts|
      invariant p == Params(opts[..i])
    {
      assert opts[..i + 1][..i] == opts[..i];
      p := Apply(p, opts[i]);
    }
    assert opts[..|opts|] == opts;
  }

  /** The option at `i` is the last of its kind. */
  ghost predicate LastStart(opts: seq<SearchOption>, i: int) {
    0 <= i < |opts| && opts[i].WithStart? && forall j :: i < j < |opts| ==> !opts[j].WithStart?
  }

  ghost predicate LastRows(opts: seq<SearchOption>, i: int) {
    0 <= i < |opts| && opts[i].WithRows? && forall j :: i < j < |opts| ==> !opts[j].WithRows?
  }

  ghost predicate LastPartial(opts: seq<SearchOption>, i: int) {
    0 <= i < |opts| && opts[i].WithPartial? && forall j :: i < j < |opts| ==> !opts[j].WithPartial?
  }

  /** What the options ask for: the last of each kind, or else the first row on, 1000 rows a page,
      and no projection. */
  ghost predicate AskFor(opts: seq<SearchOption>, start: int, rows: int, partial: map<string, seq<string>>) {
    && (if exists i :: LastStart(opts, i) then exists i :: LastStart(opts, i) && opts[i] == WithStart(start) else start == 0)
    && (if exists i :: LastRows(opts, i) then exists i :: LastRows(opts, i) && opts[i] == WithRows(rows) else rows == 1000)
    && (if exists i :: LastPartial(opts, i) then exists i :: LastPartial(opts, i) && opts[i] == WithPartial(partial)
        else partial == map[])
  }

  /** The parameters are what the options ask for, and nothing else is. */
  lemma ParamsAskedFor(opts: seq<SearchOption>)
    ensures forall start, rows, partial ::
              AskFor(opts, start, rows, partial) <==> Params(opts) == SearchParams(start, rows, partial)
  {
    StartParam(opts);
    RowsParam(opts);
    PartialParam(opts);
  }

  lemma {:induction false} StartParam(opts: seq<SearchOption>)
    ensures if exists i :: LastStart(opts, i) then forall i :: LastStart(opts, i) ==> opts[i] == WithStart(Params(opts).start)
            else Params(opts).start == 0
  {
    if opts != [] {
      var init, last := opts[..|opts| - 1], |opts| - 1;
      StartParam(init);
      if opts[last].WithStart? {
        assert LastStart(opts, last);
      } else {
        assert forall i :: LastStart(opts, i) <==> LastStart(init, i);
      }
    }
  }

  lemma {:induction false} RowsParam(opts: seq<SearchOption>)
    ensures if exists i :: LastRows(opts, i) then forall i :: LastRows(opts, i) ==> opts[i] == WithRows(Params(opts).rows)
            else Params(opts).rows == 1000
  {
    if opts != [] {
      var init, last := opts[..|opts| - 1], |opts| - 1;
      RowsParam(init);
      if opts[last].WithRows? {
        assert LastRows(opts, last);
      } else {
        assert forall i :: LastRows(opts, i) <==> LastRows(init, i);
      }
    }
  }

  lemma {:induction false} PartialParam(opts: seq<SearchOption>)
    ensures if exists i :: LastPartial(opts, i) then forall i :: LastPartial(opts, i) ==> opts[i] == WithPartial(Params(opts).partial)
            else Params(opts).partial == map[]
  {
    if opts != [] {
      var init, last := opts[..|opts| - 1], |opts| - 1;
      PartialParam(init);
      if opts[last].WithPartial? {
        assert LastPartial(opts, last);
      } else {
        assert forall i :: LastPartial(opts, i) <==> LastPartial(init, i);
      }
    }
  }

  function Clamp(start: int, total: nat): nat {
    if start < 0 then 0 else if start > total then total else start
  }

  /** The size of a full page when `left` rows remain. */
  function Most(left: nat, rows: int): nat {
    if rows <= 0 then 0 else if left < rows then left else rows
  }

  /** A contiguous prefix of what remains from `start`: not empty when rows are asked for and some
      remain, no longer than asked. */
  predicate IsPage(results: seq<Row>, start: int, rows: int, full: bool, page: seq<Row>) {
    var lo := Clamp(start, |results|);
    var most := Most(|results| - lo, rows);
    && |page| <= most && page == results[lo..lo + |page|]
    && (most > 0 ==> |page| > 0)
    && (full ==> |page| == most)
  }

  /** A server with a stable result set.  `full` servers fill every page.  `calls` lists the calls of
      `Query` in order, each with its error if it had one, and `attempts` counts the HTTP requests
      they made. */
  class SearchService {
    const results: seq<Row>
    const full: bool
    const maxRetries: nat
    var calls: seq<Option<Failure>>
    var attempts: nat

    constructor (results: seq<Row>, full: bool, maxRetries: nat)
      ensures this.results == results && this.full == full && this.maxRetries == maxRetries
      ensures calls == [] && attempts == 0
    {
      this.results, this.full, this.maxRetries, calls, attempts := results, full, maxRetries, [], 0;
    }

    /** A projection is sent as a POST, which is never retried. */
    method Query(opts: seq<SearchOption>) returns (r: Result<SearchResult, Failure>)
      modifies this
      ensures calls == old(calls) + [ErrorOf(r)]
      ensures old(attempts) + 1 <= attempts <= old(attempts) + 1 + maxRetries
      ensures |Params(opts).partial| > 0 ==> attempts == old(attempts) + 1
      ensures r.Ok? ==> r.value.total == |results|
      ensures r.Ok? ==> IsPage(results, Params(opts).start, Params(opts).rows, full, r.value.rows)
    {
      var p := ApplyOptions(opts);
      var httpMethod := if |p.partial| > 0 then "POST" else "GET";
      var outcomes: nat -> Attempt := *;
      var a, made := DoRaw(outcomes, httpMethod, maxRetries);
      calls, attempts := calls + [a.err], attempts + made;
      if a.err.Some? {
        return Err(a.err.value);
      }
      var lo := Clamp(p.start, |results|);
      var most := Most(|results| - lo, p.rows);
      var n :| 0 <= n <= most && (most > 0 ==> n > 0) && (full ==> n == most);
      var page := results[lo..lo + n];
      return Ok(SearchResult(|results|, p.start, page));
    }

    /** With a non-negative start and a positive page size: all rows from the start on, in order,
        none lost or repeated; with full pages exactly the pages needed, though always one.  Whatever
        the options, it makes at most one call a row, and fails exactly when a call fails, with that
        call's error and no call after it. */
    method SearchAll(opts: seq<SearchOption>) returns (r: Result<seq<Row>, Failure>)
      modifies this
      ensures EndsWith(old(calls), calls, ErrorOf(r))
      ensures forall start, rows, partial :: AskFor(opts, start, rows, partial) ==>
                Answers(results, full, start, rows, r, |calls| - |old(calls)|)
                && attempts - old(attempts) <= (|calls| - |old(calls)|) * (1 + if partial == map[] then maxRetries else 0)
    {
      ParamsAskedFor(opts);
      r := Collect(opts);
    }

    /** The loop over the pages. */
    method Collect(opts: seq<SearchOption>) returns (r: Result<seq<Row>, Failure>)
      modifies this
      ensures EndsWith(old(calls), calls, ErrorOf(r))
      ensures var p, made := Params(opts), |calls| - |old(calls)|;
              && made <= Max(1, |results| - p.start)
              && (p.start >= 0 && p.rows > 0 && r.Ok? ==> r.value == results[Clamp(p.start, |results|)..])
              && (p.start >= 0 && p.rows > 0 && full ==>
                    var pages := Max(1, CeilDiv(|results| - p.start, p.rows));
                    if r.Ok? then made == pages else made <= pages)
      ensures attempts - old(attempts) <= (|calls| - |old(calls)|) * (1 + maxRetries)
      ensures |Params(opts).partial| > 0 ==> attempts - old(attempts) == |calls| - |old(calls)|
    {
      var p := ApplyOptions(opts);
      var all: seq<Row> := [];
      var offset := p.start;
      ghost var n := 0;
      while true
        invariant n == |calls| - |old(calls)| && n >= 0 && NoErrors(old(calls), calls)
        invariant Fetched(results, full, p, all, offset, n)
        invariant attempts - old(attempts) <= n * (1 + maxRetries)
        invariant |p.partial| > 0 ==> attempts - old(attempts) == n
        decreases |results| - offset, if n == 0 then 1 else 0
      {
        ParamsOfPage(offset, p.rows, p.partial);
        CallsLeft(results, full, p, all, offset, n);
        var res := Query([WithStart(offset), WithRows(p.rows), WithPartial(p.partial)]);
        OneMoreTime(n, 1 + maxRetries);
        n := n + 1;
        if res.Err? {
          return Err(res.error);
        }
        ghost var before, at := all, offset;
        all := all + res.value.rows;
        offset := offset + |res.value.rows|;
        if |res.value.rows| == 0 || offset >= res.value.total {
          if p.start >= 0 && p.rows > 0 {
            PageCompletes(results, full, p, before, at, n - 1, res.value.rows);
            if full {
              PageCount(|results|, p.start, at, p.rows, n - 1, |res.value.rows|);
            }
          }
          return Ok(all);
        }
        PageContinues(results, full, p, before, at, n - 1, res.value.rows);
      }
    }
  }

  /** What a search for all rows is to bring, with `made` calls. */
  ghost predicate Answers(results: seq<Row>, full: bool, start: int, rows: int, r: Result<seq<Row>, Failure>, made: int) {
    && made <= Max(1, |results| - start)
    && (start >= 0 && rows > 0 ==>
          && (r.Ok? ==> r.value == if start < |results| then results[start..] else [])
          && (full ==>
                var pages := Max(1, CeilDiv(|results| - start, rows));
                if r.Ok? then made == pages else made <= pages))
  }

  function ErrorOf<T>(r: Result<T, Failure>): Option<Failure> {
    if r.Err? then Some(r.error) else None
  }

  /** More calls were made, none with an error. */
  ghost predicate NoErrors(before: seq<Option<Failure>>, calls: seq<Option<Failure>>) {
    before <= calls && forall i :: |before| <= i < |calls| ==> calls[i].None?
  }

  /** More calls were made, the last with this outcome and none before it with an error. */
  ghost predicate EndsWith(before: seq<Option<Failure>>, calls: seq<Option<Failure>>, last: Option<Failure>) {
    |calls| > |before| && calls[|calls| - 1] == last && NoErrors(before, calls[..|calls| - 1])
  }

  /** One more call is within the bounds, whether or not it fails. */
  lemma CallsLeft(results: seq<Row>, full: bool, p: SearchParams, all: seq<Row>, offset: int, n: nat)
    requires Fetched(results, full, p, all, offset, n)
    ensures n + 1 <= Max(1, |results| - p.start)
    ensures p.start >= 0 && p.rows > 0 && full ==> n + 1 <= Max(1, CeilDiv(|results| - p.start, p.rows))
  {
    if p.start >= 0 && p.rows > 0 && full && n > 0 {
      PagesExceed(|results| - p.start, p.rows, n);
    }
  }

  /** More rows than `n` pages hold need another page. */
  lemma {:induction false} PagesExceed(left: int, rows: int, n: nat)
    requires rows > 0 && left > Times(n, rows)
    ensures CeilDiv(left, rows) > n
    decreases n
  {
    if n > 0 {
      PagesExceed(left - rows, rows, n - 1);
    } else {
      assert left > 0;
    }
  }

  lemma OneMoreTime(n: nat, k: nat)
    ensures (n + 1) * k == n * k + k
  {
  }

  function Times(n: nat, rows: int): int {
    if n == 0 then 0 else Times(n - 1, rows) + rows
  }

  /** What the first `n` pages brought. */
  ghost predicate Fetched(results: seq<Row>, full: bool, p: SearchParams, all: seq<Row>, offset: int, n: nat) {
    && |all| == offset - p.start && n <= |all|
    && (n > 0 ==> offset < |results|)
    && (p.start >= 0 && p.rows > 0 ==>
          && all == results[Clamp(p.start, |results|)..Clamp(offset, |results|)]
          && (full ==> |all| == Times(n, p.rows)))
  }

  /** One more page continues the rows fetched. */
  lemma PageContinues(results: seq<Row>, full: bool, p: SearchParams, all: seq<Row>, offset: int, n: nat, page: seq<Row>)
    requires Fetched(results, full, p, all, offset, n) && IsPage(results, offset, p.rows, full, page)
    requires |page| > 0 && offset + |page| < |results|
    ensures Fetched(results, full, p, all + page, offset + |page|, n + 1)
  {
    if p.start >= 0 && p.rows > 0 {
      PageRows(results, p.start, offset, all, page);
      if full {
        PageCount(|results|, p.start, offset, p.rows, n, |page|);
      }
    }
  }

  /** The last page completes them. */
  lemma PageCompletes(results: seq<Row>, full: bool, p: SearchParams, all: seq<Row>, offset: int, n: nat, page: seq<Row>)
    requires Fetched(results, full, p, all, offset, n) && IsPage(results, offset, p.rows, full, page)
    requires |page| == 0 || offset + |page| >= |results|
    requires p.start >= 0 && p.rows > 0
    ensures all + page == results[Clamp(p.start, |results|)..]
    ensures n + 1 <= Max(1, |results| - p.start)
  {
    PageRows(results, p.start, offset, all, page);
  }

  lemma PageRows(results: seq<Row>, start: nat, offset: nat, all: seq<Row>, page: seq<Row>)
    requires start <= offset && all == results[Clamp(start, |results|)..Clamp(offset, |results|)]
    requires Clamp(offset, |results|) + |page| <= |results|
    requires page == results[Clamp(offset, |results|)..Clamp(offset, |results|) + |page|]
    requires offset > |results| ==> page == []
    ensures all + page == results[Clamp(start, |results|)..Clamp(offset + |page|, |results|)]
  {
  }

  /** With full pages, `n` of them before this one. */
  lemma PageCount(total: nat, start: nat, offset: int, rows: int, n: nat, got: nat)
    requires rows > 0 && offset >= start && offset == start + Times(n, rows) && (n > 0 ==> offset < total)
    requires got == Most(total - Clamp(offset, total), rows)
    ensures got > 0 && offset + got < total ==> offset + got == start + Times(n + 1, rows)
    ensures got == 0 || offset + got >= total ==> n + 1 == Max(1, CeilDiv(total - start, rows))
  {
    assert Times(n + 1, rows) == Times(n, rows) + rows;
    if start < total && (got == 0 || offset + got >= total) {
      PagesNeeded(total - start, rows, n + 1);
    }
  }

  function Max(a: int, b: int): int {
    if a > b then a else b
  }

  /** The number of pages of size `rows` that hold `n` rows. */
  function CeilDiv(n: int, rows: int): nat
    requires rows > 0
    decreases n
  {
    if n <= 0 then 0 else 1 + CeilDiv(n - rows, rows)
  }

  lemma {:induction false} PagesNeeded(left: int, rows: int, k: nat)
    requires rows > 0 && k > 0 && Times(k - 1, rows) < left <= Times(k, rows)
    ensures CeilDiv(left, rows) == k
    decreases k
  {
    if k > 1 {
      PagesNeeded(left - rows, rows, k - 1);
    } else {
      assert CeilDiv(left - rows, rows) == 0;
    }
  }

  lemma ParamsOfPage(offset: int, rows: int, partial: map<string, seq<string>>)
    ensures Params([WithStart(offset), WithRows(rows), WithPartial(partial)]) == SearchParams(offset, rows, partial)
  {
    ParamsSnoc([], WithStart(offset));
    ParamsSnoc([WithStart(offset)], WithRows(rows));
    ParamsSnoc([WithStart(offset), WithRows(rows)], WithPartial(partial));
    assert [WithStart(offset), WithRows(rows)] + [WithPartial(partial)]
        == [WithStart(offset), WithRows(rows), WithPartial(partial)];
  }

  lemma ParamsSnoc(opts: seq<SearchOption>, o: SearchOption)
    ensures Params(opts + [o]) == Apply(Params(opts), o)
  {
    assert (opts + [o])[..|opts|] == opts;
  }
}
