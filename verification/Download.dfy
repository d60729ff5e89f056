/** Cookbook download, and its round trip with upload. */
module Download {
  import opened Wrappers
  import opened Bytes
  import opened Strings
  import opened Paths
  import opened Chefignore
  import opened CookbookDir
  import opened World
  import opened Transfers
  import opened Cookbooks

  /** Where a manifest path is written: `None` for a path that leaves the destination directory. */
  type Resolver = string -> Option<string>

  datatype DownloadError = NoManifest | UnsafePath(path: string) | FetchFailed | FetchCanceled

  datatype DownloadRun = DownloadRun(got: Event, transfer: Transfer)

  /** AllFiles */
  method AllFiles(cb: Cookbook) returns (all: seq<RemoteRef>)
    ensures all == Flatten(cb)
  {
    all := cb.allFilesManifest;
    var segments := [cb.files, cb.definitions, cb.libraries, cb.attributes, cb.recipes,
                     cb.providers, cb.resources, cb.rootFiles, cb.templates];
    for i := 0 to |segments|
      invariant all == cb.allFilesManifest + Concat(segments[..i])
    {
      ConcatSnoc(segments[..i], segments[i]);
      assert segments[..i + 1] == segments[..i] + [segments[i]];
      all := all + segments[i];
    }
    assert segments[..|segments|] == segments;
    NineSegments(cb, segments);
  }

  lemma NineSegments(cb: Cookbook, segments: seq<seq<RemoteRef>>)
    requires segments == [cb.files, cb.definitions, cb.libraries, cb.attributes, cb.recipes,
                          cb.providers, cb.resources, cb.rootFiles, cb.templates]
    ensures cb.allFilesManifest + Concat(segments) == Flatten(cb)
  {
    var a := [cb.files, cb.definitions, cb.libraries];
    var b := [cb.attributes, cb.recipes, cb.providers];
    var c := [cb.resources, cb.rootFiles, cb.templates];
    assert segments == (a + b) + c;
    ConcatAppend(a + b, c);
    ConcatAppend(a, b);
    ConcatThree(cb.files, cb.definitions, cb.libraries);
    ConcatThree(cb.attributes, cb.recipes, cb.providers);
    ConcatThree(cb.resources, cb.rootFiles, cb.templates);
  }

  lemma ConcatThree(x: seq<RemoteRef>, y: seq<RemoteRef>, z: seq<RemoteRef>)
    ensures Concat([x, y, z]) == x + y + z
  {
    ConcatSnoc([], x);
    ConcatSnoc([x], y);
    ConcatSnoc([x, y], z);
    assert [x] + [y] == [x, y] && [x, y] + [z] == [x, y, z] && [] + [x] == [x];
  }

  /** The downloads to make, or the first path that is not safe. */
  function PlanOf(refs: seq<RemoteRef>, resolve: Resolver): Result<seq<Job>, string> {
    if refs == [] then Ok([])
    else
      var init, last := PlanOf(refs[..|refs| - 1], resolve), refs[|refs| - 1];
      if init.Err? then init
      else
        var dest := resolve(last.ref.path);
        if dest.None? then Err(last.ref.path)
        else Ok(init.value + [DownloadJob(last.url, dest.value, last.ref.path)])
  }

  /** The path reported is the first one, in the order of the references, that is not safe. */
  lemma {:induction false} FirstUnsafe(refs: seq<RemoteRef>, resolve: Resolver) returns (i: nat)
    requires PlanOf(refs, resolve).Err?
    ensures i < |refs| && resolve(refs[i].ref.path).None? && PlanOf(refs, resolve).error == refs[i].ref.path
    ensures forall j :: 0 <= j < i ==> resolve(refs[j].ref.path).Some?
  {
    var n := |refs| - 1;
    if PlanOf(refs[..n], resolve).Err? {
      i := FirstUnsafe(refs[..n], resolve);
    } else {
      i := n;
      PlanMeans(refs[..n], resolve);
      forall j | 0 <= j < n ensures resolve(refs[j].ref.path).Some? {
        assert refs[..n][j] in refs[..n];
      }
    }
  }

  ghost predicate JobFor(resolve: Resolver, r: RemoteRef, job: Job) {
    resolve(r.ref.path).Some? && job == DownloadJob(r.url, resolve(r.ref.path).value, r.ref.path)
  }

  lemma {:induction false} PlanMeans(refs: seq<RemoteRef>, resolve: Resolver)
    ensures PlanOf(refs, resolve).Ok? <==> forall r :: r in refs ==> resolve(r.ref.path).Some?
    ensures PlanOf(refs, resolve).Ok? ==>
              && |PlanOf(refs, resolve).value| == |refs|
              && forall i :: 0 <= i < |refs| ==> JobFor(resolve, refs[i], PlanOf(refs, resolve).value[i])
  {
    if refs != [] {
      var init, last := refs[..|refs| - 1], refs[|refs| - 1];
      PlanMeans(init, resolve);
      assert refs == init + [last] && last in refs;
      assert forall r :: r in refs <==> r in init || r == last;
    }
  }

  /** The whole plan is checked before anything is fetched or written. */
  ghost predicate DownloadOk(key: Key, resolve: Resolver, run: DownloadRun, err: Option<DownloadError>) {
    && run.got.ManifestGot? && run.got.key == key
    && if run.got.manifestReply.None? then
         run.transfer == Transfer([], [], false) && err == Some(NoManifest)
       else
         var plan := PlanOf(Flatten(run.got.manifestReply.value), resolve);
         if plan.Err? then run.transfer == Transfer([], [], false) && err == Some(UnsafePath(plan.error))
         else
           && RequestsOf(plan.value, run.transfer)
           && err == if Complete(plan.value, run.transfer) then None
                     else Some(if SomeFailed(run.transfer) then FetchFailed else FetchCanceled)
  }

  method Plan(refs: seq<RemoteRef>, resolve: Resolver) returns (plan: Result<seq<Job>, string>)
    ensures plan == PlanOf(refs, resolve)
  {
    var jobs: seq<Job> := [];
    for i := 0 to |refs|
      invariant PlanOf(refs[..i], resolve) == Ok(jobs)
    {
      assert refs[..i + 1][..i] == refs[..i];
      var dest := resolve(refs[i].ref.path);
      if dest.None? {
        PlanStops(refs, resolve, i + 1);
        return Err(refs[i].ref.path);
      }
      jobs := jobs + [DownloadJob(refs[i].url, dest.value, refs[i].ref.path)];
    }
    assert refs[..|refs|] == refs;
    return Ok(jobs);
  }

  /** An unsafe path is not forgotten. */
  lemma {:induction false} PlanStops(refs: seq<RemoteRef>, resolve: Resolver, n: nat)
    requires n <= |refs| && PlanOf(refs[..n], resolve).Err?
    ensures PlanOf(refs, resolve) == PlanOf(refs[..n], resolve)
  {
    if n == |refs| {
      assert refs[..n] == refs;
    } else {
      assert refs[..|refs| - 1][..n] == refs[..n];
      PlanStops(refs[..|refs| - 1], resolve, n);
    }
  }

  /** CookbooksService.Download */
  method DownloadCookbook(w: Remote, name: string, version: string, resolve: Resolver)
    returns (err: Option<DownloadError>, ghost run: DownloadRun)
    modifies w
    ensures DownloadOk(Key("/cookbooks", name, version), resolve, run, err)
    ensures w.state == AfterAll(old(w.state), [run.got] + run.transfer.events)
    ensures 1 <= w.attempts - old(w.attempts) - |run.transfer.events| <= 1 + w.maxRetries
  {
    ghost var s := w.state;
    var reply, got := w.GetManifest(Key("/cookbooks", name, version));
    run := DownloadRun(got, Transfer([], [], false));
    AfterGot(s, got, []);
    if reply.None? {
      return Some(NoManifest), run;
    }
    var refs := AllFiles(reply.value);
    var plan := Plan(refs, resolve);
    if plan.Err? {
      return Some(UnsafePath(plan.error)), run;
    }
    var r, transfer := ParallelForEach(w, plan.value);
    run := DownloadRun(got, transfer);
    AfterGot(s, got, transfer.events);
    err := if r.Nil? then None else Some(if r.FnError? then FetchFailed else FetchCanceled);
  }

  lemma AfterGot(s: State, got: Event, events: seq<Event>)
    ensures AfterAll(s, [got] + events) == AfterAll(After(s, got), events)
    ensures AfterAll(After(s, got), []) == After(s, got)
  {
    assert ([got] + events)[1..] == events;
  }

  // ---------------------------------------------------------------------------
  // What a download writes

  /** The contents that belong at each destination. */
  ghost predicate GoodGets(want: map<string, Bytes>, events: seq<Event>) {
    forall e :: e in events ==> e.FileGot? && e.dest in want && e.written == Some(want[e.dest])
  }

  ghost predicate Reaches(events: seq<Event>, dest: string) {
    exists e :: e in events && e.FileGot? && e.dest == dest
  }

  lemma {:induction false} GoodGetsWrite(s: State, want: map<string, Bytes>, events: seq<Event>)
    requires GoodGets(want, events)
    ensures var t := AfterAll(s, events);
            && t == s.(disk := t.disk)
            && (forall d :: d in t.disk <==> d in s.disk || Reaches(events, d))
            && (forall d :: d in t.disk ==>
                  t.disk[d] == if Reaches(events, d) then want[d] else s.disk[d])
    decreases |events|
  {
    if events != [] {
      assert events[0] in events;
      assert forall e :: e in events <==> e == events[0] || e in events[1..];
      assert forall d :: Reaches(events, d) <==> d == events[0].dest || Reaches(events[1..], d);
      GoodGetsWrite(After(s, events[0]), want, events[1..]);
    }
  }

  /** Whatever happens, only planned destinations are written. */
  lemma {:induction false} GetsTouch(s: State, events: seq<Event>)
    requires forall e :: e in events ==> e.FileGot?
    ensures var t := AfterAll(s, events);
            && t == s.(disk := t.disk)
            && forall d :: !Reaches(events, d) ==>
                 (d in t.disk <==> d in s.disk) && (d in s.disk ==> t.disk[d] == s.disk[d])
    decreases |events|
  {
    if events != [] {
      assert events[0] in events;
      assert forall e :: e in events <==> e == events[0] || e in events[1..];
      assert forall d :: Reaches(events, d) <==> d == events[0].dest || Reaches(events[1..], d);
      GetsTouch(After(s, events[0]), events[1..]);
    }
  }

  /** The file fetched for a reference. */
  ghost predicate GotFor(resolve: Resolver, r: RemoteRef, e: Event) {
    e.FileGot? && e.url == r.url && resolve(r.ref.path) == Some(e.dest)
  }

  /** Every file fetched is that of a reference. */
  lemma FetchedFor(key: Key, resolve: Resolver, run: DownloadRun, err: Option<DownloadError>)
    requires DownloadOk(key, resolve, run, err) && run.got.manifestReply.Some?
    ensures forall e :: e in run.transfer.events ==>
              exists r :: r in Flatten(run.got.manifestReply.value) && GotFor(resolve, r, e)
    ensures err.None? ==> forall e :: e in run.transfer.events ==> e.FileGot? && e.ok
  {
    var refs, t := Flatten(run.got.manifestReply.value), run.transfer;
    PlanMeans(refs, resolve);
    if PlanOf(refs, resolve).Ok? {
      var plan := PlanOf(refs, resolve).value;
      forall e | e in t.events
        ensures exists r :: r in refs && GotFor(resolve, r, e)
        ensures err.None? ==> e.FileGot? && e.ok
      {
        var k :| 0 <= k < |t.events| && t.events[k] == e;
        assert EventFor(plan[t.sent[k]], e, Succeeded(e));
        assert JobFor(resolve, refs[t.sent[k]], plan[t.sent[k]]);
        assert refs[t.sent[k]] in refs && GotFor(resolve, refs[t.sent[k]], e);
      }
    }
  }

  /** In a successful download every reference's file is fetched. */
  lemma RefFetched(key: Key, resolve: Resolver, run: DownloadRun, r: RemoteRef) returns (e: Event)
    requires DownloadOk(key, resolve, run, None) && r in Flatten(run.got.manifestReply.value)
    ensures e in run.transfer.events && GotFor(resolve, r, e)
  {
    var refs, t := Flatten(run.got.manifestReply.value), run.transfer;
    PlanMeans(refs, resolve);
    var plan := PlanOf(refs, resolve).value;
    var i :| 0 <= i < |refs| && refs[i] == r;
    assert i in t.sent;
    var k :| 0 <= k < |t.sent| && t.sent[k] == i;
    e := t.events[k];
    assert EventFor(plan[i], e, Succeeded(e)) && JobFor(resolve, r, plan[i]);
  }

  ghost predicate SameAt(s: State, t: State, d: string) {
    (d in t.disk <==> d in s.disk) && (d in s.disk ==> t.disk[d] == s.disk[d])
  }

  /** A download, even a failing one, writes nowhere but where the manifest's paths resolve to. */
  lemma DownloadStaysInside(s: State, key: Key, resolve: Resolver, run: DownloadRun, err: Option<DownloadError>, d: string)
    requires DownloadOk(key, resolve, run, err) && run.got.manifestReply.Some?
    ensures SameAt(s, AfterAll(s, [run.got] + run.transfer.events), d)
            || exists r :: r in Flatten(run.got.manifestReply.value) && resolve(r.ref.path) == Some(d)
  {
    var events := run.transfer.events;
    AfterGot(s, run.got, events);
    FetchedFor(key, resolve, run, err);
    GetsTouch(After(s, run.got), events);
    if Reaches(events, d) {
      var e :| e in events && e.FileGot? && e.dest == d;
      var r :| r in Flatten(run.got.manifestReply.value) && GotFor(resolve, r, e);
    }
  }

  /** When any path of the manifest is unsafe, nothing is fetched or written at all. */
  lemma UnsafePathStopsEverything(s: State, key: Key, resolve: Resolver, run: DownloadRun, err: Option<DownloadError>,
                                  r: RemoteRef)
    requires DownloadOk(key, resolve, run, err) && run.got.manifestReply.Some?
    requires r in Flatten(run.got.manifestReply.value) && resolve(r.ref.path).None?
    ensures run.transfer.events == [] && err.Some? && err.value.UnsafePath?
    ensures AfterAll(s, [run.got] + run.transfer.events).disk == s.disk
  {
    PlanMeans(Flatten(run.got.manifestReply.value), resolve);
    AfterGot(s, run.got, []);
  }

  /** `want` is what the cookbook's files are on disk. */
  ghost predicate Rebuilds(want: map<string, Bytes>, files: seq<CookbookFile>, resolve: Resolver) {
    && (forall f :: f in files ==>
          resolve(f.name).Some? && resolve(f.name).value in want && want[resolve(f.name).value] == f.content)
    && (forall d :: d in want ==> exists f :: f in files && resolve(f.name) == Some(d))
  }

  /** Distinct paths that resolve to distinct places can be rebuilt; an uploadable cookbook read from
      a directory has distinct clean paths. */
  lemma Rebuildable(files: seq<CookbookFile>, resolve: Resolver) returns (want: map<string, Bytes>)
    requires forall i, j :: 0 <= i < j < |files| ==> files[i].name != files[j].name
    requires forall f :: f in files ==> resolve(f.name).Some?
    requires forall f, g :: f in files && g in files && resolve(f.name) == resolve(g.name) ==> f.name == g.name
    ensures Rebuilds(want, files, resolve)
  {
    want := map f | f in files :: resolve(f.name).value := f.content;
    forall f | f in files ensures resolve(f.name).value in want && want[resolve(f.name).value] == f.content {
    }
  }

  /** The server holds the cookbook: its manifest under the key, and each file's content. */
  ghost predicate Holds(s: State, key: Key, cb: Plain) {
    && key in s.manifests && s.manifests[key] == ManifestOf(cb)
    && forall f :: f in cb.files ==> f.checksum in s.store && s.store[f.checksum] == f.content
  }

  /** Honest replies do not change while files are fetched. */
  lemma {:induction false} HonestGets(s: State, events: seq<Event>)
    requires Truthful(s, events) && forall e :: e in events ==> e.FileGot?
    ensures forall e :: e in events && e.ok ==>
              e.url in s.sources && s.sources[e.url] in s.store && e.written == Some(s.store[s.sources[e.url]])
    decreases |events|
  {
    if events != [] {
      assert events[0] in events;
      assert forall e :: e in events <==> e == events[0] || e in events[1..];
      HonestGets(After(s, events[0]), events[1..]);
    }
  }

  lemma FileOfRef(files: seq<CookbookFile>, ref: FileRef) returns (f: CookbookFile)
    requires ref in RefsOf(files)
    ensures f in files && ref == RefOf(f)
  {
    var i :| 0 <= i < |files| && RefOf(files[i]) == ref;
    f := files[i];
  }

  lemma RefInRefs(files: seq<CookbookFile>, f: CookbookFile)
    requires f in files
    ensures RefOf(f) in RefsOf(files)
  {
    var i :| 0 <= i < |files| && files[i] == f;
    assert RefsOf(files)[i] == RefOf(f);
  }

  /** A reference of an honest reply is that of a file, and its URL serves the file's checksum. */
  lemma HonestRef(s: State, key: Key, cb: Plain, got: Event, r: RemoteRef) returns (f: CookbookFile)
    requires Holds(s, key, cb) && got.ManifestGot? && got.key == key && got.manifestReply.Some? && Honest(s, got)
    requires r in Flatten(got.manifestReply.value)
    ensures f in cb.files && r.ref == RefOf(f)
    ensures r.url in got.sources && got.sources[r.url] == f.checksum
  {
    f := FileOfRef(cb.files, r.ref);
  }

  lemma RefOfFile(s: State, key: Key, cb: Plain, got: Event, f: CookbookFile) returns (r: RemoteRef)
    requires Holds(s, key, cb) && got.ManifestGot? && got.key == key && got.manifestReply.Some? && Honest(s, got)
    requires f in cb.files
    ensures r in Flatten(got.manifestReply.value) && r.ref == RefOf(f)
  {
    RefInRefs(cb.files, f);
    r :| r in Flatten(got.manifestReply.value) && r.ref == RefOf(f);
  }

  /** Each request of a successful download of a held cookbook writes the right content. */
  lemma DownloadIsRight(s: State, key: Key, cb: Plain, resolve: Resolver, run: DownloadRun, want: map<string, Bytes>)
    requires Holds(s, key, cb) && Rebuilds(want, cb.files, resolve)
    requires DownloadOk(key, resolve, run, None) && Truthful(s, [run.got] + run.transfer.events)
    ensures GoodGets(want, run.transfer.events)
  {
    var u, events := After(s, run.got), run.transfer.events;
    assert ([run.got] + events)[1..] == events && ([run.got] + events)[0] == run.got;
    FetchedFor(key, resolve, run, None);
    HonestGets(u, events);
    forall e | e in events ensures e.dest in want && e.written == Some(want[e.dest]) {
      var r :| r in Flatten(run.got.manifestReply.value) && GotFor(resolve, r, e);
      var f := HonestRef(s, key, cb, run.got, r);
    }
  }

  /** Downloading a held cookbook writes exactly its files. */
  lemma DownloadRebuilds(s: State, key: Key, cb: Plain, resolve: Resolver, run: DownloadRun, want: map<string, Bytes>)
    requires Holds(s, key, cb) && Rebuilds(want, cb.files, resolve)
    requires DownloadOk(key, resolve, run, None) && Truthful(s, [run.got] + run.transfer.events)
    ensures AfterAll(s, [run.got] + run.transfer.events).disk == s.disk + want
  {
    var events := run.transfer.events;
    DownloadIsRight(s, key, cb, resolve, run, want);
    AfterGot(s, run.got, events);
    GoodGetsWrite(After(s, run.got), want, events);
    AllReached(s, key, cb, resolve, run, want);
    WrittenEverywhere(After(s, run.got), AfterAll(After(s, run.got), events), want, events);
  }

  lemma WrittenEverywhere(s: State, t: State, want: map<string, Bytes>, events: seq<Event>)
    requires GoodGets(want, events) && forall d :: d in want ==> Reaches(events, d)
    requires forall d :: d in t.disk <==> d in s.disk || Reaches(events, d)
    requires forall d :: d in t.disk ==> t.disk[d] == if Reaches(events, d) then want[d] else s.disk[d]
    ensures t.disk == s.disk + want
  {
  }

  lemma AllReached(s: State, key: Key, cb: Plain, resolve: Resolver, run: DownloadRun, want: map<string, Bytes>)
    requires Holds(s, key, cb) && Rebuilds(want, cb.files, resolve)
    requires DownloadOk(key, resolve, run, None) && Honest(s, run.got)
    ensures forall d :: d in want ==> Reaches(run.transfer.events, d)
  {
    forall d | d in want ensures Reaches(run.transfer.events, d) {
      var f :| f in cb.files && resolve(f.name) == Some(d);
      var r := RefOfFile(s, key, cb, run.got, f);
      var e := RefFetched(key, resolve, run, r);
    }
  }

  // ---------------------------------------------------------------------------
  // Upload, then download

  /** After a successful upload the server holds the cookbook, and keeps holding it through any
      further safe requests that leave its manifest alone. */
  lemma UploadHolds(md5Hex: Digest, pool: iset<Bytes>, s: State, base: string, cb: Plain, up: UploadRun,
                    between: seq<Event>)
    requires CollisionFree(md5Hex, pool) && Safe(md5Hex, pool, s) && Uploadable(md5Hex, pool, cb)
    requires UploadOk(base, cb, up, None) && Truthful(s, EventsOf(up))
    requires var t := AfterAll(s, EventsOf(up));
             && Guarded(md5Hex, pool, t, between)
             && KeyOf(base, cb) in AfterAll(t, between).manifests
             && AfterAll(t, between).manifests[KeyOf(base, cb)] == ManifestOf(cb)
    ensures Holds(AfterAll(AfterAll(s, EventsOf(up)), between), KeyOf(base, cb), cb)
  {
    var t := AfterAll(s, EventsOf(up));
    UploadIsGuarded(md5Hex, pool, s, base, cb, up, None);
    GuardedKeepsSafe(md5Hex, pool, s, EventsOf(up), |EventsOf(up)|);
    assert EventsOf(up)[..|EventsOf(up)|] == EventsOf(up);
    GuardedKeepsSafe(md5Hex, pool, t, between, |between|);
    assert between[..|between|] == between;
    var u := AfterAll(t, between);
    forall f | f in cb.files ensures f.checksum in u.store && u.store[f.checksum] == f.content {
      assert f.checksum in Checksums(cb.files) && f.checksum in t.store.Keys;
    }
  }

  /** Upload then download is the identity on files, although files with equal contents were sent
      once, whatever the interleavings, and whatever other safe requests come in between. */
  lemma UploadThenDownload(md5Hex: Digest, pool: iset<Bytes>, s: State, base: string, cb: Plain, up: UploadRun,
                           between: seq<Event>, resolve: Resolver, down: DownloadRun, want: map<string, Bytes>)
    requires CollisionFree(md5Hex, pool) && Safe(md5Hex, pool, s) && Uploadable(md5Hex, pool, cb)
    requires UploadOk(base, cb, up, None) && Truthful(s, EventsOf(up))
    requires var t := AfterAll(s, EventsOf(up));
             && Guarded(md5Hex, pool, t, between)
             && KeyOf(base, cb) in AfterAll(t, between).manifests
             && AfterAll(t, between).manifests[KeyOf(base, cb)] == ManifestOf(cb)
    requires var u := AfterAll(AfterAll(s, EventsOf(up)), between);
             DownloadOk(KeyOf(base, cb), resolve, down, None) && Truthful(u, [down.got] + down.transfer.events)
    requires Rebuilds(want, cb.files, resolve)
    ensures var u := AfterAll(AfterAll(s, EventsOf(up)), between);
            AfterAll(u, [down.got] + down.transfer.events).disk == u.disk + want
  {
    UploadHolds(md5Hex, pool, s, base, cb, up, between);
    DownloadRebuilds(AfterAll(AfterAll(s, EventsOf(up)), between), KeyOf(base, cb), cb, resolve, down, want);
  }

  // ---------------------------------------------------------------------------
  // From a directory to a directory

  /** Every clean path has its own place. */
  ghost predicate Injective(resolve: Resolver) {
    && (forall p :: Names(Split(p, '/')) ==> resolve(p).Some?)
    && (forall p, q :: Names(Split(p, '/')) && Names(Split(q, '/')) && resolve(p) == resolve(q) ==> p == q)
  }

  /** `want` holds every readable file of the tree that is not ignored at its place, and nothing else. */
  ghost predicate Mirrors(env: Env, patterns: seq<string>, root: Node, resolve: Resolver, want: map<string, Bytes>) {
    && (forall v :: KeptFile(env, patterns, root, v) ==>
          resolve(v.rel).Some? && resolve(v.rel).value in want && want[resolve(v.rel).value] == v.found.bytes)
    && (forall d :: d in want ==> exists v :: KeptFile(env, patterns, root, v) && resolve(v.rel) == Some(d))
  }

  /** The files of a directory can be rebuilt, and they mirror the directory. */
  lemma DirectoryRebuilds(env: Env, patterns: seq<string>, root: Node, resolve: Resolver) returns (want: map<string, Bytes>)
    requires root.Directory? && WellNamed(root) && FlatCookbook(env, patterns, root).Ok? && Injective(resolve)
    ensures Rebuilds(want, FlatCookbook(env, patterns, root).value, resolve)
    ensures Mirrors(env, patterns, root, resolve, want)
  {
    var files := FlatCookbook(env, patterns, root).value;
    FlatCookbookIsReady(env, patterns, root);
    want := Rebuildable(files, resolve);
    forall v | KeptFile(env, patterns, root, v)
      ensures resolve(v.rel).Some? && resolve(v.rel).value in want && want[resolve(v.rel).value] == v.found.bytes
    {
      assert FileOf(env, v.rel, v.found.bytes) in files;
    }
    forall d | d in want ensures exists v :: KeptFile(env, patterns, root, v) && resolve(v.rel) == Some(d) {
      var f :| f in files && resolve(f.name) == Some(d);
      var v :| v in Listing(".", root) && !Ignored(patterns, env.matches, v.rel)
        && v.found.Content? && f == FileOf(env, v.rel, v.found.bytes);
      assert KeptFile(env, patterns, root, v);
    }
  }

  /** From one disk to another: a directory read into a cookbook, uploaded and downloaded again puts
      every readable file that is not ignored in its place with its content, and changes nothing else
      on disk, whatever the interleavings and whatever other safe requests come in between. */
  lemma DirectoryRoundTrip(pool: iset<Bytes>, env: Env, patterns: seq<string>, root: Node, s: State, base: string,
                           cb: Plain, up: UploadRun, between: seq<Event>, resolve: Resolver, down: DownloadRun)
    returns (want: map<string, Bytes>)
    requires root.Directory? && WellNamed(root) && FlatCookbook(env, patterns, root).Ok?
    requires cb.files == FlatCookbook(env, patterns, root).value && Injective(resolve)
    requires CollisionFree(env.md5Hex, pool) && Safe(env.md5Hex, pool, s) && forall f :: f in cb.files ==> f.content in pool
    requires UploadOk(base, cb, up, None) && Truthful(s, EventsOf(up))
    requires var t := AfterAll(s, EventsOf(up));
             && Guarded(env.md5Hex, pool, t, between)
             && KeyOf(base, cb) in AfterAll(t, between).manifests
             && AfterAll(t, between).manifests[KeyOf(base, cb)] == ManifestOf(cb)
    requires var u := AfterAll(AfterAll(s, EventsOf(up)), between);
             DownloadOk(KeyOf(base, cb), resolve, down, None) && Truthful(u, [down.got] + down.transfer.events)
    ensures Mirrors(env, patterns, root, resolve, want)
    ensures var u := AfterAll(AfterAll(s, EventsOf(up)), between);
            AfterAll(u, [down.got] + down.transfer.events).disk == u.disk + want
  {
    FlatCookbookIsReady(env, patterns, root);
    want := DirectoryRebuilds(env, patterns, root, resolve);
    UploadThenDownload(env.md5Hex, pool, s, base, cb, up, between, resolve, down, want);
  }
}
