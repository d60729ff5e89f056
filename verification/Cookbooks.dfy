/** Cookbook upload: sandbox, deduplicated parallel file PUTs, commit, manifest. */
module Cookbooks {
  import opened Wrappers
  import opened Bytes
  import opened CookbookDir
  import Paths
  import opened World
  import opened Transfers

  /** The value of a LocalCookbook. */
  datatype Plain = Plain(name: string, version: string, identifier: string, files: seq<CookbookFile>)

  function Value(cb: LocalCookbook): Plain
    reads cb
  {
    Plain(cb.name, cb.version, cb.identifier, cb.files)
  }

  function Checksums(files: seq<CookbookFile>): set<string> {
    set f | f in files :: f.checksum
  }

  // ---------------------------------------------------------------------------
  // The manifest

  function RefOf(f: CookbookFile): FileRef {
    FileRef(Paths.Base(f.name), f.name, f.checksum, "default")
  }

  function RefsOf(files: seq<CookbookFile>): seq<FileRef> {
    seq(|files|, i requires 0 <= i < |files| => RefOf(files[i]))
  }

  function ManifestOf(cb: Plain): Manifest {
    if cb.identifier != "" then
      Manifest(cb.name, cb.name, None, Some(cb.identifier), RefsOf(cb.files), "cookbook_artifact_version")
    else
      Manifest(cb.name, cb.name + "-" + cb.version, Some(cb.version), None, RefsOf(cb.files), "cookbook_version")
  }

  function KeyOf(base: string, cb: Plain): Key {
    Key(base, cb.name, if cb.identifier != "" then cb.identifier else cb.version)
  }

  method CookbookManifest(cb: LocalCookbook) returns (m: Manifest)
    ensures m == ManifestOf(Value(cb))
  {
    var all: seq<FileRef> := [];
    for i := 0 to |cb.files|
      invariant all == RefsOf(cb.files[..i])
    {
      var f := cb.files[i];
      all := all + [FileRef(Paths.Base(f.name), f.name, f.checksum, "default")];
    }
    assert cb.files[..|cb.files|] == cb.files;
    if cb.identifier != "" {
      return Manifest(cb.name, cb.name, None, Some(cb.identifier), all, "cookbook_artifact_version");
    }
    return Manifest(cb.name, cb.name + "-" + cb.version, Some(cb.version), None, all, "cookbook_version");
  }

  // ---------------------------------------------------------------------------
  // The files to send

  predicate Needs(sb: Sandbox, h: string) {
    h in sb.checksums && sb.checksums[h].needsUpload
  }

  /** One job for each checksum the server needs, with the first file that has it. */
  function NeededJobs(files: seq<CookbookFile>, sb: Sandbox): seq<Job> {
    if files == [] then []
    else
      var init, f := files[..|files| - 1], files[|files| - 1];
      var jobs := NeededJobs(init, sb);
      if Needs(sb, f.checksum) && f.checksum !in Checksums(init) then
        jobs + [UploadJob(sb.checksums[f.checksum].url, f.name, f.content)]
      else jobs
  }

  method CollectJobs(files: seq<CookbookFile>, sb: Sandbox) returns (jobs: seq<Job>)
    ensures jobs == NeededJobs(files, sb)
  {
    var seen: set<string> := {};
    jobs := [];
    for i := 0 to |files|
      invariant jobs == NeededJobs(files[..i], sb)
      invariant forall h :: h in seen <==> Needs(sb, h) && h in Checksums(files[..i])
    {
      var f := files[i];
      assert files[..i + 1][..i] == files[..i];
      ChecksumsSnoc(files[..i], f);
      assert files[..i + 1] == files[..i] + [f];
      if f.checksum !in sb.checksums || !sb.checksums[f.checksum].needsUpload || f.checksum in seen {
        continue;
      }
      seen := seen + {f.checksum};
      jobs := jobs + [UploadJob(sb.checksums[f.checksum].url, f.name, f.content)];
    }
    assert files[..|files|] == files;
  }

  lemma ChecksumsSnoc(files: seq<CookbookFile>, f: CookbookFile)
    ensures Checksums(files + [f]) == Checksums(files) + {f.checksum}
  {
    assert f in files + [f];
    assert forall g :: g in files + [f] <==> g in files || g == f;
  }

  ghost predicate Digested(md5Hex: Digest, files: seq<CookbookFile>) {
    forall f :: f in files ==> f.checksum == md5Hex(f.content)
  }

  /** A job sends, to the URL signed for its checksum, the content of a file with that checksum. */
  ghost predicate JobOk(md5Hex: Digest, files: seq<CookbookFile>, sb: Sandbox, job: Job) {
    && job.UploadJob?
    && Needs(sb, md5Hex(job.content)) && job.url == sb.checksums[md5Hex(job.content)].url
    && exists f :: f in files && f.content == job.content && f.name == job.name
  }

  function JobDigest(md5Hex: Digest, job: Job): string {
    if job.UploadJob? then md5Hex(job.content) else ""
  }

  ghost predicate DistinctDigests(md5Hex: Digest, jobs: seq<Job>) {
    forall i, j :: 0 <= i < j < |jobs| ==> JobDigest(md5Hex, jobs[i]) != JobDigest(md5Hex, jobs[j])
  }

  ghost predicate Covers(md5Hex: Digest, jobs: seq<Job>, h: string) {
    exists i :: 0 <= i < |jobs| && JobDigest(md5Hex, jobs[i]) == h
  }

  /** The jobs are right, have distinct checksums, and cover every checksum needed. */
  lemma {:induction false} NeededJobsMeans(md5Hex: Digest, files: seq<CookbookFile>, sb: Sandbox)
    requires Digested(md5Hex, files)
    ensures forall job :: job in NeededJobs(files, sb) ==> JobOk(md5Hex, files, sb, job)
    ensures DistinctDigests(md5Hex, NeededJobs(files, sb))
    ensures forall h :: h in Checksums(files) && h in sb.checksums && sb.checksums[h].needsUpload <==>
              Covers(md5Hex, NeededJobs(files, sb), h)
  {
    if files != [] {
      var init, f := files[..|files| - 1], files[|files| - 1];
      var before, jobs := NeededJobs(init, sb), NeededJobs(files, sb);
      assert files == init + [f] && f in files;
      ChecksumsSnoc(init, f);
      NeededJobsMeans(md5Hex, init, sb);
      forall job | job in before ensures JobOk(md5Hex, files, sb, job) {
        assert JobOk(md5Hex, init, sb, job);
      }
      if Needs(sb, f.checksum) && f.checksum !in Checksums(init) {
        CoversSnoc(md5Hex, before, jobs[|before|]);
        forall i | 0 <= i < |before| ensures JobDigest(md5Hex, before[i]) != f.checksum {
          assert !Covers(md5Hex, before, f.checksum);
        }
      }
    }
  }

  /** Where the jobs come from: `at[k]` is the first file with the checksum of the `k`-th job. */
  ghost predicate FirstWith(files: seq<CookbookFile>, sb: Sandbox, jobs: seq<Job>, at: seq<nat>) {
    && |at| == |jobs|
    && (forall k :: 0 <= k < |at| ==>
          && at[k] < |files| && FirstAt(files, at[k]) && JobOf(files[at[k]], sb, jobs[k]))
    && (forall k, l :: 0 <= k < l < |at| ==> at[k] < at[l])
  }

  ghost predicate FirstAt(files: seq<CookbookFile>, i: nat)
    requires i < |files|
  {
    forall j :: 0 <= j < i ==> files[j].checksum != files[i].checksum
  }

  ghost predicate JobOf(f: CookbookFile, sb: Sandbox, job: Job) {
    f.checksum in sb.checksums && sb.checksums[f.checksum].needsUpload
    && job == UploadJob(sb.checksums[f.checksum].url, f.name, f.content)
  }

  /** The jobs follow the order of the files, each for the first file with its checksum. */
  lemma {:induction false} NeededJobsFollow(files: seq<CookbookFile>, sb: Sandbox) returns (at: seq<nat>)
    ensures FirstWith(files, sb, NeededJobs(files, sb), at)
  {
    if files == [] {
      at := [];
    } else {
      var n := |files| - 1;
      var init, f := files[..n], files[n];
      at := NeededJobsFollow(init, sb);
      assert forall i: nat :: i < n && FirstAt(init, i) ==> FirstAt(files, i);
      if Needs(sb, f.checksum) && f.checksum !in Checksums(init) {
        forall j | 0 <= j < n ensures files[j].checksum != f.checksum {
          assert init[j] in init && init[j].checksum in Checksums(init);
        }
        at := at + [n];
      }
    }
  }

  lemma CoversSnoc(md5Hex: Digest, jobs: seq<Job>, job: Job)
    ensures forall h :: Covers(md5Hex, jobs + [job], h) <==> Covers(md5Hex, jobs, h) || JobDigest(md5Hex, job) == h
  {
    forall h ensures Covers(md5Hex, jobs + [job], h) <==> Covers(md5Hex, jobs, h) || JobDigest(md5Hex, job) == h {
      var all := jobs + [job];
      assert all[|jobs|] == job;
      if Covers(md5Hex, jobs, h) {
        var i :| 0 <= i < |jobs| && JobDigest(md5Hex, jobs[i]) == h;
        assert all[i] == jobs[i];
      }
    }
  }

  // ---------------------------------------------------------------------------
  // uploadCookbook

  datatype UploadError = SandboxFailed | TransferFailed | TransferCanceled | CommitFailed | ManifestFailed

  /** The requests of one upload: the sandbox, the transfers, then the commit and the manifest as
      far as they were sent. */
  datatype UploadRun = UploadRun(created: Event, transfer: Transfer, rest: seq<Event>)

  function EventsOf(run: UploadRun): seq<Event> {
    [run.created] + run.transfer.events + run.rest
  }

  /** The protocol: what is sent, in which order, and what the outcome is. */
  ghost predicate UploadOk(base: string, cb: Plain, run: UploadRun, err: Option<UploadError>) {
    && run.created.SandboxCreated? && run.created.checksums == Checksums(cb.files)
    && if run.created.reply.None? then
         run.transfer == Transfer([], [], false) && run.rest == [] && err == Some(SandboxFailed)
       else
         TransferredOk(base, cb, run.created.reply.value, run, err)
  }

  ghost predicate TransferredOk(base: string, cb: Plain, sb: Sandbox, run: UploadRun, err: Option<UploadError>) {
    var jobs := NeededJobs(cb.files, sb);
    && RequestsOf(jobs, run.transfer)
    && if run.rest == [] then
         && !Complete(jobs, run.transfer)
         && err == Some(if SomeFailed(run.transfer) then TransferFailed else TransferCanceled)
       else
         && Complete(jobs, run.transfer)
         && run.rest[0].SandboxCommitted? && run.rest[0].id == sb.id
         && if !run.rest[0].ok then |run.rest| == 1 && err == Some(CommitFailed)
            else
              && |run.rest| == 2 && run.rest[1].ManifestPut?
              && run.rest[1].key == KeyOf(base, cb) && run.rest[1].manifest == ManifestOf(cb)
              && err == if run.rest[1].ok then None else Some(ManifestFailed)
  }

  /** createSandbox: the set of the checksums. */
  method ChecksumSet(hexes: seq<string>) returns (set_: set<string>)
    ensures set_ == set h | h in hexes
  {
    set_ := {};
    for i := 0 to |hexes|
      invariant set_ == set h | h in hexes[..i]
    {
      set_ := set_ + {hexes[i]};
      assert hexes[..i + 1] == hexes[..i] + [hexes[i]];
    }
    assert hexes[..|hexes|] == hexes;
  }

  method CollectHexes(files: seq<CookbookFile>) returns (hexes: seq<string>)
    ensures (set h | h in hexes) == Checksums(files)
  {
    hexes := [];
    for i := 0 to |files|
      invariant (set h | h in hexes) == Checksums(files[..i])
    {
      ghost var before := hexes;
      hexes := hexes + [files[i].checksum];
      ChecksumsSnoc(files[..i], files[i]);
      assert files[..i + 1] == files[..i] + [files[i]];
      assert forall h :: h in hexes <==> h in before || h == files[i].checksum;
    }
    assert files[..|files|] == files;
  }

  method UploadCookbook(w: Remote, base: string, cb: LocalCookbook)
    returns (err: Option<UploadError>, ghost run: UploadRun)
    modifies w
    ensures UploadOk(base, Value(cb), run, err)
    ensures w.state == AfterAll(old(w.state), EventsOf(run))
    ensures w.attempts == old(w.attempts) + |EventsOf(run)|
  {
    var hexes := CollectHexes(cb.files);
    var checksums := ChecksumSet(hexes);
    ghost var s := w.state;
    var reply, created := w.CreateSandbox(checksums);
    run := UploadRun(created, Transfer([], [], false), []);
    AfterTransfer(s, created, run.transfer);
    assert AfterAll(After(s, created), []) == After(s, created);
    if reply.None? {
      return Some(SandboxFailed), run;
    }
    var jobs := CollectJobs(cb.files, reply.value);
    var r, transfer := ParallelForEach(w, jobs);
    run := UploadRun(created, transfer, []);
    AfterTransfer(s, created, transfer);
    if !r.Nil? {
      return Some(if r.FnError? then TransferFailed else TransferCanceled), run;
    }
    var committed, commit := w.CommitSandbox(reply.value.id);
    AfterOneMore(s, run, commit);
    run := run.(rest := run.rest + [commit]);
    if !committed {
      return Some(CommitFailed), run;
    }
    var manifest := CookbookManifest(cb);
    var put, sent := w.PutManifest(KeyOf(base, Value(cb)), manifest);
    AfterOneMore(s, run, sent);
    run := run.(rest := run.rest + [sent]);
    err := if put then None else Some(ManifestFailed);
  }

  /** CookbooksService.Upload */
  method Upload(w: Remote, cb: LocalCookbook) returns (err: Option<UploadError>, ghost run: UploadRun)
    modifies w
    ensures UploadOk("/cookbooks", Value(cb), run, err)
    ensures w.state == AfterAll(old(w.state), EventsOf(run))
    ensures w.attempts == old(w.attempts) + |EventsOf(run)|
  {
    err, run := UploadCookbook(w, "/cookbooks", cb);
  }

  lemma AfterTransfer(s: State, created: Event, transfer: Transfer)
    ensures AfterAll(s, EventsOf(UploadRun(created, transfer, []))) == AfterAll(After(s, created), transfer.events)
  {
    var events := EventsOf(UploadRun(created, transfer, []));
    assert events[0] == created && events[1..] == transfer.events;
  }

  lemma AfterOneMore(s: State, run: UploadRun, e: Event)
    ensures AfterAll(s, EventsOf(run.(rest := run.rest + [e]))) == After(AfterAll(s, EventsOf(run)), e)
  {
    AfterAllAppend(s, EventsOf(run), [e]);
    assert EventsOf(run.(rest := run.rest + [e])) == EventsOf(run) + [e];
  }

  // ---------------------------------------------------------------------------
  // What every upload keeps

  /** The cookbook's contents, and their recorded checksums. */
  ghost predicate Uploadable(md5Hex: Digest, pool: iset<Bytes>, cb: Plain) {
    Digested(md5Hex, cb.files) && forall f :: f in cb.files ==> f.content in pool
  }

  /** No checksum is sent twice, however many files share it and whatever the interleaving. */
  lemma PutOnce(md5Hex: Digest, base: string, cb: Plain, run: UploadRun, err: Option<UploadError>)
    requires Digested(md5Hex, cb.files) && UploadOk(base, cb, run, err)
    ensures forall k :: 0 <= k < |run.transfer.events| ==> run.transfer.events[k].FilePut?
    ensures forall i, j :: 0 <= i < j < |run.transfer.events| ==>
              md5Hex(run.transfer.events[i].content) != md5Hex(run.transfer.events[j].content)
  {
    if run.created.reply.Some? {
      var jobs := NeededJobs(cb.files, run.created.reply.value);
      NeededJobsMeans(md5Hex, cb.files, run.created.reply.value);
      var t := run.transfer;
      forall k | 0 <= k < |t.events|
        ensures t.events[k].FilePut? && md5Hex(t.events[k].content) == JobDigest(md5Hex, jobs[t.sent[k]])
      {
        assert jobs[t.sent[k]] in jobs && JobOk(md5Hex, cb.files, run.created.reply.value, jobs[t.sent[k]]);
        assert EventFor(jobs[t.sent[k]], t.events[k], Succeeded(t.events[k]));
      }
      forall i, j | 0 <= i < j < |t.events|
        ensures md5Hex(t.events[i].content) != md5Hex(t.events[j].content)
      {
        assert t.sent[i] != t.sent[j];
      }
    }
  }

  /** What the manifest of a cookbook says: the reference of each file in order, and the name,
      version, identifier and type of the cookbook version or artifact. */
  lemma ManifestSays(cb: Plain)
    ensures var m := ManifestOf(cb);
            && |m.allFiles| == |cb.files|
            && (forall i :: 0 <= i < |cb.files| ==>
                  && m.allFiles[i].name == Paths.Base(cb.files[i].name) && m.allFiles[i].path == cb.files[i].name
                  && m.allFiles[i].checksum == cb.files[i].checksum && m.allFiles[i].specificity == "default")
            && m.cookbookName == cb.name
            && (cb.identifier == "" ==>
                  && m.name == cb.name + "-" + cb.version && m.version == Some(cb.version) && m.identifier == None
                  && m.chefType == "cookbook_version")
            && (cb.identifier != "" ==>
                  && m.name == cb.name && m.version == None && m.identifier == Some(cb.identifier)
                  && m.chefType == "cookbook_artifact_version")
  {
  }

  /** The requests of a successful upload: the sandbox names the checksums of the files, the commit
      the sandbox, and the manifest goes to the cookbook's name with its version, or with its
      identifier when it has one. */
  lemma UploadSends(base: string, cb: Plain, run: UploadRun)
    requires UploadOk(base, cb, run, None)
    ensures run.created.reply.Some? && |run.rest| == 2
    ensures forall h :: h in run.created.checksums <==> exists f :: f in cb.files && f.checksum == h
    ensures run.rest[0] == SandboxCommitted(run.created.reply.value.id, true)
    ensures run.rest[1].ManifestPut? && run.rest[1].manifest == ManifestOf(cb)
    ensures cb.identifier == "" ==> run.rest[1].key == Key(base, cb.name, cb.version)
    ensures cb.identifier != "" ==> run.rest[1].key == Key(base, cb.name, cb.identifier)
  {
  }

  /** Two versions of a cookbook uploaded one after the other: the server has both manifests, each
      under its own version. */
  lemma VersionsCoexist(md5Hex: Digest, pool: iset<Bytes>, s: State, base: string, a: Plain, runA: UploadRun,
                        b: Plain, runB: UploadRun)
    requires a.name == b.name && a.version != b.version && a.identifier == b.identifier == ""
    requires Uploadable(md5Hex, pool, a) && UploadOk(base, a, runA, None) && Truthful(s, EventsOf(runA))
    requires Uploadable(md5Hex, pool, b) && UploadOk(base, b, runB, None)
             && Truthful(AfterAll(s, EventsOf(runA)), EventsOf(runB))
    ensures var m := AfterAll(AfterAll(s, EventsOf(runA)), EventsOf(runB)).manifests;
            && Key(base, a.name, a.version) in m && m[Key(base, a.name, a.version)] == ManifestOf(a)
            && Key(base, a.name, b.version) in m && m[Key(base, a.name, b.version)] == ManifestOf(b)
  {
    UploadIsGuarded(md5Hex, pool, s, base, a, runA, None);
    UploadIsGuarded(md5Hex, pool, AfterAll(s, EventsOf(runA)), base, b, runB, None);
  }

  /** Whatever was sent: the sandbox comes first, every file PUT comes before the commit, and the
      manifest comes right after a successful commit, which it never lacks. */
  lemma UploadOrder(base: string, cb: Plain, run: UploadRun, err: Option<UploadError>, j: nat, k: nat)
    requires UploadOk(base, cb, run, err) && j < |EventsOf(run)| && k < |EventsOf(run)|
    ensures EventsOf(run)[k].SandboxCreated? <==> k == 0
    ensures EventsOf(run)[k].FilePut? <==> 1 <= k <= |run.transfer.events|
    ensures EventsOf(run)[j].FilePut? && (EventsOf(run)[k].SandboxCommitted? || EventsOf(run)[k].ManifestPut?) ==> j < k
    ensures EventsOf(run)[k].ManifestPut? ==>
              k > 0 && EventsOf(run)[k - 1].SandboxCommitted? && EventsOf(run)[k - 1].ok
  {
    var puts := run.transfer.events;
    var n := 1 + |puts|;
    if run.created.reply.Some? {
      NeededAreUploads(cb.files, run.created.reply.value);
    }
    forall i | 0 <= i < |EventsOf(run)|
      ensures EventsOf(run)[i] == if i == 0 then run.created else if i < n then puts[i - 1] else run.rest[i - n]
      ensures 0 < i < n ==> EventsOf(run)[i].FilePut?
    {
      if 0 < i < n {
        var jobs := NeededJobs(cb.files, run.created.reply.value);
        assert jobs[run.transfer.sent[i - 1]] in jobs;
        assert EventFor(jobs[run.transfer.sent[i - 1]], puts[i - 1], Succeeded(puts[i - 1]));
      }
    }
  }

  lemma {:induction false} NeededAreUploads(files: seq<CookbookFile>, sb: Sandbox)
    ensures forall job :: job in NeededJobs(files, sb) ==> job.UploadJob?
  {
    if files != [] {
      NeededAreUploads(files[..|files| - 1], sb);
    }
  }

  /** File PUTs, each of a pooled content to the URL signed for its checksum. */
  ghost predicate GoodPuts(md5Hex: Digest, pool: iset<Bytes>, targets: map<string, string>, events: seq<Event>) {
    forall e :: e in events ==>
      e.FilePut? && e.content in pool && e.url in targets && targets[e.url] == md5Hex(e.content)
  }

  /** Good PUTs are guarded and change nothing but the store. */
  lemma {:induction false} GoodPutsGuarded(md5Hex: Digest, pool: iset<Bytes>, s: State, events: seq<Event>)
    requires GoodPuts(md5Hex, pool, s.targets, events)
    ensures Guarded(md5Hex, pool, s, events)
    ensures AfterAll(s, events) == s.(store := AfterAll(s, events).store)
    decreases |events|
  {
    if events != [] {
      assert events[0] in events;
      assert forall e :: e in events[1..] ==> e in events;
      GoodPutsGuarded(md5Hex, pool, After(s, events[0]), events[1..]);
    }
  }

  function PutDigest(md5Hex: Digest, e: Event): string {
    if e.FilePut? then md5Hex(e.content) else ""
  }

  /** They store what was applied, and nothing else. */
  lemma {:induction false} GoodPutsStore(md5Hex: Digest, pool: iset<Bytes>, s: State, events: seq<Event>)
    requires GoodPuts(md5Hex, pool, s.targets, events)
    ensures s.store.Keys <= AfterAll(s, events).store.Keys
    ensures forall e :: e in events && e.applied ==> PutDigest(md5Hex, e) in AfterAll(s, events).store
    ensures forall h :: h in AfterAll(s, events).store ==>
              h in s.store || exists e :: e in events && PutDigest(md5Hex, e) == h
    decreases |events|
  {
    if events != [] {
      var u := After(s, events[0]);
      assert events[0] in events;
      assert forall e :: e in events <==> e == events[0] || e in events[1..];
      GoodPutsStore(md5Hex, pool, u, events[1..]);
      assert u.store.Keys <= s.store.Keys + {PutDigest(md5Hex, events[0])};
    }
  }

  lemma GoodPutsEffect(md5Hex: Digest, pool: iset<Bytes>, s: State, events: seq<Event>, checksums: set<string>)
    requires GoodPuts(md5Hex, pool, s.targets, events)
    requires forall e :: e in events ==> PutDigest(md5Hex, e) in checksums
    ensures s.store.Keys <= AfterAll(s, events).store.Keys <= s.store.Keys + checksums
  {
    GoodPutsStore(md5Hex, pool, s, events);
  }

  lemma {:induction false} TruthfulPuts(s: State, events: seq<Event>)
    requires Truthful(s, events)
    ensures forall e :: e in events && e.FilePut? && e.ok ==> e.applied
    decreases |events|
  {
    if events != [] {
      assert events == [events[0]] + events[1..];
      TruthfulPuts(After(s, events[0]), events[1..]);
    }
  }

  /** With an honest sandbox reply the transfers of an upload are good PUTs. */
  lemma TransfersAreGood(md5Hex: Digest, pool: iset<Bytes>, s: State, base: string, cb: Plain,
                         run: UploadRun, err: Option<UploadError>)
    requires Uploadable(md5Hex, pool, cb) && UploadOk(base, cb, run, err) && Honest(s, run.created)
    ensures GoodPuts(md5Hex, pool, After(s, run.created).targets, run.transfer.events)
    ensures forall e :: e in run.transfer.events ==> PutDigest(md5Hex, e) in Checksums(cb.files)
  {
    PutOnce(md5Hex, base, cb, run, err);
    if run.created.reply.Some? {
      var sb := run.created.reply.value;
      var jobs := NeededJobs(cb.files, sb);
      NeededJobsMeans(md5Hex, cb.files, sb);
      var t := run.transfer;
      forall e | e in t.events
        ensures e.FilePut? && e.content in pool && md5Hex(e.content) in Checksums(cb.files)
        ensures e.url in run.created.targets && run.created.targets[e.url] == md5Hex(e.content)
      {
        var k :| 0 <= k < |t.events| && t.events[k] == e;
        var job := jobs[t.sent[k]];
        assert job in jobs && JobOk(md5Hex, cb.files, sb, job);
        assert EventFor(job, e, Succeeded(e));
        var f :| f in cb.files && f.content == job.content;
        assert f.checksum in run.created.checksums;
        assert ToldOf(s, sb, run.created.targets, f.checksum);
      }
    }
  }

  /** When the commit is sent, every file of the cookbook is stored. */
  lemma StoredBeforeCommit(md5Hex: Digest, pool: iset<Bytes>, s: State, base: string, cb: Plain,
                           run: UploadRun, err: Option<UploadError>)
    requires Uploadable(md5Hex, pool, cb) && UploadOk(base, cb, run, err)
    requires Truthful(s, EventsOf(run)) && run.rest != []
    ensures Checksums(cb.files) <= AfterAll(s, [run.created] + run.transfer.events).store.Keys
  {
    var u := After(s, run.created);
    var puts := run.transfer.events;
    var before := [run.created] + puts;
    assert EventsOf(run) == before + run.rest;
    TruthfulAppend(s, before, run.rest);
    assert before[0] == run.created && before[1..] == puts;
    TransfersAreGood(md5Hex, pool, s, base, cb, run, err);
    GoodPutsStore(md5Hex, pool, u, puts);
    TruthfulPuts(u, puts);
    var sb := run.created.reply.value;
    var jobs := NeededJobs(cb.files, sb);
    NeededJobsMeans(md5Hex, cb.files, sb);
    forall h | h in Checksums(cb.files) ensures h in AfterAll(u, puts).store {
      assert ToldOf(s, sb, run.created.targets, h);
      if Needs(sb, h) {
        assert Covers(md5Hex, jobs, h);
        var i :| 0 <= i < |jobs| && JobDigest(md5Hex, jobs[i]) == h;
        assert i in run.transfer.sent;
        var k :| 0 <= k < |run.transfer.sent| && run.transfer.sent[k] == i;
        assert EventFor(jobs[i], puts[k], Succeeded(puts[k])) && Succeeded(puts[k]);
        assert jobs[i] in jobs && JobOk(md5Hex, cb.files, sb, jobs[i]);
        assert puts[k] in puts && puts[k].applied;
      }
    }
  }

  lemma RefsChecksums(files: seq<CookbookFile>)
    ensures forall ref :: ref in RefsOf(files) ==> ref.checksum in Checksums(files)
  {
    forall ref | ref in RefsOf(files) ensures ref.checksum in Checksums(files) {
      var i :| 0 <= i < |files| && RefOf(files[i]) == ref;
      assert files[i] in files;
    }
  }

  /** Whatever the interleaving, the failures and the point where the upload stops: every request
      was safe when it was sent, so the state is safe at every point of the run; and the upload
      changes nothing but the store, where only its own checksums are added, and its own manifest. */
  lemma UploadIsGuarded(md5Hex: Digest, pool: iset<Bytes>, s: State, base: string, cb: Plain,
                        run: UploadRun, err: Option<UploadError>)
    requires Uploadable(md5Hex, pool, cb) && UploadOk(base, cb, run, err) && Truthful(s, EventsOf(run))
    ensures Guarded(md5Hex, pool, s, EventsOf(run))
    ensures var t := AfterAll(s, EventsOf(run));
            && t.pins == s.pins && t.disk == s.disk
            && s.store.Keys <= t.store.Keys <= s.store.Keys + Checksums(cb.files)
            && (t.manifests == s.manifests || t.manifests == s.manifests[KeyOf(base, cb) := ManifestOf(cb)])
            && (err.None? ==>
                  && t.store.Keys == s.store.Keys + Checksums(cb.files)
                  && t.manifests == s.manifests[KeyOf(base, cb) := ManifestOf(cb)])
  {
    var v := AfterAll(s, [run.created] + run.transfer.events);
    SentIsGuarded(md5Hex, pool, s, base, cb, run, err);
    var before := [run.created] + run.transfer.events;
    assert EventsOf(run) == before + run.rest;
    TruthfulAppend(s, before, run.rest);
    GuardedAppend(md5Hex, pool, s, before, run.rest);
    AfterAllAppend(s, before, run.rest);
    if run.rest != [] {
      StoredBeforeCommit(md5Hex, pool, s, base, cb, run, err);
      RestIsGuarded(md5Hex, pool, v, base, cb, run, err);
    }
  }

  /** The sandbox and the transfers. */
  lemma SentIsGuarded(md5Hex: Digest, pool: iset<Bytes>, s: State, base: string, cb: Plain,
                      run: UploadRun, err: Option<UploadError>)
    requires Uploadable(md5Hex, pool, cb) && UploadOk(base, cb, run, err) && Honest(s, run.created)
    ensures Guarded(md5Hex, pool, s, [run.created] + run.transfer.events)
    ensures var v := AfterAll(s, [run.created] + run.transfer.events);
            && v.manifests == s.manifests && v.pins == s.pins && v.disk == s.disk
            && s.store.Keys <= v.store.Keys <= s.store.Keys + Checksums(cb.files)
  {
    var puts := run.transfer.events;
    OneEvent(md5Hex, pool, s, run.created);
    GuardedAppend(md5Hex, pool, s, [run.created], puts);
    AfterAllAppend(s, [run.created], puts);
    TransfersAreGood(md5Hex, pool, s, base, cb, run, err);
    GoodPutsGuarded(md5Hex, pool, After(s, run.created), puts);
    GoodPutsEffect(md5Hex, pool, After(s, run.created), puts, Checksums(cb.files));
  }

  /** The commit and the manifest. */
  lemma RestIsGuarded(md5Hex: Digest, pool: iset<Bytes>, v: State, base: string, cb: Plain,
                      run: UploadRun, err: Option<UploadError>)
    requires UploadOk(base, cb, run, err) && run.rest != [] && Truthful(v, run.rest)
    requires Checksums(cb.files) <= v.store.Keys
    ensures Guarded(md5Hex, pool, v, run.rest)
    ensures var t := AfterAll(v, run.rest);
            && t == v.(manifests := t.manifests)
            && (t.manifests == v.manifests || t.manifests == v.manifests[KeyOf(base, cb) := ManifestOf(cb)])
            && (err.None? ==> t.manifests == v.manifests[KeyOf(base, cb) := ManifestOf(cb)])
  {
    RefsChecksums(cb.files);
    var commit := run.rest[0];
    OneEvent(md5Hex, pool, v, commit);
    assert After(v, commit) == v;
    if |run.rest| == 2 {
      var sent := run.rest[1];
      OneEvent(md5Hex, pool, v, sent);
      assert run.rest == [commit] + [sent];
      AfterAllAppend(v, [commit], [sent]);
      TruthfulAppend(v, [commit], [sent]);
      GuardedAppend(md5Hex, pool, v, [commit], [sent]);
    } else {
      assert run.rest == [commit];
    }
  }
}
