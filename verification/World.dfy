/** The Chef server and the local disk, as the client's requests change them.

    A run is a sequence of events, one a request with its outcome; the state after a run is the
    fold of its events.  A request that fails may still have taken effect.  Nothing is assumed of
    the server's replies here: `Truthful` says which runs have honest replies. */
module World {
  import opened Wrappers
  import opened Bytes
  import opened Transport

  datatype FileRef = FileRef(name: string, path: string, checksum: string, specificity: string)

  /** `version` is set for a cookbook version, `identifier` for a cookbook artifact. */
  datatype Manifest = Manifest(
    cookbookName: string, name: string, version: Option<string>, identifier: Option<string>,
    allFiles: seq<FileRef>, chefType: string)

  datatype Key = Key(base: string, name: string, slug: string)

  datatype SandboxEntry = SandboxEntry(needsUpload: bool, url: string)

  datatype Sandbox = Sandbox(id: string, checksums: map<string, SandboxEntry>)

  /** A file reference of a manifest the server returns. */
  datatype RemoteRef = RemoteRef(ref: FileRef, url: string)

  /** A manifest the server returns: the flat list and the nine segments. */
  datatype Cookbook = Cookbook(
    allFilesManifest: seq<RemoteRef>, files: seq<RemoteRef>, definitions: seq<RemoteRef>,
    libraries: seq<RemoteRef>, attributes: seq<RemoteRef>, recipes: seq<RemoteRef>,
    providers: seq<RemoteRef>, resources: seq<RemoteRef>, rootFiles: seq<RemoteRef>,
    templates: seq<RemoteRef>)

  /** A parsed policy lock: the policy's name and the identifier each cookbook is locked to. */
  datatype Lock = Lock(name: string, identifiers: map<string, string>)

  datatype Pin = Pin(group: string, policy: string)

  /** `reply` is `None` when the request failed.  `targets` says which checksum each upload URL was
      signed for, and `sources` which checksum each download URL serves. */
  datatype Event =
    | SandboxCreated(checksums: set<string>, reply: Option<Sandbox>, targets: map<string, string>)
    | FilePut(url: string, content: Bytes, ok: bool, applied: bool)
    | SandboxCommitted(id: string, ok: bool)
    | ManifestPut(key: Key, manifest: Manifest, ok: bool, applied: bool)
    | PolicyPut(pin: Pin, lock: Lock, ok: bool, applied: bool)
    | ManifestGot(key: Key, manifestReply: Option<Cookbook>, sources: map<string, string>)
    | FileGot(url: string, dest: string, ok: bool, written: Option<Bytes>)

  datatype State = State(
    store: map<string, Bytes>,
    targets: map<string, string>,
    sources: map<string, string>,
    manifests: map<Key, Manifest>,
    pins: map<Pin, Lock>,
    disk: map<string, Bytes>)

  function After(s: State, e: Event): State {
    match e
    case SandboxCreated(_, reply, targets) => if reply.Some? then s.(targets := targets) else s
    case FilePut(url, content, _, applied) =>
      if applied && url in s.targets then s.(store := s.store[s.targets[url] := content]) else s
    case SandboxCommitted(_, _) => s
    case ManifestPut(key, manifest, _, applied) =>
      if applied then s.(manifests := s.manifests[key := manifest]) else s
    case PolicyPut(pin, lock, _, applied) => if applied then s.(pins := s.pins[pin := lock]) else s
    case ManifestGot(_, reply, sources) => if reply.Some? then s.(sources := sources) else s
    case FileGot(_, dest, _, written) =>
      if written.Some? then s.(disk := s.disk[dest := written.value]) else s
  }

  function AfterAll(s: State, events: seq<Event>): State
    decreases |events|
  {
    if events == [] then s else AfterAll(After(s, events[0]), events[1..])
  }

  lemma {:induction false} AfterAllAppend(s: State, a: seq<Event>, b: seq<Event>)
    ensures AfterAll(s, a + b) == AfterAll(AfterAll(s, a), b)
    decreases |a|
  {
    if a == [] {
      assert a + b == b;
    } else {
      assert (a + b)[1..] == a[1..] + b;
      AfterAllAppend(After(s, a[0]), a[1..], b);
    }
  }

  // ---------------------------------------------------------------------------
  // Honest replies

  /** A successful request has taken effect, and a file served is the one its URL stands for. */
  ghost predicate Honest(s: State, e: Event) {
    match e
    case SandboxCreated(checksums, reply, targets) =>
      reply.Some? ==> forall h :: h in checksums ==> ToldOf(s, reply.value, targets, h)
    case FilePut(_, _, ok, applied) => ok ==> applied
    case ManifestPut(_, _, ok, applied) => ok ==> applied
    case PolicyPut(_, _, ok, applied) => ok ==> applied
    case ManifestGot(key, reply, sources) =>
      reply.Some? ==> key in s.manifests && Describes(s, reply.value, s.manifests[key], sources)
    case FileGot(url, _, ok, written) =>
      ok ==> url in s.sources && s.sources[url] in s.store && written == Some(s.store[s.sources[url]])
    case SandboxCommitted(_, _) => true
  }

  /** A checksum that is not listed, or not needed, is stored already; the URL for a needed one was
      signed for it. */
  ghost predicate ToldOf(s: State, sb: Sandbox, targets: map<string, string>, h: string) {
    if h in sb.checksums && sb.checksums[h].needsUpload then
      sb.checksums[h].url in targets && targets[sb.checksums[h].url] == h
    else h in s.store
  }

  /** The lists of the reply together hold the references of the manifest, in any order, each with
      a URL that serves its checksum. */
  ghost predicate Describes(s: State, reply: Cookbook, m: Manifest, sources: map<string, string>) {
    && (forall r :: r in Flatten(reply) ==>
          r.ref in m.allFiles && r.url in sources && sources[r.url] == r.ref.checksum && r.ref.checksum in s.store)
    && (forall ref :: ref in m.allFiles ==> exists r :: r in Flatten(reply) && r.ref == ref)
  }

  /** The flat list followed by the nine segments. */
  function Flatten(cb: Cookbook): seq<RemoteRef> {
    cb.allFilesManifest + cb.files + cb.definitions + cb.libraries + cb.attributes + cb.recipes
    + cb.providers + cb.resources + cb.rootFiles + cb.templates
  }

  ghost predicate Truthful(s: State, events: seq<Event>)
    decreases |events|
  {
    events == [] || (Honest(s, events[0]) && Truthful(After(s, events[0]), events[1..]))
  }

  lemma {:induction false} TruthfulAppend(s: State, a: seq<Event>, b: seq<Event>)
    ensures Truthful(s, a + b) <==> Truthful(s, a) && Truthful(AfterAll(s, a), b)
    decreases |a|
  {
    if a == [] {
      assert a + b == b;
    } else {
      assert (a + b)[1..] == a[1..] + b;
      TruthfulAppend(After(s, a[0]), a[1..], b);
    }
  }

  // ---------------------------------------------------------------------------
  // Safety

  type Digest = Bytes -> string

  /** No two contents of the pool have the same digest. */
  ghost predicate CollisionFree(md5Hex: Digest, pool: iset<Bytes>) {
    forall a, b :: a in pool && b in pool && md5Hex(a) == md5Hex(b) ==> a == b
  }

  /** The key of the artifact a cookbook lock pins. */
  function ArtifactKey(name: string, identifier: string): Key {
    Key("/cookbook_artifacts", name, identifier)
  }

  ghost predicate ManifestBacked(s: State, m: Manifest) {
    forall ref :: ref in m.allFiles ==> ref.checksum in s.store
  }

  ghost predicate LockBacked(s: State, lock: Lock) {
    forall name :: name in lock.identifiers ==> ArtifactKey(name, lock.identifiers[name]) in s.manifests
  }

  ghost predicate StoreSound(md5Hex: Digest, pool: iset<Bytes>, s: State) {
    forall h :: h in s.store ==> s.store[h] in pool && md5Hex(s.store[h]) == h
  }

  ghost predicate ManifestsBacked(s: State) {
    forall key :: key in s.manifests ==> ManifestBacked(s, s.manifests[key])
  }

  ghost predicate LocksBacked(s: State) {
    forall pin :: pin in s.pins ==> LockBacked(s, s.pins[pin])
  }

  /** What is stored under a checksum has that checksum; every manifest's files are stored; every
      pinned lock's artifacts are there. */
  ghost predicate Safe(md5Hex: Digest, pool: iset<Bytes>, s: State) {
    StoreSound(md5Hex, pool, s) && ManifestsBacked(s) && LocksBacked(s)
  }

  /** What makes a request safe in the state it is sent in. */
  ghost predicate Guard(md5Hex: Digest, pool: iset<Bytes>, s: State, e: Event) {
    match e
    case FilePut(url, content, _, _) =>
      content in pool && url in s.targets && s.targets[url] == md5Hex(content)
    case ManifestPut(_, manifest, _, _) => ManifestBacked(s, manifest)
    case PolicyPut(_, lock, _, _) => LockBacked(s, lock)
    case _ => true
  }

  ghost predicate Guarded(md5Hex: Digest, pool: iset<Bytes>, s: State, events: seq<Event>)
    decreases |events|
  {
    events == [] || (Guard(md5Hex, pool, s, events[0]) && Guarded(md5Hex, pool, After(s, events[0]), events[1..]))
  }

  lemma {:induction false} GuardedAppend(md5Hex: Digest, pool: iset<Bytes>, s: State, a: seq<Event>, b: seq<Event>)
    ensures Guarded(md5Hex, pool, s, a + b) <==>
            Guarded(md5Hex, pool, s, a) && Guarded(md5Hex, pool, AfterAll(s, a), b)
    decreases |a|
  {
    if a == [] {
      assert a + b == b;
    } else {
      assert (a + b)[1..] == a[1..] + b;
      GuardedAppend(md5Hex, pool, After(s, a[0]), a[1..], b);
    }
  }

  lemma OneEvent(md5Hex: Digest, pool: iset<Bytes>, s: State, e: Event)
    ensures AfterAll(s, [e]) == After(s, e)
    ensures Truthful(s, [e]) <==> Honest(s, e)
    ensures Guarded(md5Hex, pool, s, [e]) <==> Guard(md5Hex, pool, s, e)
  {
    assert [e][1..] == [];
  }

  /** What requests only add to. */
  ghost predicate Grows(s: State, t: State) {
    && s.store.Keys <= t.store.Keys
    && s.manifests.Keys <= t.manifests.Keys
  }

  lemma StepGrows(s: State, e: Event)
    ensures Grows(s, After(s, e))
  {
  }

  lemma ManifestsKept(md5Hex: Digest, pool: iset<Bytes>, s: State, e: Event)
    requires ManifestsBacked(s) && Guard(md5Hex, pool, s, e)
    ensures ManifestsBacked(After(s, e))
  {
    var t := After(s, e);
    StepGrows(s, e);
    forall key | key in t.manifests ensures ManifestBacked(t, t.manifests[key]) {
      assert ManifestBacked(s, t.manifests[key]);
    }
  }

  lemma LocksKept(md5Hex: Digest, pool: iset<Bytes>, s: State, e: Event)
    requires LocksBacked(s) && Guard(md5Hex, pool, s, e)
    ensures LocksBacked(After(s, e))
  {
    var t := After(s, e);
    StepGrows(s, e);
    forall pin | pin in t.pins ensures LockBacked(t, t.pins[pin]) {
      assert LockBacked(s, t.pins[pin]);
    }
  }

  lemma GuardedStep(md5Hex: Digest, pool: iset<Bytes>, s: State, e: Event)
    requires Safe(md5Hex, pool, s) && Guard(md5Hex, pool, s, e)
    ensures Safe(md5Hex, pool, After(s, e)) && Grows(s, After(s, e))
  {
    StepGrows(s, e);
    ManifestsKept(md5Hex, pool, s, e);
    LocksKept(md5Hex, pool, s, e);
  }

  /** Guarded requests keep the state safe, at every point of the run and not only at its end. */
  lemma {:induction false} GuardedKeepsSafe(md5Hex: Digest, pool: iset<Bytes>, s: State, events: seq<Event>, k: nat)
    requires Safe(md5Hex, pool, s) && Guarded(md5Hex, pool, s, events) && k <= |events|
    ensures Safe(md5Hex, pool, AfterAll(s, events[..k])) && Grows(s, AfterAll(s, events[..k]))
    decreases k
  {
    if k > 0 {
      GuardedStep(md5Hex, pool, s, events[0]);
      assert events[..k][1..] == events[1..][..k - 1];
      GuardedKeepsSafe(md5Hex, pool, After(s, events[0]), events[1..], k - 1);
    }
  }

  /** Without collisions two sound stores with the same checksums hold the same contents. */
  lemma SameKeysSameStore(md5Hex: Digest, pool: iset<Bytes>, s: State, t: State)
    requires CollisionFree(md5Hex, pool) && StoreSound(md5Hex, pool, s) && StoreSound(md5Hex, pool, t)
    requires s.store.Keys == t.store.Keys
    ensures s.store == t.store
  {
    forall h | h in s.store ensures s.store[h] == t.store[h] {
      assert h in t.store.Keys;
    }
  }

  // ---------------------------------------------------------------------------
  // The requests

  /** The server and the disk, and the number of HTTP requests attempted.  Each request reports the
      event it was, as a ghost result. */
  class Remote {
    const maxRetries: nat
    var state: State
    var attempts: nat

    constructor (state: State, maxRetries: nat)
      ensures this.state == state && this.maxRetries == maxRetries && attempts == 0
    {
      this.state, this.maxRetries, attempts := state, maxRetries, 0;
    }

    /** A signed request with its retries.  It fails when its last attempt does, or when the body of
        the response cannot be decoded. */
    method Do(httpMethod: string) returns (ok: bool)
      modifies this`attempts
      ensures old(attempts) + 1 <= attempts <= old(attempts) + 1 + maxRetries
      ensures httpMethod != "GET" ==> attempts == old(attempts) + 1
    {
      var outcomes: nat -> Attempt := *;
      var a, made := DoRaw(outcomes, httpMethod, maxRetries);
      attempts := attempts + made;
      var decoded: bool := *;
      ok := a.err.None? && decoded;
    }

    /** The server may answer anything. */
    method CreateSandbox(checksums: set<string>) returns (reply: Option<Sandbox>, ghost e: Event)
      modifies this
      ensures state == After(old(state), e) && attempts == old(attempts) + 1
      ensures e.SandboxCreated? && e.checksums == checksums && e.reply == reply
    {
      var ok := Do("POST");
      var answer: Sandbox := *;
      var targets: map<string, string> := *;
      reply := if ok then Some(answer) else None;
      e := SandboxCreated(checksums, reply, targets);
      state := After(state, SandboxCreated(checksums, reply, targets));
    }

    method CommitSandbox(id: string) returns (ok: bool, ghost e: Event)
      modifies this
      ensures state == After(old(state), e) && e == SandboxCommitted(id, ok)
      ensures attempts == old(attempts) + 1
    {
      ok := Do("PUT");
      e := SandboxCommitted(id, ok);
    }

    /** An unsigned request to an upload URL, past the retry loop. */
    method PutFile(url: string, content: Bytes) returns (ok: bool, ghost e: Event)
      modifies this
      ensures state == After(old(state), e) && e.FilePut? && e == FilePut(url, content, ok, e.applied)
      ensures attempts == old(attempts) + 1
    {
      attempts := attempts + 1;
      ok := *;
      var applied: bool := *;
      e := FilePut(url, content, ok, applied);
      state := After(state, FilePut(url, content, ok, applied));
    }

    method PutManifest(key: Key, manifest: Manifest) returns (ok: bool, ghost e: Event)
      modifies this
      ensures state == After(old(state), e) && e.ManifestPut? && e == ManifestPut(key, manifest, ok, e.applied)
      ensures attempts == old(attempts) + 1
    {
      ok := Do("PUT");
      var applied: bool := *;
      e := ManifestPut(key, manifest, ok, applied);
      state := After(state, ManifestPut(key, manifest, ok, applied));
    }

    method PutPolicy(pin: Pin, lock: Lock) returns (ok: bool, ghost e: Event)
      modifies this
      ensures state == After(old(state), e) && e.PolicyPut? && e == PolicyPut(pin, lock, ok, e.applied)
      ensures attempts == old(attempts) + 1
    {
      ok := Do("PUT");
      var applied: bool := *;
      e := PolicyPut(pin, lock, ok, applied);
      state := After(state, PolicyPut(pin, lock, ok, applied));
    }

    method GetManifest(key: Key) returns (reply: Option<Cookbook>, ghost e: Event)
      modifies this
      ensures state == After(old(state), e) && e.ManifestGot? && e == ManifestGot(key, reply, e.sources)
      ensures old(attempts) + 1 <= attempts <= old(attempts) + 1 + maxRetries
    {
      var ok := Do("GET");
      var answer: Cookbook := *;
      var sources: map<string, string> := *;
      reply := if ok then Some(answer) else None;
      e := ManifestGot(key, reply, sources);
      state := After(state, ManifestGot(key, reply, sources));
    }

    /** Fetches the file, past the retry loop, and writes what it got; a failure may leave anything
        at `dest`. */
    method DownloadFile(url: string, dest: string) returns (ok: bool, ghost e: Event)
      modifies this
      ensures state == After(old(state), e) && e.FileGot? && e == FileGot(url, dest, ok, e.written)
      ensures attempts == old(attempts) + 1
    {
      attempts := attempts + 1;
      ok := *;
      var written: Option<Bytes> := *;
      e := FileGot(url, dest, ok, written);
      state := After(state, FileGot(url, dest, ok, written));
    }
  }
}
