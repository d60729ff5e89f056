/** What a push of a policy lock keeps, and why a failed push is safe to repeat. */
module PushSafety {
  import opened Wrappers
  import opened Bytes
  import opened World
  import opened Transfers
  import opened CookbookDir
  import opened Cookbooks
  import opened Policies

  /** The checksums of the cookbooks pinned by the keys. */
  function Sums(lock: Lock, books: map<string, Plain>, keys: seq<string>): set<string> {
    if keys == [] then {}
    else
      var init, last := Sums(lock, books, keys[..|keys| - 1]), keys[|keys| - 1];
      if Ready(lock, books, last) then init + Checksums(books[last].files) else init
  }

  /** The artifacts the keys are uploaded to, a later one winning. */
  function Targets(lock: Lock, books: map<string, Plain>, keys: seq<string>): map<Key, Manifest> {
    if keys == [] then map[]
    else
      var init, last := Targets(lock, books, keys[..|keys| - 1]), keys[|keys| - 1];
      if Ready(lock, books, last) then
        init[KeyOf(ARTIFACTS, Artifact(lock, books, last)) := ManifestOf(Artifact(lock, books, last))]
      else init
  }

  ghost predicate AllUploadable(md5Hex: Digest, pool: iset<Bytes>, books: map<string, Plain>) {
    forall name :: name in books ==> Uploadable(md5Hex, pool, books[name])
  }

  /** `m'` is `m` but for some of the keys `ks`. */
  ghost predicate Overlay(m: map<Key, Manifest>, m': map<Key, Manifest>, ks: set<Key>) {
    && m.Keys <= m'.Keys <= m.Keys + ks
    && forall k :: k in m && k !in ks ==> m'[k] == m[k]
  }

  /** What any prefix of the uploads leaves. */
  ghost predicate Uploading(s: State, t: State, sums: set<string>, targets: map<Key, Manifest>) {
    && t.pins == s.pins && t.disk == s.disk
    && s.store.Keys <= t.store.Keys <= s.store.Keys + sums
    && Overlay(s.manifests, t.manifests, targets.Keys)
  }

  /** What all the uploads leave. */
  ghost predicate Uploaded(s: State, t: State, sums: set<string>, targets: map<Key, Manifest>) {
    && t.pins == s.pins && t.disk == s.disk
    && t.store.Keys == s.store.Keys + sums
    && t.manifests == s.manifests + targets
  }

  lemma SumsSnoc(lock: Lock, books: map<string, Plain>, keys: seq<string>, name: string)
    requires Ready(lock, books, name)
    ensures Sums(lock, books, keys + [name]) == Sums(lock, books, keys) + Checksums(books[name].files)
    ensures Targets(lock, books, keys + [name])
            == Targets(lock, books, keys)[KeyOf(ARTIFACTS, Artifact(lock, books, name)) := ManifestOf(Artifact(lock, books, name))]
  {
    assert (keys + [name])[..|keys|] == keys;
  }

  /** One more upload after some that all succeeded. */
  lemma OneUpload(s: State, t: State, u: State, sums: set<string>, targets: map<Key, Manifest>,
                  more: set<string>, key: Key, manifest: Manifest, ok: bool)
    requires Uploaded(s, t, sums, targets)
    requires u.pins == t.pins && u.disk == t.disk
    requires t.store.Keys <= u.store.Keys <= t.store.Keys + more
    requires u.manifests == t.manifests || u.manifests == t.manifests[key := manifest]
    requires ok ==> u.store.Keys == t.store.Keys + more && u.manifests == t.manifests[key := manifest]
    ensures Uploading(s, u, sums + more, targets[key := manifest])
    ensures ok ==> Uploaded(s, u, sums + more, targets[key := manifest])
  {
    assert (s.manifests + targets)[key := manifest] == s.manifests + targets[key := manifest];
  }

  /** All uploads but the last. */
  function Before(run: PushRun): PushRun
    requires |run.uploads| == |run.errs| > 0
  {
    PushRun(run.uploads[..|run.uploads| - 1], run.errs[..|run.errs| - 1], None)
  }

  lemma LastEvents(md5Hex: Digest, pool: iset<Bytes>, s: State, run: PushRun)
    requires |run.uploads| == |run.errs| > 0
    ensures var before, last := UploadEvents(Before(run).uploads), EventsOf(run.uploads[|run.uploads| - 1]);
            && (Truthful(s, UploadEvents(run.uploads)) <==> Truthful(s, before) && Truthful(AfterAll(s, before), last))
            && (Guarded(md5Hex, pool, s, UploadEvents(run.uploads)) <==>
                  Guarded(md5Hex, pool, s, before) && Guarded(md5Hex, pool, AfterAll(s, before), last))
            && AfterAll(s, UploadEvents(run.uploads)) == AfterAll(AfterAll(s, before), last)
  {
    var before, last := UploadEvents(Before(run).uploads), EventsOf(run.uploads[|run.uploads| - 1]);
    TruthfulAppend(s, before, last);
    GuardedAppend(md5Hex, pool, s, before, last);
    AfterAllAppend(s, before, last);
  }

  /** What the uploads of a run did, as far as they got. */
  ghost predicate HasEffect(s: State, lock: Lock, books: map<string, Plain>, keys: seq<string>, run: PushRun)
    requires |run.uploads| <= |keys|
  {
    var t := AfterAll(s, UploadEvents(run.uploads));
    var sums, targets := Sums(lock, books, keys[..|run.uploads|]), Targets(lock, books, keys[..|run.uploads|]);
    Uploading(s, t, sums, targets) && (AllUploaded(run) ==> Uploaded(s, t, sums, targets))
  }

  lemma LastKey(lock: Lock, books: map<string, Plain>, keys: seq<string>, n: nat)
    requires 0 < n <= |keys| && Ready(lock, books, keys[n - 1])
    ensures var init, cb := keys[..n - 1], Artifact(lock, books, keys[n - 1]);
            && Sums(lock, books, keys[..n]) == Sums(lock, books, init) + Checksums(cb.files)
            && Targets(lock, books, keys[..n]) == Targets(lock, books, init)[KeyOf(ARTIFACTS, cb) := ManifestOf(cb)]
  {
    assert keys[..n] == keys[..n - 1] + [keys[n - 1]];
    SumsSnoc(lock, books, keys[..n - 1], keys[n - 1]);
  }

  lemma LastUpload(s: State, lock: Lock, books: map<string, Plain>, keys: seq<string>, run: PushRun, t: State)
    requires UploadsOk(lock, books, keys, run) && |run.uploads| > 0
    requires HasEffect(s, lock, books, keys, Before(run)) && t == AfterAll(s, UploadEvents(Before(run).uploads))
    requires var cb, u := Artifact(lock, books, keys[|run.uploads| - 1]), AfterAll(s, UploadEvents(run.uploads));
             && u.pins == t.pins && u.disk == t.disk
             && t.store.Keys <= u.store.Keys <= t.store.Keys + Checksums(cb.files)
             && (u.manifests == t.manifests || u.manifests == t.manifests[KeyOf(ARTIFACTS, cb) := ManifestOf(cb)])
             && (run.errs[|run.uploads| - 1].None? ==>
                   && u.store.Keys == t.store.Keys + Checksums(cb.files)
                   && u.manifests == t.manifests[KeyOf(ARTIFACTS, cb) := ManifestOf(cb)])
    ensures HasEffect(s, lock, books, keys, run)
  {
    var n := |run.uploads|;
    var name := keys[n - 1];
    var cb := Artifact(lock, books, name);
    assert AllUploaded(Before(run));
    LastKey(lock, books, keys, n);
    OneUpload(s, t, AfterAll(s, UploadEvents(run.uploads)), Sums(lock, books, keys[..n - 1]),
              Targets(lock, books, keys[..n - 1]), Checksums(cb.files), KeyOf(ARTIFACTS, cb), ManifestOf(cb),
              run.errs[n - 1].None?);
  }

  lemma {:induction false} UploadsEffect(md5Hex: Digest, pool: iset<Bytes>, s: State, lock: Lock, books: map<string, Plain>,
                                         keys: seq<string>, run: PushRun)
    requires AllUploadable(md5Hex, pool, books) && UploadsOk(lock, books, keys, run)
    requires Truthful(s, UploadEvents(run.uploads))
    ensures Guarded(md5Hex, pool, s, UploadEvents(run.uploads)) && HasEffect(s, lock, books, keys, run)
    decreases |run.uploads|
  {
    var n := |run.uploads|;
    if n == 0 {
      assert keys[..0] == [];
      assert s.manifests + map[] == s.manifests;
    } else {
      LastEvents(md5Hex, pool, s, run);
      UploadsEffect(md5Hex, pool, s, lock, books, keys, Before(run));
      var t := AfterAll(s, UploadEvents(Before(run).uploads));
      UploadIsGuarded(md5Hex, pool, t, ARTIFACTS, Artifact(lock, books, keys[n - 1]), run.uploads[n - 1], run.errs[n - 1]);
      LastUpload(s, lock, books, keys, run, t);
    }
  }

  // ---------------------------------------------------------------------------
  // A push

  /** The pin, or nothing, after the uploads. */
  lemma PushAppend(md5Hex: Digest, pool: iset<Bytes>, s: State, run: PushRun)
    ensures var t := AfterAll(s, UploadEvents(run.uploads));
            && (Truthful(s, PushEvents(run)) <==>
                  Truthful(s, UploadEvents(run.uploads)) && (run.pin.Some? ==> Honest(t, run.pin.value)))
            && (Guarded(md5Hex, pool, s, PushEvents(run)) <==>
                  Guarded(md5Hex, pool, s, UploadEvents(run.uploads)) && (run.pin.Some? ==> Guard(md5Hex, pool, t, run.pin.value)))
            && AfterAll(s, PushEvents(run)) == if run.pin.Some? then After(t, run.pin.value) else t
  {
    var events := UploadEvents(run.uploads);
    var tail := if run.pin.Some? then [run.pin.value] else [];
    TruthfulAppend(s, events, tail);
    GuardedAppend(md5Hex, pool, s, events, tail);
    AfterAllAppend(s, events, tail);
    if run.pin.Some? {
      OneEvent(md5Hex, pool, AfterAll(s, events), run.pin.value);
    }
  }

  /** What a push leaves, wherever it stopped. */
  ghost predicate Partly(s: State, t: State, sums: set<string>, ks: set<Key>, pin: Pin, lock: Lock) {
    && t.disk == s.disk
    && s.store.Keys <= t.store.Keys <= s.store.Keys + sums
    && Overlay(s.manifests, t.manifests, ks)
    && (t.pins == s.pins || t.pins == s.pins[pin := lock])
  }

  /** What a successful push leaves. */
  ghost predicate Pushed(s: State, t: State, sums: set<string>, targets: map<Key, Manifest>, pin: Pin, lock: Lock) {
    && t.disk == s.disk
    && t.store.Keys == s.store.Keys + sums
    && t.manifests == s.manifests + targets
    && t.pins == s.pins[pin := lock]
  }

  lemma {:induction false} PrefixOf(lock: Lock, books: map<string, Plain>, keys: seq<string>, n: nat)
    requires n <= |keys|
    ensures Sums(lock, books, keys[..n]) <= Sums(lock, books, keys)
    ensures Targets(lock, books, keys[..n]).Keys <= Targets(lock, books, keys).Keys
    decreases |keys|
  {
    if n == |keys| {
      assert keys[..n] == keys;
    } else {
      assert keys[..|keys| - 1][..n] == keys[..n];
      PrefixOf(lock, books, keys[..|keys| - 1], n);
    }
  }

  /** The pin, if it was sent, after the uploads. */
  lemma PinEffect(s: State, t: State, u: State, sums: set<string>, targets: map<Key, Manifest>, pin: Pin, lock: Lock, ok: bool)
    requires Uploading(s, t, sums, targets)
    requires u.store == t.store && u.manifests == t.manifests && u.disk == t.disk
    requires u.pins == t.pins || u.pins == t.pins[pin := lock]
    requires ok ==> Uploaded(s, t, sums, targets) && u.pins == t.pins[pin := lock]
    ensures Partly(s, u, sums, targets.Keys, pin, lock)
    ensures ok ==> Pushed(s, u, sums, targets, pin, lock)
  {
  }

  lemma PushEffect(md5Hex: Digest, pool: iset<Bytes>, s: State, lock: Lock, group: string, books: map<string, Plain>,
                   keys: seq<string>, run: PushRun, err: Option<PushError>)
    requires AllUploadable(md5Hex, pool, books) && PushOk(lock, group, books, keys, run, err)
    requires Truthful(s, PushEvents(run))
    ensures Partly(s, AfterAll(s, PushEvents(run)), Sums(lock, books, keys), Targets(lock, books, keys).Keys,
                   Pin(group, lock.name), lock)
    ensures err.None? ==> Pushed(s, AfterAll(s, PushEvents(run)), Sums(lock, books, keys), Targets(lock, books, keys),
                                 Pin(group, lock.name), lock)
  {
    PushAppend(md5Hex, pool, s, run);
    UploadsEffect(md5Hex, pool, s, lock, books, keys, run);
    WholeEffect(s, lock, books, keys, run);
    PinEffect(s, AfterAll(s, UploadEvents(run.uploads)), AfterAll(s, PushEvents(run)), Sums(lock, books, keys),
              Targets(lock, books, keys), Pin(group, lock.name), lock, err.None?);
  }

  /** The effect of the uploads made, in terms of all the keys. */
  lemma WholeEffect(s: State, lock: Lock, books: map<string, Plain>, keys: seq<string>, run: PushRun)
    requires |run.uploads| <= |keys| && HasEffect(s, lock, books, keys, run)
    ensures var t := AfterAll(s, UploadEvents(run.uploads));
            && Uploading(s, t, Sums(lock, books, keys), Targets(lock, books, keys))
            && (|run.uploads| == |keys| && AllUploaded(run) ==>
                  Uploaded(s, t, Sums(lock, books, keys), Targets(lock, books, keys)))
  {
    PrefixOf(lock, books, keys, |run.uploads|);
    assert keys[..|keys|] == keys;
  }

  lemma PushKeepsStore(md5Hex: Digest, pool: iset<Bytes>, s: State, lock: Lock, group: string, books: map<string, Plain>,
                       keys: seq<string>, run: PushRun, err: Option<PushError>)
    requires AllUploadable(md5Hex, pool, books) && PushOk(lock, group, books, keys, run, err)
    requires Truthful(s, PushEvents(run)) && StoreSound(md5Hex, pool, s)
    ensures StoreSound(md5Hex, pool, AfterAll(s, PushEvents(run)))
  {
    PushAppend(md5Hex, pool, s, run);
    UploadsEffect(md5Hex, pool, s, lock, books, keys, run);
    GuardedKeepsStore(md5Hex, pool, s, UploadEvents(run.uploads));
  }

  lemma GuardKeepsStore(md5Hex: Digest, pool: iset<Bytes>, s: State, e: Event)
    requires StoreSound(md5Hex, pool, s) && Guard(md5Hex, pool, s, e)
    ensures StoreSound(md5Hex, pool, After(s, e))
  {
  }

  lemma {:induction false} GuardedKeepsStore(md5Hex: Digest, pool: iset<Bytes>, s: State, events: seq<Event>)
    requires StoreSound(md5Hex, pool, s) && Guarded(md5Hex, pool, s, events)
    ensures StoreSound(md5Hex, pool, AfterAll(s, events))
    decreases |events|
  {
    if events != [] {
      GuardKeepsStore(md5Hex, pool, s, events[0]);
      GuardedKeepsStore(md5Hex, pool, After(s, events[0]), events[1..]);
    }
  }

  // ---------------------------------------------------------------------------
  // The pin is backed

  /** The artifacts uploaded are exactly those named by the cookbooks' own names. */
  lemma {:induction false} TargetsAre(lock: Lock, books: map<string, Plain>, keys: seq<string>)
    requires forall name :: name in keys ==> Ready(lock, books, name)
    ensures forall k :: k in Targets(lock, books, keys) <==>
              exists name :: name in keys && Ready(lock, books, name) && k == ArtifactKey(books[name].name, lock.identifiers[name])
    decreases |keys|
  {
    if keys != [] {
      var init, last := keys[..|keys| - 1], keys[|keys| - 1];
      assert keys == init + [last] && last in keys;
      assert forall name :: name in keys <==> name in init || name == last;
      TargetsAre(lock, books, init);
      assert KeyOf(ARTIFACTS, Artifact(lock, books, last)) == ArtifactKey(books[last].name, lock.identifiers[last]);
    }
  }

  /** Every cookbook is called what its lock is called. */
  ghost predicate NamesAgree(lock: Lock, books: map<string, Plain>) {
    forall name :: name in lock.identifiers && name in books ==> books[name].name == name
  }

  /** What a caller can check before the push: each lock's artifact is on the server, or some
      cookbook of the push has the name and the identifier. */
  ghost predicate WillBeBacked(s: State, lock: Lock, books: map<string, Plain>) {
    forall name :: name in lock.identifiers ==>
      || ArtifactKey(name, lock.identifiers[name]) in s.manifests
      || exists other :: other in lock.identifiers && other in books
           && books[other].name == name && lock.identifiers[other] == lock.identifiers[name]
  }

  lemma EveryKeyReady(lock: Lock, group: string, books: map<string, Plain>, keys: seq<string>, run: PushRun, err: Option<PushError>)
    requires PushOk(lock, group, books, keys, run, err) && run.pin.Some?
    ensures forall name :: name in keys ==> Ready(lock, books, name)
  {
    forall name | name in keys ensures Ready(lock, books, name) {
      var i :| 0 <= i < |keys| && keys[i] == name;
    }
  }

  /** When the pin is sent, the lock's artifacts are all in place exactly when the condition held
      before the push: the artifact of a lock is stored under the cookbook's own name. */
  lemma PinIsBackedIff(md5Hex: Digest, pool: iset<Bytes>, s: State, lock: Lock, group: string, books: map<string, Plain>,
                       keys: seq<string>, run: PushRun, err: Option<PushError>)
    requires AllUploadable(md5Hex, pool, books) && PushOk(lock, group, books, keys, run, err)
    requires IsSortedKeys(keys, lock.identifiers) && run.pin.Some? && Truthful(s, PushEvents(run))
    ensures LockBacked(AfterAll(s, UploadEvents(run.uploads)), lock) <==> WillBeBacked(s, lock, books)
  {
    PushAppend(md5Hex, pool, s, run);
    UploadsEffect(md5Hex, pool, s, lock, books, keys, run);
    assert keys[..|keys|] == keys;
    EveryKeyReady(lock, group, books, keys, run, err);
    TargetsAre(lock, books, keys);
    var t := AfterAll(s, UploadEvents(run.uploads));
    assert t.manifests == s.manifests + Targets(lock, books, keys);
    forall name | name in lock.identifiers
      ensures ArtifactKey(name, lock.identifiers[name]) in Targets(lock, books, keys) <==>
              exists other :: other in lock.identifiers && other in books
                && books[other].name == name && lock.identifiers[other] == lock.identifiers[name]
    {
      if exists other :: other in lock.identifiers && other in books
           && books[other].name == name && lock.identifiers[other] == lock.identifiers[name]
      {
        var other :| other in lock.identifiers && other in books
          && books[other].name == name && lock.identifiers[other] == lock.identifiers[name];
        assert other in keys && Ready(lock, books, other);
      }
    }
  }

  /** Every request of a push, failing or not, is safe when it is sent, exactly when the pin is not
      sent or the condition held before the push. */
  lemma PushIsGuardedIff(md5Hex: Digest, pool: iset<Bytes>, s: State, lock: Lock, group: string, books: map<string, Plain>,
                         keys: seq<string>, run: PushRun, err: Option<PushError>)
    requires AllUploadable(md5Hex, pool, books) && PushOk(lock, group, books, keys, run, err)
    requires IsSortedKeys(keys, lock.identifiers) && Truthful(s, PushEvents(run))
    ensures Guarded(md5Hex, pool, s, PushEvents(run)) <==> (run.pin.Some? ==> WillBeBacked(s, lock, books))
  {
    PushAppend(md5Hex, pool, s, run);
    UploadsEffect(md5Hex, pool, s, lock, books, keys, run);
    if run.pin.Some? {
      PinIsBackedIff(md5Hex, pool, s, lock, group, books, keys, run, err);
    }
  }

  /** When the names agree and the pin is sent, the condition held, whatever the state. */
  lemma NamesAgreeBacks(s: State, lock: Lock, group: string, books: map<string, Plain>, keys: seq<string>,
                        run: PushRun, err: Option<PushError>)
    requires PushOk(lock, group, books, keys, run, err) && IsSortedKeys(keys, lock.identifiers)
    requires NamesAgree(lock, books) && run.pin.Some?
    ensures WillBeBacked(s, lock, books)
  {
    EveryKeyReady(lock, group, books, keys, run, err);
    forall name | name in lock.identifiers ensures name in books && books[name].name == name {
      assert name in keys;
    }
  }

  /** When the names agree, every request of a push, failing or not, is safe when it is sent. */
  lemma PushIsGuarded(md5Hex: Digest, pool: iset<Bytes>, s: State, lock: Lock, group: string, books: map<string, Plain>,
                      keys: seq<string>, run: PushRun, err: Option<PushError>)
    requires AllUploadable(md5Hex, pool, books) && PushOk(lock, group, books, keys, run, err)
    requires IsSortedKeys(keys, lock.identifiers) && NamesAgree(lock, books) && Truthful(s, PushEvents(run))
    ensures Guarded(md5Hex, pool, s, PushEvents(run))
  {
    PushIsGuardedIff(md5Hex, pool, s, lock, group, books, keys, run, err);
    if run.pin.Some? {
      NamesAgreeBacks(s, lock, group, books, keys, run, err);
    }
  }

  /** A cookbook with one file, called `own`, for a lock called `name`. */
  datatype Misnamed = Misnamed(name: string, own: string, identifier: string, file: CookbookFile)

  function LockOf(m: Misnamed): Lock {
    Lock("policy", map[m.name := m.identifier])
  }

  function BookOf(m: Misnamed): Plain {
    Plain(m.own, "1.0.0", "", [m.file])
  }

  /** An upload to an empty server that answers honestly and does all that is asked. */
  function SmoothUpload(cb: Plain, f: CookbookFile): UploadRun {
    UploadRun(
      SandboxCreated({f.checksum}, Some(Sandbox("sandbox", map[f.checksum := SandboxEntry(true, "url")])),
                     map["url" := f.checksum]),
      Transfer([0], [FilePut("url", f.content, true, true)], false),
      [SandboxCommitted("sandbox", true), ManifestPut(KeyOf(ARTIFACTS, cb), ManifestOf(cb), true, true)])
  }

  lemma SmoothUploadOk(cb: Plain, f: CookbookFile)
    requires cb.files == [f]
    ensures UploadOk(ARTIFACTS, cb, SmoothUpload(cb, f), None)
  {
    var run := SmoothUpload(cb, f);
    var sb := run.created.reply.value;
    assert NeededJobs([], sb) == [] && Checksums([]) == {};
    assert [f][..0] == [] && [f][0] == f;
    assert NeededJobs([f], sb) == [UploadJob("url", f.name, f.content)];
    assert run.transfer.sent[0] == 0;
    assert EventFor(NeededJobs([f], sb)[0], run.transfer.events[0], true);
  }

  predicate Applied(e: Event) {
    e.SandboxCommitted? || ((e.FilePut? || e.ManifestPut? || e.PolicyPut?) && e.applied)
  }

  lemma {:induction false} AppliedIsHonest(s: State, events: seq<Event>)
    requires forall i :: 0 <= i < |events| ==> Applied(events[i])
    ensures Truthful(s, events)
    decreases |events|
  {
    if events != [] {
      AppliedIsHonest(After(s, events[0]), events[1..]);
    }
  }

  /** The upload, and what is done after it, is honest. */
  lemma SmoothUploadHonest(s: State, cb: Plain, f: CookbookFile, rest: seq<Event>)
    requires forall i :: 0 <= i < |rest| ==> Applied(rest[i])
    ensures Truthful(s, EventsOf(SmoothUpload(cb, f)) + rest)
  {
    var run := SmoothUpload(cb, f);
    var events := EventsOf(run) + rest;
    var done := run.transfer.events + run.rest + rest;
    assert events[0] == run.created && events[1..] == done;
    assert Honest(s, run.created);
    AppliedIsHonest(After(s, run.created), done);
  }

  function SmoothPush(m: Misnamed, group: string): PushRun {
    var cb := BookOf(m).(identifier := m.identifier);
    PushRun([SmoothUpload(cb, m.file)], [None], Some(PolicyPut(Pin(group, "policy"), LockOf(m), true, true)))
  }

  lemma SmoothPushOk(m: Misnamed, group: string)
    requires m.identifier != ""
    ensures PushOk(LockOf(m), group, map[m.name := BookOf(m)], [m.name], SmoothPush(m, group), None)
  {
    SmoothUploadOk(BookOf(m).(identifier := m.identifier), m.file);
  }

  lemma SmoothPushHonest(s: State, m: Misnamed, group: string)
    ensures Truthful(s, PushEvents(SmoothPush(m, group)))
  {
    var run := SmoothPush(m, group);
    var upload := run.uploads[0];
    UploadEventsSnoc([], upload);
    assert UploadEvents([]) == [] && [] + [upload] == [upload];
    assert UploadEvents(run.uploads) == EventsOf(upload);
    SmoothUploadHonest(s, BookOf(m).(identifier := m.identifier), m.file, [run.pin.value]);
  }

  /** A cookbook that is not called what its lock is called: on an empty server a push of it can
      succeed, every answer being honest, and leave the lock pinned without its artifact. */
  lemma MisnamedCookbookIsNotBacked(md5Hex: Digest, pool: iset<Bytes>, s: State, m: Misnamed, group: string)
    returns (run: PushRun)
    requires s.manifests == map[] && m.name != m.own && m.identifier != ""
    requires m.file.checksum == md5Hex(m.file.content) && m.file.content in pool
    ensures var lock, books, keys := LockOf(m), map[m.name := BookOf(m)], [m.name];
            && AllUploadable(md5Hex, pool, books) && IsSortedKeys(keys, lock.identifiers)
            && PushOk(lock, group, books, keys, run, None) && run.pin.Some? && Truthful(s, PushEvents(run))
            && !LockBacked(AfterAll(s, UploadEvents(run.uploads)), lock)
            && !Safe(md5Hex, pool, AfterAll(s, PushEvents(run)))
  {
    var lock, books, keys := LockOf(m), map[m.name := BookOf(m)], [m.name];
    run := SmoothPush(m, group);
    SmoothPushOk(m, group);
    SmoothPushHonest(s, m, group);
    assert m.name in lock.identifiers && !WillBeBacked(s, lock, books);
    PinIsBackedIff(md5Hex, pool, s, lock, group, books, keys, run, None);
    UnbackedPinIsUnsafe(md5Hex, pool, s, run);
  }

  /** Pinning a lock that is not backed leaves the state unsafe. */
  lemma UnbackedPinIsUnsafe(md5Hex: Digest, pool: iset<Bytes>, s: State, run: PushRun)
    requires run.pin.Some? && run.pin.value.PolicyPut? && run.pin.value.applied
    requires !LockBacked(AfterAll(s, UploadEvents(run.uploads)), run.pin.value.lock)
    ensures !Safe(md5Hex, pool, AfterAll(s, PushEvents(run)))
  {
    PushAppend(md5Hex, pool, s, run);
    assert AfterAll(s, PushEvents(run)).pins[run.pin.value.pin] == run.pin.value.lock;
  }

  // ---------------------------------------------------------------------------
  // Repeating a push

  lemma PartlyTransitive(s: State, t: State, u: State, sums: set<string>, ks: set<Key>, pin: Pin, lock: Lock)
    requires Partly(s, t, sums, ks, pin, lock) && Partly(t, u, sums, ks, pin, lock)
    ensures Partly(s, u, sums, ks, pin, lock)
  {
    forall k | k in s.manifests && k !in ks ensures u.manifests[k] == s.manifests[k] {
      assert k in t.manifests;
    }
  }

  /** A push completed from a partly pushed state gives what it gives from the start. */
  lemma Converges(s: State, t: State, u: State, once: State, sums: set<string>, targets: map<Key, Manifest>, pin: Pin, lock: Lock)
    requires Partly(s, t, sums, targets.Keys, pin, lock)
    requires Pushed(t, u, sums, targets, pin, lock) && Pushed(s, once, sums, targets, pin, lock)
    ensures u.store.Keys == once.store.Keys && u.manifests == once.manifests && u.pins == once.pins && u.disk == once.disk
  {
    OverlayAbsorbed(s.manifests, t.manifests, targets);
  }

  lemma OverlayAbsorbed(m: map<Key, Manifest>, m': map<Key, Manifest>, targets: map<Key, Manifest>)
    requires Overlay(m, m', targets.Keys)
    ensures m' + targets == m + targets
  {
    forall k | k in m' + targets ensures k in m + targets && (m' + targets)[k] == (m + targets)[k] {
      if k !in targets {
        assert k in m'.Keys && k in m.Keys + targets.Keys;
      }
    }
  }

  function HistoryEvents(history: seq<PushRun>): seq<Event> {
    if history == [] then [] else PushEvents(history[0]) + HistoryEvents(history[1..])
  }

  /** Any number of pushes of the lock, with any outcomes. */
  ghost predicate HistoryOk(lock: Lock, group: string, books: map<string, Plain>, keys: seq<string>,
                            history: seq<PushRun>, errs: seq<Option<PushError>>)
  {
    && |history| == |errs|
    && forall i :: 0 <= i < |history| ==> PushOk(lock, group, books, keys, history[i], errs[i])
  }

  lemma {:induction false} HistoryIsPartly(md5Hex: Digest, pool: iset<Bytes>, s: State, lock: Lock, group: string,
                                           books: map<string, Plain>, keys: seq<string>,
                                           history: seq<PushRun>, errs: seq<Option<PushError>>)
    requires AllUploadable(md5Hex, pool, books) && HistoryOk(lock, group, books, keys, history, errs)
    requires Truthful(s, HistoryEvents(history)) && StoreSound(md5Hex, pool, s)
    ensures Partly(s, AfterAll(s, HistoryEvents(history)), Sums(lock, books, keys), Targets(lock, books, keys).Keys,
                   Pin(group, lock.name), lock)
    ensures StoreSound(md5Hex, pool, AfterAll(s, HistoryEvents(history)))
    decreases |history|
  {
    if history != [] {
      var first, rest := PushEvents(history[0]), HistoryEvents(history[1..]);
      TruthfulAppend(s, first, rest);
      AfterAllAppend(s, first, rest);
      PushEffect(md5Hex, pool, s, lock, group, books, keys, history[0], errs[0]);
      PushKeepsStore(md5Hex, pool, s, lock, group, books, keys, history[0], errs[0]);
      HistoryIsPartly(md5Hex, pool, AfterAll(s, first), lock, group, books, keys, history[1..], errs[1..]);
      PartlyTransitive(s, AfterAll(s, first), AfterAll(s, first + rest), Sums(lock, books, keys),
                       Targets(lock, books, keys).Keys, Pin(group, lock.name), lock);
    }
  }

  /** A failed push is safe to repeat: after any number of pushes of the same lock and cookbooks,
      stopped wherever they stopped, a successful one leaves the same store, artifacts and pins as
      one successful push alone. */
  lemma Resumable(md5Hex: Digest, pool: iset<Bytes>, s: State, lock: Lock, group: string, books: map<string, Plain>,
                  keys: seq<string>, history: seq<PushRun>, errs: seq<Option<PushError>>, last: PushRun, once: PushRun)
    requires CollisionFree(md5Hex, pool) && StoreSound(md5Hex, pool, s) && AllUploadable(md5Hex, pool, books)
    requires HistoryOk(lock, group, books, keys, history, errs)
    requires PushOk(lock, group, books, keys, last, None) && PushOk(lock, group, books, keys, once, None)
    requires Truthful(s, HistoryEvents(history) + PushEvents(last)) && Truthful(s, PushEvents(once))
    ensures var u, v := AfterAll(s, HistoryEvents(history) + PushEvents(last)), AfterAll(s, PushEvents(once));
            u.store == v.store && u.manifests == v.manifests && u.pins == v.pins && u.disk == v.disk
  {
    TruthfulAppend(s, HistoryEvents(history), PushEvents(last));
    AfterAllAppend(s, HistoryEvents(history), PushEvents(last));
    HistoryIsPartly(md5Hex, pool, s, lock, group, books, keys, history, errs);
    var t := AfterAll(s, HistoryEvents(history));
    PushEffect(md5Hex, pool, t, lock, group, books, keys, last, None);
    PushEffect(md5Hex, pool, s, lock, group, books, keys, once, None);
    PushKeepsStore(md5Hex, pool, t, lock, group, books, keys, last, None);
    PushKeepsStore(md5Hex, pool, s, lock, group, books, keys, once, None);
    var u, v := AfterAll(t, PushEvents(last)), AfterAll(s, PushEvents(once));
    Converges(s, t, u, v, Sums(lock, books, keys), Targets(lock, books, keys), Pin(group, lock.name), lock);
    SameKeysSameStore(md5Hex, pool, u, v);
  }
}
