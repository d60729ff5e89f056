/** PushRevision: every cookbook a policy lock pins is uploaded as an artifact, in the order of the
    lock's sorted names, before the lock is pinned to a group. */
module Policies {
  import opened Wrappers
  import opened Strings
  import opened CookbookDir
  import opened World
  import opened Cookbooks

  // ---------------------------------------------------------------------------
  // Sorted keys

  ghost predicate Sorted(keys: seq<string>) {
    forall i, j :: 0 <= i < j < |keys| ==> Leq(keys[i], keys[j]) && keys[i] != keys[j]
  }

  /** The keys of a map in lexical order. */
  ghost predicate IsSortedKeys(keys: seq<string>, m: map<string, string>) {
    Sorted(keys) && forall k :: k in keys <==> k in m
  }

  method SortedKeys(m: map<string, string>) returns (keys: seq<string>)
    ensures IsSortedKeys(keys, m)
  {
    keys := [];
    var left := m.Keys;
    while left != {}
      invariant left <= m.Keys && Sorted(keys)
      invariant forall k :: k in keys <==> k in m.Keys - left
    {
      var k :| k in left;
      left := left - {k};
      keys := Insert(keys, k);
    }
  }

  /** The sorting: a key is put in its place among the sorted ones. */
  method Insert(keys: seq<string>, k: string) returns (out: seq<string>)
    requires Sorted(keys) && k !in keys
    ensures Sorted(out) && forall x :: x in out <==> x in keys || x == k
  {
    var i := 0;
    while i < |keys| && Leq(keys[i], k)
      invariant 0 <= i <= |keys| && forall j :: 0 <= j < i ==> Leq(keys[j], k)
    {
      i := i + 1;
    }
    out := keys[..i] + [k] + keys[i..];
    assert keys == keys[..i] + keys[i..];
    InsertSorted(keys, i, k);
  }

  lemma InsertSorted(keys: seq<string>, i: nat, k: string)
    requires Sorted(keys) && k !in keys && i <= |keys|
    requires forall j :: 0 <= j < i ==> Leq(keys[j], k)
    requires i < |keys| ==> !Leq(keys[i], k)
    ensures Sorted(keys[..i] + [k] + keys[i..])
  {
    forall j | i <= j < |keys| ensures Leq(k, keys[j]) {
      LeqTotal(k, keys[i]);
      if i < j {
        LeqTransitive(k, keys[i], keys[j]);
      }
    }
    var out := keys[..i] + [k] + keys[i..];
    forall x, y | 0 <= x < y < |out| ensures Leq(out[x], out[y]) && out[x] != out[y] {
      assert forall j :: 0 <= j < |keys| ==> keys[j] in keys;
      assert out[x] == if x < i then keys[x] else if x == i then k else keys[x - 1];
      assert out[y] == if y < i then keys[y] else if y == i then k else keys[y - 1];
    }
  }

  /** The order is determined by the map, whatever order its keys are listed in. */
  lemma {:induction false} SortedKeysUnique(a: seq<string>, b: seq<string>)
    requires Sorted(a) && Sorted(b) && forall k :: k in a <==> k in b
    ensures a == b
  {
    if a == [] {
      assert forall k :: 0 <= k < |b| ==> b[k] in b;
    } else {
      assert a[0] in b && b != [] && b[0] in b && b[0] in a;
      FirstIsLeast(a, b[0]);
      FirstIsLeast(b, a[0]);
      LeqTotal(a[0], b[0]);
      assert a == [a[0]] + a[1..] && b == [b[0]] + b[1..];
      forall k ensures k in a[1..] <==> k in b[1..] {
        TailMembers(a, k);
        TailMembers(b, k);
      }
      SortedKeysUnique(a[1..], b[1..]);
    }
  }

  lemma FirstIsLeast(keys: seq<string>, k: string)
    requires Sorted(keys) && k in keys
    ensures Leq(keys[0], k)
  {
    LeqTotal(k, k);
    var i :| 0 <= i < |keys| && keys[i] == k;
  }

  lemma TailMembers(keys: seq<string>, k: string)
    requires Sorted(keys) && keys != []
    ensures k in keys[1..] <==> k in keys && k != keys[0]
  {
  }

  // ---------------------------------------------------------------------------
  // CookbookArtifactsService.Upload

  const ARTIFACTS := "/cookbook_artifacts"

  /** Works on a shallow copy: the caller's cookbook keeps its identifier. */
  method UploadArtifact(w: Remote, cb: LocalCookbook, identifier: string)
    returns (err: Option<UploadError>, ghost run: UploadRun)
    modifies w
    ensures UploadOk(ARTIFACTS, Value(cb).(identifier := identifier), run, err)
    ensures w.state == AfterAll(old(w.state), EventsOf(run))
    ensures w.attempts == old(w.attempts) + |EventsOf(run)|
    ensures unchanged(cb)
  {
    var copy := new LocalCookbook(cb.name, cb.version);
    copy.files := cb.files;
    copy.identifier := identifier;
    err, run := UploadCookbook(w, ARTIFACTS, copy);
  }

  // ---------------------------------------------------------------------------
  // PushRevision

  datatype PushError =
    | BadLock
    | NoIdentifier(name: string)
    | NoCookbook(name: string)
    | UploadFailed(name: string)
    | PolicyFailed

  /** The requests of a push: the uploads, with the outcome of each, and the pin when it was sent. */
  datatype PushRun = PushRun(uploads: seq<UploadRun>, errs: seq<Option<UploadError>>, pin: Option<Event>)

  function UploadEvents(uploads: seq<UploadRun>): seq<Event> {
    if uploads == [] then []
    else UploadEvents(uploads[..|uploads| - 1]) + EventsOf(uploads[|uploads| - 1])
  }

  function PushEvents(run: PushRun): seq<Event> {
    UploadEvents(run.uploads) + (if run.pin.Some? then [run.pin.value] else [])
  }

  function Values(cookbooks: map<string, LocalCookbook>): map<string, Plain>
    reads set c | c in cookbooks.Values
  {
    map n | n in cookbooks :: Value(cookbooks[n])
  }

  predicate Ready(lock: Lock, books: map<string, Plain>, name: string) {
    name in lock.identifiers && lock.identifiers[name] != "" && name in books
  }

  function Artifact(lock: Lock, books: map<string, Plain>, name: string): Plain
    requires Ready(lock, books, name)
  {
    books[name].(identifier := lock.identifiers[name])
  }

  /** The uploads follow the keys; each is an upload of its artifact, and all before the last
      succeeded. */
  ghost predicate UploadsOk(lock: Lock, books: map<string, Plain>, keys: seq<string>, run: PushRun) {
    && |run.uploads| == |run.errs| <= |keys|
    && (forall i :: 0 <= i < |run.uploads| ==>
          Ready(lock, books, keys[i])
          && UploadOk(ARTIFACTS, Artifact(lock, books, keys[i]), run.uploads[i], run.errs[i]))
    && (forall i :: 0 <= i < |run.errs| - 1 ==> run.errs[i].None?)
  }

  ghost predicate AllUploaded(run: PushRun) {
    forall i :: 0 <= i < |run.errs| ==> run.errs[i].None?
  }

  /** Why the uploads stopped: the next lock has no identifier or no cookbook, or the last upload
      failed. */
  ghost predicate Stopped(lock: Lock, books: map<string, Plain>, keys: seq<string>, run: PushRun, err: PushError)
    requires UploadsOk(lock, books, keys, run)
  {
    var n := |run.uploads|;
    if AllUploaded(run) then
      && n < |keys| && keys[n] in lock.identifiers && !Ready(lock, books, keys[n])
      && err == if lock.identifiers[keys[n]] == "" then NoIdentifier(keys[n]) else NoCookbook(keys[n])
    else
      err == UploadFailed(keys[n - 1])
  }

  /** The protocol of a push: the pin is sent only after every upload succeeded. */
  ghost predicate PushOk(lock: Lock, group: string, books: map<string, Plain>, keys: seq<string>,
                         run: PushRun, err: Option<PushError>)
  {
    && UploadsOk(lock, books, keys, run)
    && if run.pin.None? then err.Some? && Stopped(lock, books, keys, run, err.value)
       else
         && |run.uploads| == |keys| && AllUploaded(run)
         && run.pin.value.PolicyPut?
         && run.pin.value.pin == Pin(group, lock.name) && run.pin.value.lock == lock
         && err == if run.pin.value.ok then None else Some(PolicyFailed)
  }

  /** `parsed` is what parsing the lock's JSON gave. */
  method PushRevision(w: Remote, parsed: Option<Lock>, group: string, cookbooks: map<string, LocalCookbook>)
    returns (err: Option<PushError>, ghost keys: seq<string>, ghost run: PushRun)
    modifies w
    ensures w.state == AfterAll(old(w.state), PushEvents(run))
    ensures w.attempts == old(w.attempts) + |PushEvents(run)|
    ensures parsed.None? || parsed.value.name == "" ==> err == Some(BadLock) && PushEvents(run) == []
    ensures parsed.Some? && parsed.value.name != "" ==>
              && IsSortedKeys(keys, parsed.value.identifiers)
              && PushOk(parsed.value, group, Values(cookbooks), keys, run, err)
  {
    run := PushRun([], [], None);
    keys := [];
    if parsed.None? || parsed.value.name == "" {
      return Some(BadLock), keys, run;
    }
    var lock := parsed.value;
    var names := SortedKeys(lock.identifiers);
    keys := names;
    ghost var s, books := w.state, Values(cookbooks);
    err, run := UploadAll(w, lock, names, cookbooks);
    if err.Some? {
      return err, keys, run;
    }
    var ok, sent := w.PutPolicy(Pin(group, lock.name), lock);
    AfterPin(s, run, sent);
    run := run.(pin := Some(sent));
    err := if ok then None else Some(PolicyFailed);
  }

  lemma AfterPin(s: State, run: PushRun, sent: Event)
    requires run.pin.None?
    ensures AfterAll(s, PushEvents(run.(pin := Some(sent)))) == After(AfterAll(s, PushEvents(run)), sent)
    ensures |PushEvents(run.(pin := Some(sent)))| == |PushEvents(run)| + 1
  {
    assert PushEvents(run) == UploadEvents(run.uploads);
    AfterAllAppend(s, UploadEvents(run.uploads), [sent]);
    assert [sent][1..] == [];
  }

  /** The loop over the cookbook locks. */
  method UploadAll(w: Remote, lock: Lock, names: seq<string>, cookbooks: map<string, LocalCookbook>)
    returns (err: Option<PushError>, ghost run: PushRun)
    requires forall name :: name in names ==> name in lock.identifiers
    modifies w
    ensures w.state == AfterAll(old(w.state), PushEvents(run)) && run.pin.None?
    ensures w.attempts == old(w.attempts) + |PushEvents(run)|
    ensures UploadsOk(lock, Values(cookbooks), names, run)
    ensures err.None? <==> |run.uploads| == |names| && AllUploaded(run)
    ensures err.Some? ==> Stopped(lock, Values(cookbooks), names, run, err.value)
  {
    run := PushRun([], [], None);
    ghost var s, books := w.state, Values(cookbooks);
    for i := 0 to |names|
      invariant |run.uploads| == i && run.pin.None? && AllUploaded(run)
      invariant books == Values(cookbooks) && UploadsOk(lock, books, names, run)
      invariant w.state == AfterAll(s, PushEvents(run))
      invariant w.attempts == old(w.attempts) + |PushEvents(run)|
    {
      var name := names[i];
      assert name in names;
      if lock.identifiers[name] == "" {
        return Some(NoIdentifier(name)), run;
      }
      if name !in cookbooks {
        return Some(NoCookbook(name)), run;
      }
      var failed, upload := UploadArtifact(w, cookbooks[name], lock.identifiers[name]);
      AfterUpload(s, run, upload, failed);
      OneMoreUpload(lock, books, names, run, upload, failed);
      run := PushRun(run.uploads + [upload], run.errs + [failed], None);
      if failed.Some? {
        return Some(UploadFailed(name)), run;
      }
    }
    return None, run;
  }

  lemma OneMoreUpload(lock: Lock, books: map<string, Plain>, keys: seq<string>, run: PushRun,
                      upload: UploadRun, failed: Option<UploadError>)
    requires UploadsOk(lock, books, keys, run) && AllUploaded(run) && |run.uploads| < |keys|
    requires Ready(lock, books, keys[|run.uploads|])
    requires UploadOk(ARTIFACTS, Artifact(lock, books, keys[|run.uploads|]), upload, failed)
    ensures UploadsOk(lock, books, keys, PushRun(run.uploads + [upload], run.errs + [failed], None))
    ensures AllUploaded(PushRun(run.uploads + [upload], run.errs + [failed], None)) <==> failed.None?
  {
    var more := PushRun(run.uploads + [upload], run.errs + [failed], None);
    assert more.errs[|run.errs|] == failed && more.uploads[|run.uploads|] == upload;
  }

  lemma AfterUpload(s: State, run: PushRun, upload: UploadRun, failed: Option<UploadError>)
    requires run.pin.None?
    ensures |PushEvents(PushRun(run.uploads + [upload], run.errs + [failed], None))| == |PushEvents(run)| + |EventsOf(upload)|
    ensures AfterAll(s, PushEvents(PushRun(run.uploads + [upload], run.errs + [failed], None)))
            == AfterAll(AfterAll(s, PushEvents(run)), EventsOf(upload))
  {
    UploadEventsSnoc(run.uploads, upload);
    AfterAllAppend(s, UploadEvents(run.uploads), EventsOf(upload));
    assert PushEvents(run) == UploadEvents(run.uploads);
    var more := PushRun(run.uploads + [upload], run.errs + [failed], None);
    assert PushEvents(more) == UploadEvents(more.uploads);
  }

  lemma UploadEventsSnoc(uploads: seq<UploadRun>, upload: UploadRun)
    ensures UploadEvents(uploads + [upload]) == UploadEvents(uploads) + EventsOf(upload)
  {
    assert (uploads + [upload])[..|uploads|] == uploads;
  }
}
