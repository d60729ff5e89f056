/** Whole runs: any number of uploads, pushes and downloads, one after another, with any outcomes. */
module Session {
  import opened Wrappers
  import opened Bytes
  import opened World
  import opened Cookbooks
  import opened Policies
  import opened PushSafety
  import D = Download

  datatype Act =
    | Upload(base: string, cb: Plain, upload: UploadRun, uploadErr: Option<UploadError>)
    | Push(lock: Lock, group: string, books: map<string, Plain>, keys: seq<string>, push: PushRun, pushErr: Option<PushError>)
    | Download(key: Key, resolve: D.Resolver, download: D.DownloadRun, downloadErr: Option<D.DownloadError>)

  ghost predicate ActOk(md5Hex: Digest, pool: iset<Bytes>, a: Act) {
    match a
    case Upload(base, cb, run, err) => Uploadable(md5Hex, pool, cb) && UploadOk(base, cb, run, err)
    case Push(lock, group, books, keys, run, err) =>
      && AllUploadable(md5Hex, pool, books)
      && IsSortedKeys(keys, lock.identifiers) && PushOk(lock, group, books, keys, run, err)
    case Download(key, resolve, run, err) => D.DownloadOk(key, resolve, run, err)
  }

  function ActEvents(a: Act): seq<Event> {
    match a
    case Upload(_, _, run, _) => EventsOf(run)
    case Push(_, _, _, _, run, _) => PushEvents(run)
    case Download(_, _, run, _) => [run.got] + run.transfer.events
  }

  function SessionEvents(acts: seq<Act>): seq<Event> {
    if acts == [] then [] else ActEvents(acts[0]) + SessionEvents(acts[1..])
  }

  lemma {:induction false} GetsAreGuarded(md5Hex: Digest, pool: iset<Bytes>, s: State, events: seq<Event>)
    requires forall e :: e in events ==> e.FileGot? || e.ManifestGot?
    ensures Guarded(md5Hex, pool, s, events)
    decreases |events|
  {
    if events != [] {
      assert events[0] in events;
      assert forall e :: e in events[1..] ==> e in events;
      GetsAreGuarded(md5Hex, pool, After(s, events[0]), events[1..]);
    }
  }

  /** A push that gets to send its pin has all the lock's artifacts on the server, or among its
      cookbooks, when it starts. */
  ghost predicate Backed(s: State, a: Act) {
    a.Push? && a.push.pin.Some? ==> WillBeBacked(s, a.lock, a.books)
  }

  /** Each push is backed in the state the session has reached. */
  ghost predicate SessionBacked(s: State, acts: seq<Act>)
    decreases |acts|
  {
    acts == [] || (Backed(s, acts[0]) && SessionBacked(AfterAll(s, ActEvents(acts[0])), acts[1..]))
  }

  lemma ActIsGuardedIff(md5Hex: Digest, pool: iset<Bytes>, s: State, a: Act)
    requires ActOk(md5Hex, pool, a) && Truthful(s, ActEvents(a))
    ensures Guarded(md5Hex, pool, s, ActEvents(a)) <==> Backed(s, a)
  {
    match a {
      case Upload(base, cb, run, err) => UploadIsGuarded(md5Hex, pool, s, base, cb, run, err);
      case Push(lock, group, books, keys, run, err) =>
        PushIsGuardedIff(md5Hex, pool, s, lock, group, books, keys, run, err);
      case Download(key, resolve, run, err) =>
        if run.got.manifestReply.Some? {
          D.FetchedFor(key, resolve, run, err);
        }
        GetsAreGuarded(md5Hex, pool, s, ActEvents(a));
    }
  }

  /** Every request of a session is safe when it is sent exactly when each push is backed. */
  lemma {:induction false} SessionIsGuardedIff(md5Hex: Digest, pool: iset<Bytes>, s: State, acts: seq<Act>)
    requires forall a :: a in acts ==> ActOk(md5Hex, pool, a)
    requires Truthful(s, SessionEvents(acts))
    ensures Guarded(md5Hex, pool, s, SessionEvents(acts)) <==> SessionBacked(s, acts)
    decreases |acts|
  {
    if acts != [] {
      var first, rest := ActEvents(acts[0]), SessionEvents(acts[1..]);
      assert acts[0] in acts;
      assert forall a :: a in acts[1..] ==> a in acts;
      TruthfulAppend(s, first, rest);
      ActIsGuardedIff(md5Hex, pool, s, acts[0]);
      SessionIsGuardedIff(md5Hex, pool, AfterAll(s, first), acts[1..]);
      GuardedAppend(md5Hex, pool, s, first, rest);
    }
  }

  /** Pushes of cookbooks called what their locks are called are backed. */
  lemma {:induction false} AgreeingSessionIsBacked(md5Hex: Digest, pool: iset<Bytes>, s: State, acts: seq<Act>)
    requires forall a :: a in acts ==> ActOk(md5Hex, pool, a) && (a.Push? ==> NamesAgree(a.lock, a.books))
    ensures SessionBacked(s, acts)
    decreases |acts|
  {
    if acts != [] {
      var a := acts[0];
      assert a in acts;
      assert forall b :: b in acts[1..] ==> b in acts;
      if a.Push? && a.push.pin.Some? {
        NamesAgreeBacks(s, a.lock, a.group, a.books, a.keys, a.push, a.pushErr);
      }
      AgreeingSessionIsBacked(md5Hex, pool, AfterAll(s, ActEvents(a)), acts[1..]);
    }
  }

  /** At every point of every run, from an empty server or any safe one: what is stored has its
      checksum, every manifest's files are stored, and every pinned lock's artifacts are there. */
  lemma SessionIsSafe(md5Hex: Digest, pool: iset<Bytes>, s: State, acts: seq<Act>, k: nat)
    requires Safe(md5Hex, pool, s) || (s.store == map[] && s.manifests == map[] && s.pins == map[])
    requires (forall a :: a in acts ==> ActOk(md5Hex, pool, a)) && SessionBacked(s, acts)
    requires Truthful(s, SessionEvents(acts)) && k <= |SessionEvents(acts)|
    ensures Safe(md5Hex, pool, AfterAll(s, SessionEvents(acts)[..k]))
  {
    SessionIsGuardedIff(md5Hex, pool, s, acts);
    GuardedKeepsSafe(md5Hex, pool, s, SessionEvents(acts), k);
  }
}
