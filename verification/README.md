# A verified model of the Chef/CINC client's core

The client of this repository is mostly thin HTTP wrappers. This project models the parts that are
not, and proves what they promise:

- **Bounded parallel runner** (`Parallel.dfy`). `parallelForEach` as a machine of atomic steps: a
  launcher with a program counter, goroutines with stages, a semaphore of capacity 8, a wait group, a
  mutex, sticky cancellation and `firstErr`. Every theorem is about every interleaving and every result
  of `fn`. The deferred slot release comes before the deferred `wg.Done`, and the launcher tests the
  context before it blocks on the semaphore, as in the source.
- **Upload, download and push** (`World.dfy`, `Transfers.dfy`, `Cookbooks.dfy`, `Download.dfy`,
  `Policies.dfy`, `PushSafety.dfy`, `Session.dfy`). The requests are events; the state of the server and
  of the disk is the fold of the events. Any request may fail, a failed one may still have taken effect,
  and the server may answer anything. `Truthful` says which runs have honest answers; the order and
  number of requests are proved without it, the safety of the state with it. The transfers run the
  machine of `Parallel.dfy` under an arbitrary scheduler.
- **The pruned directory walk** (`Strings.dfy`, `Paths.dfy`, `Chefignore.dfy`, `CookbookDir.dfy`). Glob
  matching is an arbitrary predicate. `path.Dir`, `path.Base` and `path.Clean` are modelled on strings.
- **Encrypted data bags** (`Base64.dfy`, `Padding.dfy`, `DataBag.dfy`, `CryptoLaws.dfy`). AES, GCM, HMAC,
  SHA-256 and JSON printing are arbitrary functions with the laws of `Lawful`; `CryptoLaws.dfy` exhibits
  functions that obey them. Base64, padding, chaining, wrapping and the loops over items are modelled in
  full.
- **Retry and paging loops** (`Transport.dfy`, `Search.dfy`), **request signing** (`Signing.dfy`) and
  **ACL member lists** (`Acls.dfy`).

Where the code and its documentation disagree the model follows the code:

- The comment of `parallelForEach` says a cancelled parent's error is returned when no work failed. With
  no items the function returns nil without looking at the context
  (`Parallel.CancelledParentIgnoredIffEmpty`). In the other direction the context's error is returned
  even when every call succeeded, if the parent is done before the last test
  (`Parallel.AllSucceededYetContextError`). A parent that is done is reported exactly when its
  cancellation has reached the derived context by then (`Parallel.DoneParentReportedIff`,
  `Parallel.DoneParentUnnoticed`).
- A push pins a lock whose artifact may be missing when a cookbook's own name differs from the lock's:
  artifacts are stored under the cookbook's name (`PushSafety.MisnamedCookbookIsNotBacked`); the exact
  condition is `WillBeBacked` (`PushSafety.PinIsBackedIff`).
- `RemoveMembers` is documented to remove each member; it removes one occurrence for each time a member
  is named, so a listed duplicate can remain (`Acls.DuplicateRemains`; exactly when,
  `Acls.GoneIff`).
- Three wrapper versions are documented; a version is truncated to an integer before it is compared, so
  3.7 is read as version 3 (`DataBag.FractionIsDropped`; exactly when, `DataBag.AcceptedIff`).

## Model

| member | source | states |
|---|---|---|
| Parallel.StepKeepsInv | parallel.go:31-57 | every step of the launcher, a goroutine or the parent keeps slots and wait-group counts exact, mutual exclusion, and the meaning of `firstErr` and of the result |
| Parallel.ResultTheorem | parallel.go:19-58 | in every interleaving: nil means one successful call per item; an error is the one of the first goroutine to take the mutex and is returned whenever a call failed; the context's error means the parent was done, its cancellation had reached the runner, and nothing failed |
| Parallel.FirstErrRaceFree | parallel.go:44-56 | `firstErr` is assigned at most once, under mutual exclusion, and read only when no goroutine can take a step any more |
| Parallel.BoundedFanOut | parallel.go:12-39 | at most eight calls of `fn` are in flight in every reachable state |
| Parallel.CancelledStopsWork | parallel.go:31-42 | once cancelled, the launcher starts at most one more goroutine, and one that still has to test the context never calls `fn` |
| Parallel.CancelLeavesSeven | parallel.go:43-50 | when a goroutine cancels, at most seven other calls can still start or finish, in every continuation |
| Parallel.RunIsMonotone | parallel.go:45-57 | cancellation, the first error and the returned result never change once set, over any run |
| Parallel.DoneParentIsReported | parallel.go:54-57 | a cancellation of the parent that reaches the runner before it returns is never answered with nil |
| Parallel.DoneParentReportedIff | parallel.go:57-57 | at the final test the context's error is returned exactly when the parent's cancellation has reached the derived context, nil otherwise |
| Parallel.DoneParentUnnoticed | parallel.go:15-18 | a run in which the parent is done before the final test and nil is returned |
| Parallel.CancelledParentIgnoredIffEmpty | parallel.go:20-22 | a parent done from the start yields nil exactly when there are no items |
| Parallel.AllSucceededYetContextError | parallel.go:57-57 | a concrete run in which every call succeeds and the context's error is returned |
| Parallel.NoDeadlock | parallel.go:35-53 | in every reachable state before the return a launcher or goroutine step is enabled; when the launcher is blocked the eight slots are all held, and one of their holders can move |
| Parallel.Terminates | parallel.go:31-57 | every run takes at most 13 steps an item and 4 more, whatever `fn` returns |
| Transfers.ParallelForEach | parallel.go:19-58 | the runner with requests as `fn`, under any scheduler: it returns; each item is requested at most once, with one HTTP attempt; nil exactly when all were requested and succeeded and no cancellation of the parent reached the runner, an error exactly when a request failed, the context's error otherwise |
| Chefignore.ParseChefignore | chefignore.go:39-49 | the trimmed non-blank non-comment lines in order, each without surrounding space or newline |
| Chefignore.LinePattern | chefignore.go:39-49 | each line adds its text without the space around it, or nothing when that is empty or begins with "#", in the order of the lines |
| Chefignore.ParseAgain | chefignore.go:36-49 | writing the patterns back one a line and parsing again gives the same patterns |
| Paths.DirShortens | chefignore.go:86-93 | for any string, clean or not, taking the parent strictly decreases a measure, so the ancestor loop ends |
| Paths.DirOfNames | chefignore.go:88-91 | the parent of a clean relative path is the path of its outer names |
| Paths.BaseOfNames | chefignore.go:87-90 | the base of a clean relative path is its innermost name |
| Chefignore.ChefignoreCandidates | chefignore.go:86-94 | the loop ends for every string and collects the path, its base, and each ancestor with its base |
| Chefignore.CandidatesOfNames | chefignore.go:83-94 | the candidates of a clean path are exactly the path, its ancestors and the names on the way |
| Chefignore.CandidatesGrow | chefignore.go:83-94 | what lies beneath a directory has every candidate of the directory |
| Chefignore.Ignores | chefignore.go:68-81 | true exactly when some pattern matches some candidate of a path other than the empty one and "." |
| Chefignore.IgnoredMeans | chefignore.go:60-65 | a clean path is ignored exactly when a pattern matches the path, an ancestor, or a name on the way, for every matcher |
| Chefignore.IgnoredBeneath | chefignore.go:60-65 | everything beneath an ignored directory is ignored |
| CookbookDir.PrunedIsFlat | cookbooks.go:355-383 | for every tree, pattern list and matcher the pruned walk visits the same files in the same order as walking everything and leaving out what is ignored |
| CookbookDir.WalkDir | cookbooks.go:355-383 | the walk appends exactly the files of the pruned visits, or stops at the first unreadable path |
| CookbookDir.LocalCookbookFromDir | cookbooks.go:349-391 | patterns come from the readable file named "chefignore" at the root, or there are none; with them the cookbook holds exactly the listed, readable files that are not ignored, in walk order; errors for a "chefignore" that cannot be read as a file, for the first unreadable path that is not ignored, and for no files |
| CookbookDir.ChefignoreRead | chefignore.go:25-34 | which file of a directory the patterns are read from, and when that fails |
| CookbookDir.FlatIsAssembled | cookbooks.go:355-391 | the files are exactly those listed with content and not ignored; the error names the first unreadable path not ignored, or that there are no files |
| CookbookDir.ListingIsTree | cookbooks.go:355-383 | the full walk visits exactly what lies in the tree, each under its path |
| CookbookDir.FilesInOrder | cookbooks.go:355-383 | the files are in the order of their paths, name by name, when directories list their entries in lexical order |
| CookbookDir.FlatCookbookIsReady | cookbooks.go:343-349 | the files of a directory have distinct clean paths and their digests, and are exactly the readable listed files that are not ignored |
| CookbookDir.GatherMeans | cookbooks.go:372-382 | the walk succeeds exactly when every visit could be read, and yields a file for each file visited and no other |
| Cookbooks.CookbookManifest | cookbooks.go:317-341 | the loop builds the manifest of the cookbook, artifact variant exactly when an identifier is set |
| Cookbooks.ManifestSays | cookbooks.go:317-341 | every field of the manifest of a cookbook version and of an artifact, with a reference for each file in order |
| Cookbooks.CollectJobs | cookbooks.go:278-287 | the loop with the `seen` set collects one job for the first file of each needed checksum |
| Cookbooks.NeededJobsMeans | cookbooks.go:272-287 | each job sends a file's content to the URL signed for its checksum; checksums are distinct; a checksum has a job exactly when a file has it and the server needs it |
| Cookbooks.NeededJobsFollow | cookbooks.go:278-287 | the jobs follow the order of the files, each with the name and content of the first file with its checksum |
| Cookbooks.ChecksumSet | sandboxes.go:25-33 | the request names exactly the set of checksums |
| Cookbooks.UploadCookbook | cookbooks.go:263-312 | for every answer, failure, cancellation and interleaving the requests follow the protocol, go on exactly when every transfer succeeded and no cancellation arrived, and determine the error; every request is one HTTP attempt |
| Cookbooks.UploadSends | cookbooks.go:263-312 | a successful upload names the files' checksums in the sandbox, commits that sandbox, and puts the manifest under the cookbook's name and its version, or its identifier when it has one |
| Cookbooks.VersionsCoexist | cookbooks.go:300-311 | two versions of a cookbook uploaded one after the other are both there, each under its own version |
| Cookbooks.UploadOrder | cookbooks.go:268-310 | the sandbox comes first, then the PUTs and nothing else, then the commit, and a manifest only right after a successful commit |
| Cookbooks.PutOnce | cookbooks.go:272-294 | no checksum is PUT twice in an upload |
| Cookbooks.StoredBeforeCommit | cookbooks.go:289-299 | with honest answers every file of the cookbook is stored when the commit is sent |
| Cookbooks.UploadIsGuarded | cookbooks.go:262-312 | every request is safe when it is sent, wherever the upload stops; only its own checksums and its own manifest are added, all of them on success |
| World.GuardedKeepsSafe | cookbooks.go:262-312 | safe requests keep at every point: contents match their checksums, manifests' files are stored, pinned artifacts exist |
| Download.AllFiles | cookbooks.go:106-120 | the flat list followed by the nine segments in order |
| Download.DownloadCookbook | cookbooks.go:206-231 | the whole plan is validated before any file is fetched; then each file is fetched at most once with one attempt, and the download succeeds exactly when all were fetched and no cancellation arrived; only the manifest request is retried |
| Download.PlanMeans | cookbooks.go:215-223 | a plan exists exactly when every path is safe, and has the job of each reference in order |
| Download.FirstUnsafe | cookbooks.go:215-221 | the path reported is the first unsafe one |
| Download.UnsafePathStopsEverything | cookbooks.go:211-221 | one unsafe path anywhere means that nothing is fetched or written |
| Download.DownloadStaysInside | cookbooks.go:217-230 | a download, even a failing one, writes nowhere but where the manifest's paths resolve to |
| Download.DownloadRebuilds | cookbooks.go:206-259 | downloading a held cookbook writes exactly its files |
| Download.UploadHolds | cookbooks.go:300-311 | after a successful upload the server holds the manifest and every file's own content, through any further safe requests |
| Download.UploadThenDownload | cookbooks.go:197-231 | upload then download is the identity on files, with shared contents sent once |
| Download.DirectoryRoundTrip | cookbooks.go:197-391 | a directory read into a cookbook, uploaded and downloaded puts every readable file that is not ignored in its place with its content, and changes nothing else on disk |
| Policies.SortedKeys | policies.go:172-179 | the keys of the map, each once, in lexical order |
| Policies.SortedKeysUnique | policies.go:170-179 | that order is determined by the map |
| Strings.LeqIsLexical | policies.go:170-179 | the order is lexical: a prefix comes first, and otherwise the first differing character decides |
| Policies.UploadArtifact | cookbook_artifacts.go:63-72 | uploads under the identifier and leaves the caller's cookbook as it was |
| Policies.PushRevision | policies.go:149-168 | uploads follow the sorted locks and stop at the first missing identifier, missing cookbook or failure; the pin is sent only after all of them succeeded; every request is one HTTP attempt |
| PushSafety.UploadsEffect | policies.go:154-166 | any prefix of the uploads is safe and adds only the push's own checksums and artifacts; all of them add exactly those |
| PushSafety.PinIsBackedIff | policies.go:163-167 | when the pin is sent its artifacts are all in place exactly when `WillBeBacked` held before the push |
| PushSafety.PushIsGuardedIff | policies.go:149-168 | every request of a push is safe when it is sent exactly when the pin is not sent or `WillBeBacked` held before the push |
| PushSafety.PushIsGuarded | policies.go:149-168 | when cookbooks are called what their locks are called, every request of a push is safe, failing or not |
| PushSafety.MisnamedCookbookIsNotBacked | cookbooks.go:302-307 | on a server without artifacts a push of a cookbook under another name succeeds, with honest answers throughout, and leaves the lock pinned without its artifact and the state unsafe |
| PushSafety.HistoryIsPartly | policies.go:145-148 | any number of pushes with any outcomes changes nothing but the push's own checksums, artifacts and pin |
| PushSafety.Resumable | policies.go:145-148 | after any number of pushes stopped anywhere, a successful one leaves the same store, artifacts and pins as one successful push alone |
| Session.SessionIsGuardedIff | cookbooks.go:197-312 | every request of a whole run is safe when it is sent exactly when each push that sends its pin is backed when it starts |
| Session.SessionIsSafe | cookbooks.go:197-312 | over whole runs of uploads, pushes and downloads with any outcomes, in which each push is backed when it starts, the state is safe at every point |
| Base64.DecodeEncode | databag_crypto.go:229-232 | decoding undoes encoding (section 4 of RFC 4648) |
| Base64.AlphabetIs | databag_crypto.go:223-232 | the alphabet of table 1 of RFC 4648, in both directions |
| Base64.EncodeGroupMeans | databag_crypto.go:229-232 | the characters of a group carry its bits six by six, with "=" for missing bytes |
| Base64.DecodesIff | databag_crypto.go:223-227 | text decodes exactly when its length is a multiple of four and it is digits followed by at most two "=" |
| Base64.DecodeWithWhitespace | databag_crypto.go:223-227 | text that is an encoding up to inserted whitespace decodes to the bytes |
| Base64.ConcatFields | databag_crypto.go:225-227 | joining the fields is dropping the spaces |
| Padding.Pkcs7Unpad | databag_crypto.go:341-356 | the loop computes the unpadding with every index in range, for every positive block size |
| Padding.UnpadMeans | databag_crypto.go:341-356 | for every positive block size, unpadding gives a message exactly on whole blocks that continue it by at most a block of filler |
| Padding.UnpadInvertsPad | databag_crypto.go:340-356 | unpadding gives a message exactly on that message's padding, for every block size 1 to 255 (section 6.3 of RFC 5652) |
| Padding.CbcInverts | databag_crypto.go:314-315 | chaining is undone for every block cipher with an inverse (section 6.2 of NIST SP 800-38A) |
| Padding.CbcBlocks | databag_crypto.go:314-315 | the writer chains every block to the ciphertext before it, the first to the initialization vector |
| Padding.XorBlockMeans | databag_crypto.go:314-315 | the exclusive or of two blocks, bit by bit |
| Padding.CryptBlocks | databag_crypto.go:314-315 | the buffer is filled with the chained decryption |
| DataBag.DecryptCBCBuffered | databag_crypto.go:295-321 | with its buffer and each error case, decryptCBC computes what the value model does, and gives the block decrypter the ciphertext once when it is well formed and nothing otherwise |
| DataBag.DecryptEncryptV3 | databag_crypto.go:235-292 | a version 3 wrapper written with any nonce parses and opens to its value |
| DataBag.V3Says | databag_crypto.go:235-265 | the five fields of a version 3 wrapper: the nonce, GCM's output of the boxed value cut before its last sixteen bytes, version and cipher |
| DataBag.DecryptWritten | databag_crypto.go:176-197 | every version 1 or 2 wrapper of a conforming writer decrypts to its value, with whitespace anywhere in the text |
| DataBag.AcceptedIff | databag_crypto.go:133-173 | a value is accepted exactly when it is an object whose version is at least 1 and below 4 with the fields of its whole part; the version read is the one written exactly when that is whole |
| DataBag.FractionIsDropped | databag_crypto.go:138-142 | a wrapper whose version is any fraction above 3 is read as the one that says 3 |
| DataBag.DecryptStored | databag_crypto.go:176-197 | parsing and decrypting a stored value; a version 2 wrapper whose MAC differs is refused with the block decrypter never called |
| DataBag.DecryptAnswers | databag_crypto.go:133-356 | each answer exactly, from the fields and the primitives: the boxed value; not encrypted when it is no wrapper or a field that is read does not decode or has a bad length; failed authentication in every other case |
| DataBag.WrongSecret | databag_crypto.go:94-100 | under no secret is an encrypted value "not encrypted"; a secret whose key GCM refuses fails authentication and decrypts nothing |
| DataBag.MacBeforeDecrypter | databag_crypto.go:182-187 | what a stored version 2 value with another MAC is answered, which neither the block decrypter nor the JSON reader can influence |
| DataBag.Encrypt | databag_crypto.go:72-92 | keeps keys and id and seals every other value, in any order of the keys, no two under the same read of the random source; succeeds exactly when there is a non-empty string id and a read for each of the other values |
| DataBag.Decrypt | databag_crypto.go:101-119 | decrypts every value but the id to what its wrapper holds, or returns the exact error of one that cannot be; the block decrypter sees only version 1 ciphertexts and version 2 ones whose MAC matches |
| DataBag.IsEncrypted | databag_crypto.go:54-66 | true exactly when there is a value besides the id and each parses as a wrapper |
| DataBag.RoundTrip | databag_crypto.go:68-119 | what Encrypt returned always decrypts, to the item and nothing else; it is reported as encrypted exactly when it has a value besides the id |
| DataBag.EncryptThenDecrypt | databag_crypto.go:68-119 | run one after the other they give the item back exactly when it has an id and the random source supplies a nonce for each value |
| Transport.DoRaw | transport.go:18-35 | returns the first attempt that is not retried among those allowed, after exactly that many attempts; anything but a GET is attempted once |
| Transport.RetriableMeans | transport.go:26-45 | retried are responses of 500 and above, and the lack of one that the caller's context is not to blame for |
| Transport.ApplyRetryOptions | options.go:73-79 | the last natural number set wins, negative ones are dropped |
| Transport.LastNaturalMeans | options.go:43-79 | two retries unless a natural number is set, then the last one set |
| Transport.QueryIsNotSigned | transport.go:57-66 | a request is signed the same with any query or none |
| Search.SearchService.Query | search.go:48-66 | a page of the stable result for the options' last values, or the error of its request; a projection is never retried |
| Search.SearchService.SearchAll | search.go:71-104 | for what the options ask for (the last of each kind, or else row 0, 1000 rows a page, no projection): all rows from the start on, in order, none lost or repeated; at most one call a row, with full pages exactly max(1, ceil) calls and no more when it fails; fails exactly when a call fails, with its error and no call after it; HTTP attempts bounded by the retry count, one a call for a projection |
| Search.ParamsAskedFor | search.go:48-53 | the parameters are exactly what the options ask for |
| Search.PagesNeeded | search.go:98-102 | the number of full pages is the ceiling of rows over page size |
| Signing.CanonicalPath | internal/signing/signing.go:29-57 | fast path and byte loop both render the route of the path |
| Signing.CanonicalDecides | internal/signing/signing.go:28-57 | two paths have one canonical form exactly when they have the same non-empty segments and leading slash; canonicalising is idempotent and leaves no double or trailing slash |
| Signing.CanonicalRequest | internal/signing/signing.go:67-85 | the writes produce the seven lines of the string to sign, each with its label |
| Signing.StringToSignDecides | internal/signing/signing.go:59-85 | without newlines in the fields, equal strings to sign mean exactly equal fields and paths of the same route |
| Signing.ServerRebuilds | internal/signing/signing.go:59-85 | from the headers a server rebuilds the signed string exactly for the signed method and any spelling of the signed path |
| Signing.Chunk60 | internal/signing/signer.go:15-25 | the pieces give the text back, are exactly as many as allotted, and are full but for a last non-empty one |
| Signing.SignHeaders | internal/signing/signer.go:28-47 | the headers are the five fixed ones and "X-Ops-Authorization-" with each numeral from 1 to the number of pieces; collecting the numbered ones from 1 until one is missing gives the text of the signature of the string to sign; fails exactly when signing fails |
| Signing.ItoaIsDecimal | internal/signing/signer.go:43-45 | the numerals are decimal, without leading zeros |
| Acls.ACE.AddMembers | acls.go:19-27 | both lists become the added ones, and a change is reported exactly when a list changed |
| Acls.ACE.RemoveMembers | acls.go:32-40 | both lists become the removed ones, and a change is reported exactly when a list changed |
| Acls.AddTo | acls.go:44-53 | reports a change exactly when some member was missing |
| Acls.RemoveFrom | acls.go:57-66 | reports a change exactly when the multisets of members and list intersect |
| Acls.AddedMeans | nodes.go:126-134 | adding keeps the list as a prefix, makes every member present, and adds nothing else and no duplicate |
| Acls.AddedInOrder | acls.go:44-53 | what is appended are the missing members in the order they are first named |
| Acls.RemovedIsDifference | acls.go:57-66 | removal is multiset difference |
| Acls.RemovesLeftmost | acls.go:57-66 | the occurrence removed is the leftmost |
| Acls.GoneIff | acls.go:29-31 | a member is gone exactly when it was named at least as often as it was listed |
| Acls.DuplicateRemains | acls.go:29-31 | a member listed twice and named once stays |
| Acls.RemovedIsWithout | nodes.go:137-145 | on a list without duplicates removal is the filter that node tags use |
| Acls.AddThenRemove | acls.go:44-66 | adding members that were not listed and removing them again restores the list exactly |

## Left out

- HTTP, TLS, contexts as values, file I/O, key parsing, RSA: requests and reads are steps that succeed or fail.
- Panics of `fn`, fairness of the Go scheduler, and memory models weaker than interleaving.
- Other clients of the server, and stores that lose contents: the server changes only by the requests modelled.
- Server-side checks of manifests and commits: the server may accept anything, so safety rests on the client.
- Error texts and wrapping: errors are distinguished by where they arise.
- `path.Match`, `filepath.Join`, `filepath.Rel`, symbolic links and separators: the matcher and the resolver of destinations are arbitrary functions.
- AES, GCM, HMAC, SHA-256, MD5 and JSON internals: functions with laws; a digest collision is excluded only where contents are compared.
- JSON numbers that are not finite, and the conversion of huge ones to int.
- The lock's JSON: a push sends a parsed lock, and parsing is its result. Byte-for-byte identity is not claimed.
- Padding.UnpadInvertsPad: block sizes above 255 are not covered, because section 6.3 of RFC 5652 does not define padding for them; `Padding.UnpadMeans` says what the code does there.
- Search.SearchService.SearchAll: a server whose total or rows change between pages is not covered, because no completeness holds there; preallocation of the result slice is not modelled.
- Signing.SignHeaders: `http.Header` canonicalises the case of its keys, which keeps them distinct and is not modelled.
- Acls.RemoveFrom: `slices.Delete` shifts in place and so is visible through other slices of the same array; the lists here are values.
- `nil` and empty slices are not distinguished, nor a nil `Chefignore` from one without patterns.
- The services that are one request each, attribute lookup, `ExpandPerm`, `ACEFor`, `Origin`, `PinnedVersion`, `ParseServerURL`: single-branch readings with nothing to prove.
