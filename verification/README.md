# A verified model of octoserve

octoserve is an OCI registry whose nodes hold blobs under the SHA-256 of their content, accept them in one piece or in
chunks, store manifests under tags and digests, and replicate and fetch both among each other. This project models that
behaviour in Dafny and proves what the registry is for. The files verify together, with `dafny verify dfyconfig.toml` and
no other options.

The hash is a parameter `sha` that is never looked into; where it matters a statement asks that it prints hexadecimal
digits, or 64 of them. Collision-freedom is not a fact about all contents (no hash with a fixed length has it) but is
asked for by name, and only of the contents that a statement is about.

| File | What it holds |
|---|---|
| `Common`, `Text`, `Decimal`, `Sums` | bytes, digests, and the string and number functions of Go's standard library |
| `Paths`, `Files` | where the store keeps what, and what a positional write does to a file |
| `Existence` | when a directory at a blob's path is taken for the blob |
| `Publication`, `PutBlobCall`, `Blobs`, `Placing` | `PutBlob` system call by system call with inodes, directories, crashes and other writers; that one call is the single action of `Blobs`, if nothing is in its way as `Placing` has it |
| `Uploads`, `UploadStore`, `ContentRange`, `Traffic` | upload sessions as functions and as the objects that compute them, the PATCH and PUT protocol, the session gauge, and what puts leave in each other's way |
| `Manifests`, `Tags` | manifests as files with tag and digest aliases, listing tags page by page |
| `Cluster`, `Dangling` | many nodes, each with a disk of `Publication`, and a network that loses, doubles, delays and damages: content addressing, referential integrity, and when a reference dangles |
| `Streaming`, `Replication`, `ScatterGather`, `ReadThrough` | blobs as chunk streams, choosing and counting replicas, asking all peers at once, reading through them |
| `PeerManager`, `HealthChecks`, `PeerTable`, `PeerAddress` | the peer manager's threads, locks, worker pool and channels; what its health checks find out; its tables; peer addresses |

## Where the code does less than it seems

* Two `PutBlob` calls for one digest share a temporary file, and can publish bytes that do not hash to their name
  (`Publication.OverlapPublishesWrongBytes`). Two fetches, or an upload and a replica of one blob at one node, are such
  calls. `Publication.SafeExactlyWhenOverlapsAreHarmless` says exactly when one disk is safe, and
  `Cluster.ContentSafeExactlyWhenOverlapsAreHarmless` lifts it to any cluster.
* `BlobExists` takes anything at a blob's path for the blob, and nothing checks the digests in a manifest. A manifest may
  refer to `sha256:ab` when a longer blob lies below that path, to `.` on an empty store, to `../manifests/r`, or to any
  file of the machine, and no node holds what it refers to. `Dangling.NeverDanglesExactlyWhen` says exactly which
  references are safe, whatever text they are, and `Dangling.AcceptedNeverDanglesExactlyWhen` which digests.
* The digest in the query of an upload is not checked either. An attempt to put `sha256:<hex>/0` is refused, but makes the
  path of `sha256:<hex>` a directory, and no put of that blob succeeds any more (`Traffic.RefusedPutBlocksADigest`).
  `Traffic.PlaceableExactlyWhen` says after which traffic a blob can be put, and
  `Traffic.AcceptedUploadCompletesExactlyWhen` that it always can while all puts name accepted digests.
* A blob that is deleted while a manifest that refers to it is being checked leaves the manifest dangling
  (`Dangling.DeletionDuringPushBreaksIntegrity`); `Cluster.DeletionKeepsIntegrityExactlyWhen` says which deletions do no
  harm, and every run whose deletions meet this guard keeps integrity (`Cluster.EveryReferenceResolves`).
* A copy that breaks off leaves its bytes behind the accepted chunks, and the digest of the chunks may then be refused
  (`Uploads.FailedCopyCanSpoilTheUpload`); `Uploads.UploadCompletesExactlyWhen` says exactly when.
* The comment at `internal/api/handlers/uploads.go:145` says that a PUT without a range continues at the current offset.
  An absent header parses as 0, so the body is written over the start of the file
  (`Uploads.PutWithoutRangeContinuesOnlyFromZero`).
* A manifest's digest is not serialised: it is empty when the manifest is read back, in the referrers list, and after
  replication. A manifest is listed among the referrers once for each key of its put: twice when it was put under a tag
  (`Manifests.ListedOncePerKey`).
* Repositories that differ in `/` against `_` share their directory, and putting a tag `t` removes the tag `t.tmp`.
  `Manifests.StoreRefinesTheMapExactlyWhenApart` says for which sets of keys the store is a map all the same, and
  `Manifests.WriteSparesExactlyWhen` which file a put takes away.
* Two addresses with hosts in brackets can get one generated peer ID; `PeerAddress.SameIdExactlyWhen` says exactly when.

## Model

| member | source | states |
|---|---|---|
| Paths.BlobPathShape | internal/storage/filesystem/store.go:49-73 | where the blob of an accepted digest lies, algorithms "." and ".." included |
| Paths.BlobPathOfName | internal/storage/filesystem/store.go:49-73 | the names in that path and in the path of the temporary file, letter by letter, for an algorithm that is a name: two levels of two digits for four digits or more, none for fewer |
| Paths.AcceptedExactlyWhen | internal/api/middleware/validation.go:20 | which texts count as digests: an algorithm of letters, digits, "+", "." and "-", a colon, and hexadecimal digits in either case |
| Paths.BlobPathInjective | internal/storage/filesystem/store.go:49-73 | no two accepted digests share a file |
| Paths.TempPathIsNoBlobPath | internal/storage/filesystem/store.go:110 | no temporary file, for any digest text, is the file of an accepted digest |
| Publication.StoreIsSeparated | internal/storage/filesystem/store.go:49-110 | the store's layout gives the protocol what it needs: injective final paths, disjoint from temporary ones, and neither among the directories above them or those of the store |
| Publication.StepIsAtomic | internal/storage/filesystem/store.go:101-144 | any step of any call keeps the invariant, and changes no blob unless it is the rename of a verified content, which publishes the whole of it under its digest, or a deletion |
| Publication.RunsKeepInv | internal/storage/filesystem/store.go:101-144 | the invariant, with every published file hashing to its digest, holds after any interleaving of calls, failures, deletions and crashes |
| Publication.PublishedBytesAreStable | internal/storage/filesystem/store.go:88-167 | in every run of writers, deletions and crashes, an inode that a reader of an accepted digest has open keeps its bytes, also after its name is gone or leads elsewhere |
| Publication.OverlapPublishesWrongBytes | internal/storage/filesystem/store.go:110-141 | a schedule of two overlapping calls for one digest after which that digest leads to other bytes |
| Publication.SafeExactlyWhenOverlapsAreHarmless | internal/storage/filesystem/store.go:101-144 | every run is safe if and only if no digest that may be put concurrently with itself is the digest of any content; without overlaps every run is safe |
| PutBlobCall.CallIsPutBlob | internal/storage/filesystem/store.go:101-144 | one call carried out step by step, with other calls under way elsewhere, has the effect of the atomic action when no file is in the place of a directory above it and no directory in its own place or that of its temporary file; else, or when the content is not complete or has another digest, no blob changes; no trace of the call stays |
| PutBlobCall.CallIsPut | internal/storage/filesystem/store.go:101-144 | on a store at rest this is exactly what `Placing.Put` says, directories included |
| PutBlobCall.NoMoreIsPossible | internal/storage/filesystem/store.go:105-141 | where the model ends a call early the code cannot go on: the temporary file cannot be created, or not renamed |
| Publication.StepKeepsNamesApart | internal/storage/filesystem/store.go:101-167 | no step makes a path a file and a directory at once |
| Placing.ClearIsPlaceable | internal/storage/filesystem/store.go:101-144 | with no directory in the place of an unmistakable digest or its temporary file, and only unmistakable blobs, nothing is in the way of one |
| Placing.EmptyIsClear | internal/storage/filesystem/store.go:29-46 | a new store is so |
| Placing.PutKeepsClear | internal/storage/filesystem/store.go:101-144 | an attempt to put an accepted digest, whatever becomes of it, keeps the store so |
| Placing.DeleteRemovesExactlyOne | internal/storage/filesystem/store.go:160-167 | a deletion that succeeds takes the blob of that digest, or an empty directory in its place, and leaves every other blob and directory; one that fails changes nothing |
| PutBlobCall.DeletionIsDelete | internal/storage/filesystem/store.go:160-167 | on a store at rest the single system call of a deletion leaves exactly what this gives: names, contents and directories |
| Files.WriteAtCompose | internal/storage/filesystem/store.go:413-425 | copying a stream piece by piece is one positional write of the whole stream |
| Uploads.SessionIsTheFoldOfItsWrites | internal/storage/filesystem/store.go:405-434 | after any writes: each byte comes from the last write that reached it, failed ones included, gaps are zero, offset is the end of the last success, size the sum of the successes |
| Uploads.AcceptedChunksFormALog | internal/api/handlers/uploads.go:66-107 | for any sequence of PATCH bodies and starts, the first offset bytes are the accepted chunks in order, and offset and size are their length |
| Uploads.FileEndsWithLogOrFailure | internal/storage/filesystem/store.go:419-431 | the file is as long as the log, or as the farthest failed copy reached |
| Uploads.ResentChunkIsRejected | internal/api/handlers/uploads.go:88-94 | an accepted chunk sent again changes nothing, and is answered 416 unless it is empty |
| Uploads.RetryRepairs | internal/storage/filesystem/store.go:405-434 | after a broken-off copy, sending the whole chunk from the same start leaves no trace of the attempt |
| Uploads.RefusedRequestsChangeNothing | internal/api/handlers/uploads.go:62-185 | a request answered 404, 400 or 416 changes nothing, except that a PUT that named a digest and found its session has written its body, if any, and has left the directories above the digest |
| Uploads.SessionSeesItsChunks | internal/api/handlers/uploads.go:62-124 | in any run of requests a session is the fold of the chunks sent to it, whatever else is going on |
| Uploads.PatchedSessionHoldsLog | internal/api/handlers/uploads.go:62-124 | in any run of requests, a fresh session that is only patched holds exactly the log of its accepted chunks |
| Uploads.PutPublishesTheFile | internal/storage/filesystem/store.go:437-462 | a PUT succeeds exactly when its body is whole, the file has the digest and nothing is in the way of the blob; then the file is published and that session alone goes, else no blob and no session goes |
| Uploads.PutWritesWhereTheHeaderSays | internal/api/handlers/uploads.go:140-177 | the body of a PUT goes where its header says, to zero without one, and to the session's offset when the header is malformed; what is published, or kept when the digest is refused, is the file with the body there; a body that breaks off is answered 500 |
| Uploads.LastChunkCompletesTheUpload | internal/api/handlers/uploads.go:127-185 | on a session whose file is its log, a whole last chunk headed with where the log ends and sent with the digest of log and chunk is answered 201 and publishes log and chunk, if nothing is in its way |
| Uploads.PatchStatuses | internal/api/handlers/uploads.go:62-124 | exactly when a PATCH is answered 202, 400, 404, 416 and 500, and what it leaves in each case |
| Uploads.OtherStatuses | internal/api/handlers/blobs.go:116-141 | exactly when the other requests succeed, and what they leave: a blob deleted with 202 is gone and all others stay; cancelling an upload removes that session alone |
| Uploads.LogCanBePublishedExactlyWhenFileEndsThere | internal/storage/filesystem/store.go:437-462 | completing with the digest of the accepted chunks succeeds if and only if no failed copy reached beyond them and nothing is in the way of the blob |
| Uploads.UploadCompletesExactlyWhen | internal/storage/filesystem/store.go:405-462 | after any traffic, a session that was only patched completes with the digest of its accepted chunks if and only if no failed copy reached beyond their end and nothing is in the way of the blob |
| Traffic.RequestPuts | internal/storage/filesystem/store.go:101-144 | every request but a deletion of a blob tries one put, or leaves the files alone |
| Traffic.TrafficMakesDirectory | internal/storage/filesystem/store.go:101-144 | traffic without deletions of blobs makes the path of a full digest that is not there, or of its temporary file, a directory if and only if some attempted put, refused or not, named a text whose path lies below |
| Traffic.PlaceableExactlyWhen | internal/storage/filesystem/store.go:101-144 | from an empty store, after such traffic, nothing is in the way of a full digest if and only if no put named a text below its path, unless the blob is there, or below that of its temporary file |
| Traffic.AcceptedUploadCompletesExactlyWhen | internal/storage/filesystem/store.go:405-462 | while all puts name accepted digests, deletions or not, an upload completes if and only if no failed copy reached beyond its accepted chunks |
| Traffic.RefusedPutBlocksADigest | internal/api/handlers/uploads.go:127-177 | an upload completed with a text below a digest is refused, and after it no put of that digest succeeds |
| Uploads.FailedCopyCanSpoilTheUpload | internal/storage/filesystem/store.go:424-427 | two PATCH requests after which the digest of what was accepted is refused |
| Uploads.PutWithoutRangeContinuesOnlyFromZero | internal/api/handlers/uploads.go:140-154 | a PUT body without Content-Range ends up behind the log if and only if one of the two is empty |
| Uploads.BlobsStayContentAddressed | internal/api/handlers/uploads.go:27-230 | any run of requests keeps every blob under its own digest |
| ContentRange.StartIsNeverNegative | internal/api/handlers/uploads.go:289-307 | no header yields a start outside 0 to 2^63-1 |
| ContentRange.PrintedRangeParses | internal/api/handlers/uploads.go:289-307 | the print of start-end, with or without "bytes=", parses to start for every 64-bit start, and to nothing beyond |
| ContentRange.ParseCharacterized | internal/api/handlers/uploads.go:289-307 | a header yields a start if and only if it is one minus sign with a 64-bit integer before it |
| Decimal.ParseIntExactlyWhen | internal/p2p/discovery/static.go:134-137 | which texts are read as which 64-bit integer: a sign or none, zeros or none, and the number's digits |
| UploadStore.Store.CreateUpload | internal/storage/filesystem/store.go:371-393 | a fresh id gets an empty session and file; no other session changes |
| UploadStore.Store.Copy | internal/storage/filesystem/store.go:424-427 | the loop over the pieces leaves one positional write of what was delivered |
| UploadStore.Store.WriteUploadChunk | internal/storage/filesystem/store.go:405-434 | the objects follow the specification of a chunk written: counters move only when the copy is whole |
| UploadStore.Store.PutBlob | internal/storage/filesystem/store.go:101-144 | the directories are created in any case, and the file is published if it has the digest and nothing is in its way |
| UploadStore.Store.CompleteUpload | internal/storage/filesystem/store.go:437-462 | the objects follow the specification of completion: publish and forget, or keep everything but the directories |
| UploadStore.Store.CancelUpload | internal/storage/filesystem/store.go:465-476 | the session and its file go, no other |
| UploadStore.Store.PatchUpload | internal/api/handlers/uploads.go:62-124 | the handler on the objects follows the gated specification, with its status codes |
| UploadStore.Store.PutUpload | internal/api/handlers/uploads.go:127-185 | the handler on the objects follows the specification, whose offset, fallback and status codes `Uploads.PutWritesWhereTheHeaderSays` states |
| UploadStore.Store.DeleteUpload | internal/api/handlers/uploads.go:214-230 | the handler on the objects follows the specification |
| UploadStore.StorageMetrics.CreateUpload | internal/metrics/storage.go:161-169 | the gauge stays at live sessions minus failed attempts |
| UploadStore.StorageMetrics.CompleteUpload | internal/metrics/storage.go:188-202 | the gauge stays at live sessions minus failed attempts, which it counts |
| UploadStore.StorageMetrics.CancelUpload | internal/metrics/storage.go:205-213 | the gauge stays at live sessions minus failed attempts, which it counts |
| Manifests.ManifestPathShape | internal/storage/filesystem/store.go:76-80 | where a manifest lies |
| Manifests.SameFileExactlyWhen | internal/storage/filesystem/store.go:76-80 | two keys share a file if and only if their references are equal and their repositories agree up to "/" against "_" |
| Manifests.SameDirectoryExactlyWhen | internal/storage/filesystem/store.go:76-80 | repositories have one directory if and only if they are as long and differ only in "/" against "_" |
| Manifests.ExactExactlyWhenApart | internal/storage/filesystem/store.go:76-80 | a set of legal keys has files of its own, none of them temporary, if and only if no two keys share a file and none is another one with ".tmp" added |
| Manifests.RegularKeysAreApart | internal/storage/filesystem/store.go:76-80 | keys without "_" in the repository and without ".tmp" at the end of the reference are such a set |
| Manifests.FilesRefineTheMap | internal/storage/filesystem/store.go:208-261 | over such a set any run of puts, deletes and puts that fail midway keeps the files equal to a map from repository and reference, with only temporary files besides, and none without failures |
| Manifests.StoreRefinesTheMapExactlyWhenApart | internal/storage/filesystem/store.go:208-261 | from an empty store every run over a set of legal keys refines the map if and only if the set is such |
| Manifests.RepositoriesDoNotInterfere | internal/storage/filesystem/store.go:76-80 | a request, failed or not, leaves every file in the directory of every repository with another directory alone |
| Manifests.RunsDoNotInterfere | internal/storage/filesystem/store.go:76-80 | so does any run of requests for such repositories |
| Manifests.FilesOfDirectory | internal/storage/filesystem/store.go:264-284 | a repository's directory holds exactly what the map has under the repositories with this directory |
| Manifests.AloneInItsDirectory | internal/storage/filesystem/store.go:76-80 | a repository that shares its directory with no other finds exactly its own references there |
| Manifests.WriteSparesExactlyWhen | internal/storage/filesystem/store.go:233-251 | a put under one key leaves another key's existing file alone if and only if that is not the put's temporary file |
| Manifests.TagsOfKeepsOrder | internal/storage/filesystem/store.go:275-281 | leaving out digests keeps the order and every other name |
| Manifests.ReferrersAreTheMapsOwn | internal/storage/filesystem/store.go:320-365 | without leftovers the files that GetReferrers picks are, each once and sorted, the references of the directory whose manifest in the map has the digest as its subject |
| Manifests.PutAddsExactlyItsKeys | internal/storage/filesystem/store.go:208-251 | a put adds to its directory exactly the names of its keys, with the manifest, and takes away exactly those of their temporary files |
| Manifests.PutStoresUnder | internal/storage/filesystem/store.go:208-251 | the files after a put: the manifest under its reference, and under its digest if the reference does not begin with "sha256:" and the digest is known, no temporary file of these, and all else as before |
| Manifests.ListedOncePerKey | internal/storage/filesystem/store.go:208-368 | a manifest that alone refers to a digest is listed under exactly the keys of its put: once, or twice for a tag |
| Manifests.Store.WriteManifestFile | internal/storage/filesystem/store.go:233-251 | the data is in the file and the temporary file is gone |
| Manifests.Store.PutManifest | internal/storage/filesystem/store.go:208-230 | for any legal key, the files are those of the specification that the refinement is proved of: the reference, and for a tag with a digest the digest |
| Manifests.Store.DeleteManifest | internal/storage/filesystem/store.go:254-261 | for any legal key, the files are those of the specification that the refinement is proved of: one file less |
| Manifests.Store.GetManifest | internal/storage/filesystem/store.go:183-205 | what every map that the files show holds under the key, with the repository, tag and size filled in and the digest lost |
| Manifests.Store.ManifestExists | internal/storage/filesystem/store.go:287-297 | membership in every map that the files show |
| Manifests.Store.ListTags | internal/storage/filesystem/store.go:264-284 | the sorted list of the directory's files whose names do not begin with "sha256:", leftovers included; without these, the live tags of the map |
| Manifests.Store.GetReferrers | internal/storage/filesystem/store.go:300-368 | exactly one descriptor per file whose subject matches, in the order of the names, with the file's media type, size and annotations, an empty digest, and the artifact type or else the config's media type |
| Tags.FilterTagsAfter | internal/api/handlers/manifests.go:312-320 | the loop computes the specification's filter |
| Tags.FilterKeepsExactlyTheLater | internal/api/handlers/manifests.go:312-320 | the filter keeps exactly the tags after the last one, in order |
| Tags.ListTags | internal/api/handlers/manifests.go:223-257 | the handler's page and its link follow the specification |
| Tags.PageIsExactly | internal/api/handlers/manifests.go:223-257 | a page is the first n of the tags that come after the last one, or all of them when n is absent, not positive or no smaller; it links on, from its end, only when tags are left |
| Text.LessExactlyWhen | internal/api/handlers/manifests.go:312-320 | the order of tags: a proper beginning comes first, and else the smaller character where two tags first differ |
| Tags.PageIsAPrefix | internal/api/handlers/manifests.go:234-257 | a page holds, of the tags after last, exactly those up to its end, and links on exactly from there |
| Tags.EnumerationIsComplete | internal/api/handlers/manifests.go:223-257 | pages cut from different listings are sorted together, contain every tag that stayed and none that never was |
| Tags.LastingTagsAppearOnce | internal/api/handlers/manifests.go:223-257 | while tags come and go, no tag is listed twice and every lasting one is listed |
| Tags.LinksLeadOn | internal/api/handlers/manifests.go:244-252 | each link leaves strictly fewer tags: following them ends |
| Tags.PaginationIsComplete | internal/api/handlers/manifests.go:223-257 | on a fixed listing the pages of any size n put together are the listing, and there are as many as it takes |
| Cluster.ProjectedRun | internal/storage/distributed/store.go:57-104 | a run of the cluster is, at each node, a run of system calls on its disk: uploads, replicas and cached fetches alike |
| Cluster.RunKeepsContentSafe | internal/p2p/transport/grpc.go:585-643 | in every run whose overlapping puts are harmless, whatever a reader of any node finds hashes to its digest |
| Cluster.ContentSafeExactlyWhenOverlapsAreHarmless | internal/storage/distributed/store.go:313-351 | in a cluster of any size every run is content-addressed if and only if no digest that may be put concurrently with itself on one node is the digest of any content; without overlaps it is |
| Cluster.HoldersAgree | internal/storage/distributed/store.go:313-351 | in every run whose overlapping puts are harmless, what readers of two nodes find under a digest hashes to it, and is the same unless it collides |
| Cluster.DiskStepKeepsBlobs | internal/storage/filesystem/store.go:101-167 | only its deletion takes a file from its readers that is nobody's temporary file, however the writers overlap |
| Cluster.SeemingIsHolding | internal/storage/filesystem/store.go:147-157 | a trusted reference that Stat finds, among blobs, directories, manifests, uploads and temporary files, is a blob |
| Cluster.StepKeepsNodesOk | internal/storage/filesystem/store.go:49-85 | no put of a blob or manifest and no upload puts anything in the place of a trusted reference |
| Cluster.StepKeepsIntegrity | internal/api/handlers/manifests.go:164-171 | what is stored, in flight or checked so far stays resolvable after every step but a deletion of a blob |
| Cluster.RunKeepsIntegrity | internal/api/handlers/manifests.go:274-303 | every run whose deletions meet their guard keeps all of it resolvable |
| Cluster.EveryReferenceResolves | internal/api/handlers/manifests.go:274-303 | in every such run, every trusted digest that is the config or one of the layers of a manifest on any node is held by some node, although the checks cannot tell a blob from a directory |
| Cluster.UnfoundPushNeverFinishes | internal/api/handlers/manifests.go:274-303 | a push whose config or any layer is at no node's path while it is under way is never stored: it can only be rejected |
| Cluster.FoundPushCanFinish | internal/api/handlers/manifests.go:274-303 | and from every state in which each of these digests is found somewhere a run stores the manifest at its node and sends it to the targets |
| Cluster.ManifestsTravel | internal/storage/distributed/store.go:412-446 | a manifest on any node can be sent to any other, and is stored there under its key |
| Cluster.ManifestsAreStored | internal/api/handlers/manifests.go:164-181 | what a finished push and an arriving replica store at which node, under which keys, and that nothing else changes there or elsewhere |
| Cluster.ManifestsAreOnDisk | internal/storage/filesystem/store.go:208-251 | and exactly which files and directories that leaves on the node's disk |
| Cluster.DeletionKeepsIntegrityExactlyWhen | internal/storage/distributed/store.go:122-126 | a deletion keeps what is stored, in flight and checked resolvable if and only if another node holds the blob, or no stored manifest, no travelling one and no check so far needs it |
| Existence.FixedIsNoBlob | internal/storage/filesystem/store.go:29-46 | the path of an accepted digest is none of the store's own directories, and lies below neither manifests nor uploads |
| Existence.AcceptedPutsShadowExactly | internal/storage/filesystem/store.go:49-73 | while only accepted digests are put, the path of an accepted digest may be a directory if and only if its hex has two digits, or fewer than four below the algorithm "." |
| Existence.DotIsADirectory | internal/storage/filesystem/store.go:49-73 | the path of "." is the directory of all blobs |
| Existence.UncheckedPutsShadow | internal/api/handlers/uploads.go:127-177 | if the digest of a put may be any text, the path of every digest with four digits or more may be a directory |
| Dangling.NeverDanglesExactlyWhen | internal/storage/filesystem/store.go:147-157 | for any reference text, and any sets of digests, keys and ids that callers use: the reference is held whenever a stored manifest refers to it, in all runs with guarded deletions, if and only if nothing else can be in its place: from the beginning, above or beside a blob, at or above a manifest, or an upload |
| Dangling.BlobsKeepAway | internal/storage/filesystem/store.go:49-85 | accepted digests, their temporary files and the directories above them never meet manifests, their temporary files, or uploads |
| Dangling.ThereFromTheBeginning | internal/storage/filesystem/store.go:29-46 | what is on a disk from the beginning: the store's base directory and those above, the first ones on the way to blobs, manifests and uploads, and what lies outside |
| Dangling.AcceptedInPlaceExactlyWhen | internal/storage/filesystem/store.go:49-85 | in the store as the API uses it, with nothing else below its base directory, an accepted reference can have something else in its place if and only if its hex has two digits, or fewer than four below the algorithm "." |
| Dangling.AcceptedNeverDanglesExactlyWhen | internal/storage/filesystem/store.go:147-157 | there, an accepted reference is held in all runs with guarded deletions if and only if its hex has neither two digits, nor fewer than four below the algorithm "." |
| Dangling.SomeTextsDangle | internal/api/handlers/manifests.go:276-284 | a manifest whose config is ".", or leads up and down to a repository's directory, can be stored although nothing was put |
| Dangling.StoreIsGuarded | internal/storage/filesystem/store.go:49-73 | with the store's layout every digest of the safe form may be trusted |
| Dangling.ReferencesResolveToTheirContent | internal/api/handlers/manifests.go:274-303 | in every run with guarded deletions and harmless overlaps, some node serves each trusted digest that is the config or a layer of a stored manifest, and what it serves hashes to it |
| Dangling.DeletionDuringPushBreaksIntegrity | internal/api/handlers/manifests.go:164-171 | from every state with one holder, a run in which the checked blob is deleted before its manifest is stored leaves it dangling |
| Dangling.OneUploadMakesASoleHolder | internal/storage/filesystem/store.go:101-144 | one upload reaches such a state |
| Streaming.SendBlob | internal/p2p/transport/grpc.go:134-196 | the loop sends the specified chunks and succeeds exactly when the reader reached its end |
| Streaming.ReceiveBlob | internal/p2p/transport/grpc.go:585-623 | the loop computes the specified assembly, refusing a stream that changes its digest |
| Streaming.RequestBlob | internal/p2p/transport/grpc.go:199-245 | the pipe delivers the chunks' bytes up to the final one |
| Streaming.ChunksAreContiguous | internal/p2p/transport/grpc.go:146-184 | every chunk's offset is where the one before it ended |
| Streaming.ChunksAreWellFormed | internal/p2p/transport/grpc.go:146-184 | data chunks are not empty and at most 64 KiB, and one final chunk comes, last, exactly when the reader reached its end |
| Streaming.AssembleUndoesChunks | internal/p2p/transport/grpc.go:590-623 | for every reader, with short, empty and last reads, assembly gives back its bytes and digest |
| Streaming.PipeUndoesChunks | internal/p2p/transport/grpc.go:221-241 | for every reader, the fetching side gets back its bytes |
| Streaming.CutStreamYieldsPrefix | internal/p2p/transport/grpc.go:590-623 | a stream cut anywhere yields a prefix |
| Streaming.BrokenStreamIsRefused | internal/p2p/transport/grpc.go:590-623 | a stream that breaks before its final chunk is refused by the receiving side, and does not count as complete on the fetching side, which has passed on its data |
| Streaming.FinalChunkEnds | internal/p2p/transport/grpc.go:221-241 | nothing that comes after a final chunk matters to either side, not even a broken stream |
| Streaming.MixedDigestsAreRefused | internal/p2p/transport/grpc.go:590-623 | a chunk with another digest before the final one makes the receiving side refuse the stream |
| Streaming.ClosedStreamIsTaken | internal/p2p/transport/grpc.go:590-623 | a stream that is closed without a final chunk is taken as complete by both sides |
| Streaming.TransferStores | internal/p2p/transport/grpc.go:585-643 | a transfer stores the read bytes exactly when they have the digest and nothing is in the way of the blob |
| Replication.DeliveredBlobs | internal/p2p/transport/grpc.go:625-642 | after any deliveries a node holds, per digest, bytes that came for it, or what it had |
| Replication.AgreeingOrdersMeet | internal/storage/distributed/store.go:489-515 | two orders of the same valid transfers, with duplicates and failures, lead to the same blobs on every node |
| Replication.ConfluentExactlyWhenAgreeing | internal/storage/distributed/store.go:489-515 | all orders meet if and only if no two transfers to one node bring different bytes for one digest |
| Replication.FilterHealthyPeers | internal/storage/distributed/store.go:581-592 | the loop computes the specified list |
| Replication.HealthyKeepsOrder | internal/storage/distributed/store.go:581-592 | the healthy list has no duplicates, consists of exactly the peers with a healthy row, and keeps their order |
| Replication.SelectReplicationTargets | internal/storage/distributed/store.go:595-619 | the targets are the first peers of the list: factor many if there are as many, else all of them, and one, if there is one, for a factor below 1 |
| Replication.SendToAll | internal/storage/distributed/store.go:489-515 | the success counter is the number of targets that are there, got the whole stream with the digest and answered, and only targets change |
| Replication.AckedAreHolders | internal/storage/distributed/store.go:489-515 | every acknowledgement is one more holder |
| Replication.ReplicateBlobToPeers | internal/storage/distributed/store.go:449-521 | targets are the first factor many healthy known peers, all of them for a larger factor, and at most one for a factor below 1; they are distinct and never the node itself, and s counted successes leave at least 1 + s holders |
| Replication.ReachablePeersQualify | internal/p2p/manager.go:152-162 | the peers that the manager gives in any state it can reach are distinct and do not include the node itself |
| Replication.SendIsDelivery | internal/storage/distributed/store.go:489-515 | a send is a delivery in the sense of the confluence theorem |
| ScatterGather.StepKeepsInv | internal/storage/distributed/store.go:364-409 | every peer is in exactly one place, and the found list is that of the positive answers received |
| ScatterGather.GathersExactly | internal/storage/distributed/store.go:364-409 | for every order of answers: without a timeout the result is a permutation of the peers that said yes, with one, which comes only while an answer is missing, a sub-multiset, and no sender ever blocks |
| ScatterGather.SomebodyCanContinue | internal/storage/distributed/store.go:645-690 | the caller or a goroutine can go on until all have finished |
| ReadThrough.FetchSucceedsExactlyWhen | internal/storage/distributed/store.go:328-348 | the loop over the peers succeeds if and only if nothing is in the way of the blob and one of them delivers bytes with the digest; it caches exactly these, and creates directories above the blob only |
| ReadThrough.FinishedRunIsAGathering | internal/storage/distributed/store.go:364-409 | a run of the scattered calls that ends in time asks every known peer once and finds what the reader is given |
| ReadThrough.DistributedStore.FindPeersWithBlob | internal/storage/distributed/store.go:364-409 | the positive answers, in order of arrival, up to the timeout |
| ReadThrough.DistributedStore.GetBlobFromPeers | internal/storage/distributed/store.go:313-351 | the method follows the specification of fetching: the first delivery that verifies is returned and cached |
| ReadThrough.DistributedStore.GetBlob | internal/storage/distributed/store.go:57-72 | the method follows the specification of a read, which fails on a directory in the blob's place |
| ReadThrough.DistributedStore.BlobExists | internal/storage/distributed/store.go:107-119 | the method follows the specification of existence, which takes a directory for the blob |
| ReadThrough.DistributedStore.GetBlobSize | internal/storage/distributed/store.go:129-139 | the exact length of what is local, the size of a directory in its place, and nothing otherwise |
| ReadThrough.ReadSucceedsExactlyWhen | internal/storage/distributed/store.go:57-72 | a read succeeds if and only if the blob is local, or nothing is in its way, all answers came in time and a peer that said yes delivers it; it fails on a directory exactly when there is one; the blob is local afterwards, so its size is then known, and no other blob changes |
| ReadThrough.ReliableReadIsLookupInUnion | internal/storage/distributed/store.go:57-119 | with reliable peers and no timeout, reading is lookup in the union of the blobs of all known peers unless something is in the way, and existence is that lookup or a directory mistaken for the blob |
| ReadThrough.UnmistakableReadIsLookupInUnion | internal/storage/distributed/store.go:57-119 | for digests of the safe form both are the same lookup in the union, and reading keeps them so |
| ReadThrough.ReadAgreesWithHolders | internal/storage/distributed/store.go:57-72 | what is read is what every holder has, unless the hash collides |
| PeerManager.ProgramsAreDisciplined | internal/p2p/manager.go:287-444 | every program takes and releases its locks in pairs, and the health lock only inside or without the peers lock |
| PeerManager.StepKeepsInv | internal/p2p/manager.go:287-444 | every step of every thread and checker keeps locks, threads, channels and tables consistent |
| PeerManager.ReachableStates | internal/p2p/manager.go:296-304 | always: at most workers checkers of a round are between taking a permit and letting go, no channel overflows, the node itself is never a peer, and stale health rows are gone when maintenance lets go of their lock |
| PeerManager.ThreadsRunTheirPrograms | internal/p2p/manager.go:137-284 | over any run, what a thread had to do followed by the programs started in it is what it has performed followed by what it still has to do: nothing is skipped, repeated or swapped |
| PeerManager.ProgramsDoTheirWork | internal/p2p/manager.go:287-444 | what the programs do between their locks: discovery merges, a health check copies, starts its checkers and gathers, maintenance drops stale peers and then orphaned rows |
| PeerManager.OperationsDoTheirWork | internal/p2p/manager.go:287-423 | what each of these does to the tables, peer by peer and row by row, and that no other operation changes them |
| HealthChecks.SnapshotCopiesEveryPeerOnce | internal/p2p/manager.go:313-321 | a health check copies every known peer once |
| HealthChecks.SpawnChecksEveryPeerOnce | internal/p2p/manager.go:323-372 | and starts one checker for each of them, with an empty channel |
| HealthChecks.ReportsAreOutcomes | internal/p2p/manager.go:329-389 | in every run of the manager, every result in a channel and every row of the health table is what the ping of a checker of that peer answered, and unhealthy if that checker panicked |
| HealthChecks.HealthCheckRecordsOutcomes | internal/p2p/manager.go:313-389 | in every run, when a health check has gathered to its end, the row of every peer that it copied is the outcome of that peer's own ping |
| PeerManager.NoSenderBlocks | internal/p2p/manager.go:329-371 | a checker with a result can always send it |
| PeerManager.PeersAreWrittenAlone | internal/p2p/manager.go:296-304 | while a thread changes the peers no other one is inside their lock |
| PeerManager.NoDeadlock | internal/p2p/manager.go:287-444 | with at least one worker and pings that return, in every reachable state that is not at rest somebody can go on |
| PeerManager.StepIsProgress | internal/p2p/manager.go:313-389 | every step that is not a new beginning lowers a lexicographic measure |
| PeerManager.ComesToRest | internal/p2p/manager.go:104-134 | from every reachable state carrying on ends at rest; after a stop with all loops ended and Stop returned |
| PeerTable.Table.DiscoverPeers | internal/p2p/manager.go:287-310 | the loop adds every discovered peer but the node itself, with the time |
| PeerTable.Table.RemoveStale | internal/p2p/manager.go:401-423 | exactly the stale peers go, then exactly the health rows of unknown peers |
| PeerTable.Table.CollectHealth | internal/p2p/manager.go:375-389 | the loop records the answers |
| PeerTable.Table.GetPeers | internal/p2p/manager.go:152-162 | every known peer once |
| PeerTable.RowIsTheAnswer | internal/p2p/manager.go:375-389 | in any order of arrival a peer's row is the answer it gave |
| PeerAddress.SplitExactlyTheShapes | internal/p2p/discovery/static.go:129-132 | an address splits into host and port if and only if it is host:port, or [host]:port, without stray brackets and colons |
| PeerAddress.ParseOfPrintedPeer | internal/p2p/discovery/static.go:108-148 | a printed peer parses back if and only if its port is 1 to 65535, its ID has no "@", and its host has no brackets and no colon |
| PeerAddress.RefusedExactlyWhen | internal/p2p/discovery/static.go:108-148 | which error an address is refused with: no host and port in it, a port that is no number, or one outside 1 to 65535; and the host and port that are taken from any other |
| PeerAddress.SameIdExactlyWhen | internal/p2p/discovery/static.go:151-155 | two accepted addresses without an ID get one ID if and only if they are equal, or both bracketed with hosts that differ only in ":" against "_" |
| PeerAddress.NewStaticDiscovery | internal/p2p/discovery/static.go:24-47 | the loop keeps the peers of exactly the addresses that parse, in order |
| PeerAddress.ConfiguredUndoesPrinting | internal/storage/p2p.go:70-77 | configuring a node with the printed peers gives these peers |
| PeerAddress.NoConfiguredPeerIsLost | internal/p2p/discovery/static.go:24-47 | distinct addresses without IDs and brackets give peers with distinct IDs |

## Left out

- Router and request validation: the regular expressions of `internal/api/router.go` and `internal/api/middleware/validation.go` appear only as the predicates `Paths.Accepted` and `Manifests.Legal`.
- JSON: it is taken to keep the serialised fields of a manifest and to drop the others; ill-formed manifests are not modelled.
- SHA-256 and hexadecimal coding: the hash is any function to text.
- Integer width: offsets and sizes are unbounded, so no sum overflows 64 bits; parsing does have its 64-bit range.
- Text: strings are sequences of characters, and Go's byte order on them is the order of the characters.
- Base directory: a clean path; one that begins with ".." is not modelled.
- Disks: lost writes after a power failure, and errors of the local disk other than a missing file, are left out except where a call of `PutBlob`, a copy into an upload, or the write of a manifest file breaks off.
- Uploads: concurrent PATCH requests for one session; check and write are not atomic there. Requests are served one after the other. The plain status request only reads, and a blob mount either changes nothing or starts a session like any other; both are left out.
- Manifests.FilesRefineTheMap: one request at a time; two puts of one tag at once share a temporary file.
- Manifests.StoreRefinesTheMapExactlyWhenApart: runs of manifest requests only. Puts of accepted digests keep away from manifests (`Dangling.BlobsKeepAway`), but an unchecked upload digest may lead to a manifest's place, and make it a directory or empty its file.
- Manifests.Store.GetManifest: the references "." and "..", which the route pattern lets through, and which name directories.
- Manifests.Store.PutManifest: the same references; for them the renaming fails, or makes the repository's directory a file, and the temporary file may stay.
- Manifests.Store.DeleteManifest: the same references, which name directories.
- Traffic.PlaceableExactlyWhen: deletions of blobs, which also remove empty directories, are in `Uploads.Serve` but not in this condition. Manifests and uploads are no obstacles here: a text that leads below one of them creates directories in the model which the code refuses to create, in places that no digest has.
- ReadThrough.DistributedStore.GetBlob: asks for a digest of at least twelve characters, which the log line cuts; one call at a time, so each write to the node's own store is whole (overlapping ones are in `Cluster`), and no deletion comes between caching and reading again.
- Replication.ReplicateBlobToPeers: the choice between eager, lazy and hybrid replication is not modelled; lazy replication never happens, since the server is given the local store, which cannot trigger it. The sends are one after another, as their targets differ. Peers are clear of directories in the way (`Placing.ClearIsPlaceable`): a node sends digests that it holds, and these are full.
- Cluster: tags on different nodes need not agree, as their replication has no order; the hash of a stored manifest is not compared with its reference, since the store writes it anew. A put of a manifest is one step, or ends with its temporary file. Manifests and uploads do not get in the way of blobs here, so the model has more runs than the code. What lies outside the base directory is the same set of paths on every node, and does not change.
- Streaming: half-received chunks do not exist, as gRPC delivers whole messages; the connection table is not modelled.
- PeerManager: a round's checkers are started in one step, health rows record only whether a ping returned, and times are parameters. Pings return; fairness to a single thread is not claimed.
- PeerAddress: metadata and the time of the last contact; `Watch` and `Close`.
- Easy or plumbing: `splitPath` and `NormalizeEndpoint`, configuration, logging, CORS, metrics other than the session gauge, generated protobuf code, blob ranges over HTTP, the stubbed remote procedures.
