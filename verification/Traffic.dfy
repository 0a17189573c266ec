/** What uploads put in the way of each other (internal/api/handlers/uploads.go,
    internal/storage/filesystem/store.go): every try to put a digest leaves the directories above it, also when it is
    refused, and the digest in the query of an upload may be any text. */
module Traffic {
  import opened Common
  import opened Blobs
  import opened Paths
  import opened Existence
  import opened Placing
  import opened Uploads

  /** The digests that a request tries to put. */
  function Attempt(b: Backend, n: Node, r: Request): seq<string> {
    match r
    case MonolithicRequest(digest, _) => [digest]
    case PutRequest(id, digest, header, last) =>
      if digest == "" || id !in n.sessions then []
      else if last.Some? && WriteUploadChunk(n, id, PutOffset(n, id, header).value, last.value).1 != Stored then []
      else [digest]
    case _ => []
  }

  function Attempts(b: Backend, n: Node, requests: seq<Request>): seq<string>
    decreases |requests|
  {
    if requests == [] then [] else Attempt(b, n, requests[0]) + Attempts(b, Serve(b, n, requests[0]).0, requests[1..])
  }

  /** What a request does to the files: it tries one put, or none, or deletes. */
  lemma RequestPuts(b: Backend, n: Node, r: Request)
    requires !r.DeleteBlobRequest?
    ensures Attempt(b, n, r) == [] ==> Serve(b, n, r).0.tree == n.tree
    ensures Attempt(b, n, r) != [] ==>
              && |Attempt(b, n, r)| == 1
              && exists body :: Serve(b, n, r).0.tree == Put(b.sha, b.layout, n.tree, Attempt(b, n, r)[0], body)
  {
    match r
    case MonolithicRequest(digest, body) =>
      assert Serve(b, n, r).0.tree == Put(b.sha, b.layout, n.tree, Attempt(b, n, r)[0], body);
    case PutRequest(id, digest, header, last) =>
      if Attempt(b, n, r) != [] {
        var n1 := if last.None? then n else WriteUploadChunk(n, id, PutOffset(n, id, header).value, last.value).0;
        var file := n1.sessions[id].file;
        assert Attempt(b, n, r) == [digest] && n1.tree == n.tree;
        FileIsABody(b.sha, b.layout, n.tree, digest, file);
        var body := Body([file], true);
        assert Serve(b, n, r).0.tree == Put(b.sha, b.layout, n.tree, Attempt(b, n, r)[0], body);
      }
    case _ =>
  }

  /** All digits, of SHA-256. */
  predicate Full(digest: string) {
    Paths.Accepted(digest) && Algorithm(digest) == "sha256" && |Hex(digest)| == 64
  }

  lemma FullPath(base: Path, digest: string)
    requires Full(digest)
    ensures |BlobPath(base, digest)| == |base| + 5 && |TempPath(BlobPath(base, digest))| == |base| + 5
  {
    BlobPathShape(base, digest);
  }

  lemma CalculatedIsFull(sha: Sha, content: Bytes)
    requires PrintsFullHex(sha)
    ensures Full(DigestOf(sha, content))
  {
    assert IsAlgorithm("sha256");
    DigestParts("sha256", sha(content));
    assert DigestOf(sha, content) == Digest("sha256", sha(content));
  }

  /** Blobs have full digests, and no directory is in the place of one. */
  ghost predicate Sane(base: Path, f: Tree) {
    forall d | d in f.blobs :: Full(d) && BlobPath(base, d) !in f.dirs
  }

  lemma PutKeepsBlobs(sha: Sha, l: Layout, f: Tree, digest: string, body: Body)
    ensures var f' := Put(sha, l, f, digest, body);
            && f.blobs.Keys <= f'.blobs.Keys <= f.blobs.Keys + {digest}
            && (digest in f'.blobs && digest !in f.blobs ==> Puts(sha, l, f, digest, body))
  {
  }

  lemma PutSparesBlobs(sha: Sha, base: Path, f: Tree, digest: string, body: Body, d: string)
    requires d in f.blobs && BlobPath(base, d) !in f.dirs
    ensures BlobPath(base, d) !in Put(sha, StoreLayout(base), f, digest, body).dirs
  {
    if BlobPath(base, d) < BlobPath(base, digest) {
      assert Blocked(StoreLayout(base), f, digest);
    }
  }

  lemma PutKeepsSane(sha: Sha, base: Path, f: Tree, digest: string, body: Body)
    requires PrintsFullHex(sha) && Sane(base, f)
    ensures Sane(base, Put(sha, StoreLayout(base), f, digest, body))
    ensures f.blobs.Keys <= Put(sha, StoreLayout(base), f, digest, body).blobs.Keys
  {
    PutKeepsBlobs(sha, StoreLayout(base), f, digest, body);
    forall d | d in Put(sha, StoreLayout(base), f, digest, body).blobs
      ensures Full(d) && BlobPath(base, d) !in Put(sha, StoreLayout(base), f, digest, body).dirs
    {
      if d in f.blobs {
        PutSparesBlobs(sha, base, f, digest, body, d);
      } else {
        CalculatedIsFull(sha, body.Content());
      }
    }
  }

  lemma PrefixesOfOneLength(p: Path, q: Path, path: Path)
    requires p < path && q < path && |p| == |q|
    ensures p == q
  {
    assert p == path[..|p|] && q == path[..|q|];
  }

  /** A path in which the traffic can put a directory: that of a full digest that is not there, or of its temporary file. */
  predicate Open(base: Path, blobs: map<string, Bytes>, full: string, path: Path) {
    (path == BlobPath(base, full) && full !in blobs) || path == TempPath(BlobPath(base, full))
  }

  lemma NoBlobIsInTheWay(base: Path, f: Tree, digest: string, full: string, path: Path)
    requires Sane(base, f) && Full(full) && Open(base, f.blobs, full, path) && path < BlobPath(base, digest)
    ensures !Blocked(StoreLayout(base), f, digest)
  {
    FullPath(base, full);
    forall d | d in f.blobs
      ensures !(BlobPath(base, d) < BlobPath(base, digest))
    {
      FullPath(base, d);
      if BlobPath(base, d) < BlobPath(base, digest) {
        PrefixesOfOneLength(BlobPath(base, d), path, BlobPath(base, digest));
        if path == BlobPath(base, full) {
          BlobPathInjective(base, d, full);
        } else {
          TempPathIsNoBlobPath(base, BlobPath(base, full), d);
        }
        assert false;
      }
    }
  }

  /** Such a path becomes a directory exactly by a put below it. */
  lemma PutMakesDirectory(sha: Sha, base: Path, f: Tree, digest: string, body: Body, full: string, path: Path)
    requires Sane(base, f) && Full(full) && Open(base, f.blobs, full, path)
    ensures path in Put(sha, StoreLayout(base), f, digest, body).dirs
            <==> path in f.dirs || path < BlobPath(base, digest)
  {
    if path < BlobPath(base, digest) {
      NoBlobIsInTheWay(base, f, digest, full, path);
    }
  }

  /** Some put of the traffic named a digest whose path lies below this one. */
  ghost predicate SomeBelow(base: Path, attempts: seq<string>, path: Path) {
    exists d :: d in attempts && path < BlobPath(base, d)
  }

  /** Traffic without deletions of blobs makes the path of a full digest, or of its temporary file, a directory exactly
      when it puts something below it, unless the blob itself is there in the end. */
  lemma {:induction false} TrafficMakesDirectory(sha: Sha, base: Path, n: Node, requests: seq<Request>, full: string,
                                                 path: Path)
    requires PrintsFullHex(sha) && Sane(base, n.tree) && Full(full)
    requires forall r | r in requests :: !r.DeleteBlobRequest?
    ensures var b := Backend(sha, StoreLayout(base));
            var f' := ServeAll(b, n, requests).tree;
            && Sane(base, f') && n.tree.blobs.Keys <= f'.blobs.Keys
            && (Open(base, f'.blobs, full, path) ==>
                  (path in f'.dirs <==> path in n.tree.dirs || SomeBelow(base, Attempts(b, n, requests), path)))
    decreases |requests|
  {
    var b := Backend(sha, StoreLayout(base));
    if requests != [] {
      var r := requests[0];
      var n1 := Serve(b, n, r).0;
      RequestPuts(b, n, r);
      var rest := Attempts(b, n1, requests[1..]);
      if Attempt(b, n, r) != [] {
        var d := Attempt(b, n, r)[0];
        var body :| n1.tree == Put(sha, StoreLayout(base), n.tree, d, body);
        PutKeepsSane(sha, base, n.tree, d, body);
        TrafficMakesDirectory(sha, base, n1, requests[1..], full, path);
        FirstBelow(base, d, rest, path);
        assert Attempts(b, n, requests) == [d] + rest;
        if Open(base, n.tree.blobs, full, path) {
          PutMakesDirectory(sha, base, n.tree, d, body, full, path);
        }
      } else {
        TrafficMakesDirectory(sha, base, n1, requests[1..], full, path);
        assert Attempts(b, n, requests) == rest;
      }
    }
  }

  lemma FirstBelow(base: Path, d: string, rest: seq<string>, path: Path)
    ensures SomeBelow(base, [d] + rest, path) <==> path < BlobPath(base, d) || SomeBelow(base, rest, path)
  {
    if SomeBelow(base, rest, path) {
      var e :| e in rest && path < BlobPath(base, e);
      assert e in [d] + rest;
    }
    if path < BlobPath(base, d) {
      assert d in [d] + rest;
    }
  }

  /** From an empty store, after traffic without deletions of blobs: nothing is in the way of a full digest exactly when
      no put named a text whose path lies below that of the digest, unless it is there already, or below that of its
      temporary file. */
  lemma PlaceableExactlyWhen(sha: Sha, base: Path, requests: seq<Request>, full: string)
    requires PrintsFullHex(sha) && Full(full) && forall r | r in requests :: !r.DeleteBlobRequest?
    ensures var b, empty := Backend(sha, StoreLayout(base)), Node(Empty(base), map[]);
            var f', attempts := ServeAll(b, empty, requests).tree, Attempts(b, empty, requests);
            Placeable(b.layout, f', full) <==>
              && (full in f'.blobs || !SomeBelow(base, attempts, BlobPath(base, full)))
              && !SomeBelow(base, attempts, TempPath(BlobPath(base, full)))
  {
    var b, empty := Backend(sha, StoreLayout(base)), Node(Empty(base), map[]);
    var attempts := Attempts(b, empty, requests);
    FixedIsNoBlob(base, full);
    FixedIsNoTemp(base, full);
    TrafficMakesDirectory(sha, base, empty, requests, full, BlobPath(base, full));
    TrafficMakesDirectory(sha, base, empty, requests, full, TempPath(BlobPath(base, full)));
    PlaceableFromDirectories(base, ServeAll(b, empty, requests).tree, full,
                             SomeBelow(base, attempts, BlobPath(base, full)),
                             SomeBelow(base, attempts, TempPath(BlobPath(base, full))));
  }

  lemma PlaceableFromDirectories(base: Path, f: Tree, full: string, below: bool, belowTemp: bool)
    requires Sane(base, f) && Full(full)
    requires full !in f.blobs ==> (BlobPath(base, full) in f.dirs <==> below)
    requires TempPath(BlobPath(base, full)) in f.dirs <==> belowTemp
    ensures Placeable(StoreLayout(base), f, full) <==> (full in f.blobs || !below) && !belowTemp
  {
    FullPath(base, full);
    forall d | d in f.blobs
      ensures !(BlobPath(base, d) < BlobPath(base, full))
    {
      FullPath(base, d);
    }
  }

  // ---------------------------------------------------------------- traffic of accepted digests

  /** Every put names an accepted digest. */
  predicate NamesAccepted(r: Request) {
    (r.PutRequest? && r.digest != "") || r.MonolithicRequest? ==> Paths.Accepted(r.digest)
  }

  lemma AttemptsAreAccepted(b: Backend, n: Node, r: Request)
    requires NamesAccepted(r) && Attempt(b, n, r) != []
    ensures Paths.Accepted(Attempt(b, n, r)[0])
  {
  }

  lemma DeletingKeepsClear(b: Backend, base: Path, n: Node, r: Request)
    requires b.layout == StoreLayout(base) && Clear(base, n.tree) && r.DeleteBlobRequest?
    ensures Clear(base, Serve(b, n, r).0.tree)
  {
    DeletingIsDelete(b, n, r);
    DeletionLeavesLess(b.layout, n.tree, r.digest);
    LessIsClear(base, n.tree, Serve(b, n, r).0.tree);
  }

  lemma DeletingIsDelete(b: Backend, n: Node, r: Request)
    requires r.DeleteBlobRequest?
    ensures Serve(b, n, r).0.tree == Placing.Delete(b.layout, n.tree, r.digest).0
  {
  }

  lemma ServingKeepsClear(b: Backend, base: Path, n: Node, r: Request)
    requires b.layout == StoreLayout(base) && PrintsFullHex(b.sha) && Clear(base, n.tree) && NamesAccepted(r)
    ensures Clear(base, Serve(b, n, r).0.tree)
  {
    if r.DeleteBlobRequest? {
      DeletingKeepsClear(b, base, n, r);
    } else {
      RequestPuts(b, n, r);
      if Attempt(b, n, r) != [] {
        AttemptsAreAccepted(b, n, r);
      }
      PutsKeepClear(b.sha, base, n.tree, Serve(b, n, r).0.tree, Attempt(b, n, r));
    }
  }

  lemma PutsKeepClear(sha: Sha, base: Path, f: Tree, f': Tree, attempt: seq<string>)
    requires PrintsFullHex(sha) && Clear(base, f)
    requires attempt == [] ==> f' == f
    requires attempt != [] ==> Paths.Accepted(attempt[0])
                               && exists body :: f' == Put(sha, StoreLayout(base), f, attempt[0], body)
    ensures Clear(base, f')
  {
    if attempt != [] {
      var body :| f' == Put(sha, StoreLayout(base), f, attempt[0], body);
      PutKeepsClear(sha, base, f, attempt[0], body);
    }
  }

  lemma {:induction false} TrafficKeepsClear(sha: Sha, base: Path, n: Node, requests: seq<Request>)
    requires PrintsFullHex(sha) && Clear(base, n.tree) && forall r | r in requests :: NamesAccepted(r)
    ensures Clear(base, ServeAll(Backend(sha, StoreLayout(base)), n, requests).tree)
    decreases |requests|
  {
    if requests != [] {
      assert requests[0] in requests;
      ServingKeepsClear(Backend(sha, StoreLayout(base)), base, n, requests[0]);
      TrafficKeepsClear(sha, base, Serve(Backend(sha, StoreLayout(base)), n, requests[0]).0, requests[1..]);
    }
  }

  /** While all puts name accepted digests, deletions or not, nothing is ever in the way of a content's own digest: an
      upload completes exactly when no copy that failed got beyond its accepted chunks. */
  lemma AcceptedUploadCompletesExactlyWhen(sha: Sha, base: Path, n: Node, requests: seq<Request>, id: string,
                                           header: string)
    requires PrintsFullHex(sha) && Clear(base, n.tree) && forall r | r in requests :: NamesAccepted(r)
    requires id in n.sessions && n.sessions[id] == NewSession(n.sessions[id].repository)
    requires forall r | r in requests && Addresses(r, id) :: r.PatchRequest?
    requires var n' := ServeAll(Backend(sha, StoreLayout(base)), n, requests);
             && id in n'.sessions
             && CollisionFree(sha, {Flatten(AcceptedChunks(n.sessions[id], ChunksFor(requests, id))), n'.sessions[id].file})
    ensures var b := Backend(sha, StoreLayout(base));
            var s, chunks, n' := n.sessions[id], ChunksFor(requests, id), ServeAll(b, n, requests);
            var log := Flatten(AcceptedChunks(s, chunks));
            PutUpload(b, n', id, DigestOf(sha, log), header, None).1 == Created <==> FailedReach(s, chunks) <= |log|
  {
    var b := Backend(sha, StoreLayout(base));
    var log := Flatten(AcceptedChunks(n.sessions[id], ChunksFor(requests, id)));
    UploadCompletesExactlyWhen(b, n, requests, id, header);
    TrafficKeepsClear(sha, base, n, requests);
    CalculatedIsUnmistakable(sha, log);
    ClearIsPlaceable(base, ServeAll(b, n, requests).tree, DigestOf(sha, log));
  }

  // ---------------------------------------------------------------- a put that blocks another one

  /** An empty upload that is completed with a text below a digest is refused, and no put of that digest succeeds any
      more until the directory is removed. */
  lemma RefusedPutBlocksADigest(sha: Sha, base: Path, n: Node, id: string, header: string, full: string, body: Body)
    requires PrintsFullHex(sha) && Full(full) && Sane(base, n.tree) && full !in n.tree.blobs
    requires id in n.sessions
    ensures var b := Backend(sha, StoreLayout(base));
            var (n', status) := PutUpload(b, n, id, Beyond(full), header, None);
            && status == BadRequest
            && !Puts(sha, b.layout, n'.tree, full, body)
            && BlobPath(base, full) in n'.tree.dirs
  {
    var b := Backend(sha, StoreLayout(base));
    var file := n.sessions[id].file;
    UncheckedPutsShadow(base, full);
    BeyondIsNoDigest(sha, file, full);
    FileIsABody(sha, b.layout, n.tree, Beyond(full), file);
    PutMakesDirectory(sha, base, n.tree, Beyond(full), Body([file], true), full, BlobPath(base, full));
  }

  lemma BeyondIsNoDigest(sha: Sha, content: Bytes, full: string)
    requires PrintsFullHex(sha) && Full(full)
    ensures DigestOf(sha, content) != Beyond(full)
  {
    assert |DigestOf(sha, content)| == 71;
    assert |full| == 71;
    assert |Beyond(full)| == 73;
  }
}
