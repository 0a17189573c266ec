/** When a manifest can refer to a blob that no node holds (internal/api/handlers/manifests.go,
    internal/storage/filesystem/store.go): a digest that is mistaken for a directory, and a deletion at the wrong
    moment. */
module Dangling {
  import opened Common
  import opened Paths
  import opened Existence
  import opened Cluster
  import P = Publication
  import M = Manifests
  import Text
  import PutBlobCall
  import Blobs

  function Referring(digest: string): Manifest {
    Manifest(digest, [], "")
  }

  lemma ReferringRefers(digest: string)
    requires digest != ""
    ensures References(Referring(digest)) == [digest]
  {
    assert [digest] + [] == [digest] && [digest][1..] == [] && NonEmpty([]) == [];
  }

  predicate Names(m: Manifest, digest: string) {
    digest == m.config || digest in m.layers
  }

  ghost predicate Dangles(l: Site, s: State, digest: string) {
    && !Held(l, s, digest)
    && exists n, key :: n in s.nodes && key in s.nodes[n].manifests && Names(s.nodes[n].manifests[key], digest)
  }

  lemma OneStep(l: Site, s: State, step: Step, rest: seq<Step>)
    requires Enabled(l, s, step) && Run(l, Next(l, s, step), rest)
    ensures Run(l, s, [step] + rest) && Final(l, s, [step] + rest) == Final(l, Next(l, s, step), rest)
    ensures Careful(l, Next(l, s, step), rest) && Named(l, s, step) && !(step.OnDisk? && step.step.Delete?) ==>
              Careful(l, s, [step] + rest)
  {
    assert ([step] + rest)[1..] == rest;
  }

  // ---------------------------------------------------------------- what seems to exist

  /** A push of a manifest that refers to one digest, from the beginning to the end. */
  function PushSteps(at: string, key: Key, id: nat, digest: string): seq<Step> {
    [StartPush(id, Push(at, key, Referring(digest), 0))] + ([CheckBlob(id, at)] + [FinishPush(id, {})])
  }

  lemma SeemingIsStored(l: Site, s: State, at: string, key: Key, id: nat, digest: string)
    requires at in s.nodes && id !in s.pushes && digest != "" && SeemsToExist(l, s.nodes[at], digest) && l.mayKey(key)
    ensures Run(l, s, PushSteps(at, key, id, digest)) && Careful(l, s, PushSteps(at, key, id, digest))
    ensures var s' := Final(l, s, PushSteps(at, key, id, digest));
            && s'.nodes.Keys == s.nodes.Keys && (forall n | n in s.nodes :: s'.nodes[n].disk == s.nodes[n].disk)
            && key in s'.nodes[at].manifests && s'.nodes[at].manifests[key] == Referring(digest)
  {
    ReferringRefers(digest);
    var start, check, finish := StartPush(id, Push(at, key, Referring(digest), 0)), CheckBlob(id, at), FinishPush(id, {});
    var s1 := Next(l, s, start);
    var s2 := Next(l, s1, check);
    OneStep(l, s2, finish, []);
    assert [finish] + [] == [finish];
    OneStep(l, s1, check, [finish]);
    OneStep(l, s, start, [check] + [finish]);
  }

  /** A careful run at whose end a reference dangles. */
  ghost predicate CanDangle(l: Site, s: State, digest: string) {
    exists steps :: Run(l, s, steps) && Careful(l, s, steps) && Dangles(l, Final(l, s, steps), digest)
  }

  lemma StoredDangles(l: Site, s: State, at: string, key: Key, digest: string)
    requires at in s.nodes && 0 !in s.pushes && digest != "" && SeemsToExist(l, s.nodes[at], digest) && l.mayKey(key)
    requires !Held(l, s, digest)
    ensures CanDangle(l, s, digest)
  {
    SeemingIsStored(l, s, at, key, 0, digest);
    ReferringRefers(digest);
    var s' := Final(l, s, PushSteps(at, key, 0, digest));
    assert Names(s'.nodes[at].manifests[key], digest);
    assert forall n | n in s.nodes :: Found(l, s', n, digest) == Found(l, s, n, digest);
    assert Dangles(l, s', digest);
  }

  lemma DanglesLater(l: Site, s: State, step: Step, digest: string)
    requires Enabled(l, s, step) && Named(l, s, step) && !(step.OnDisk? && step.step.Delete?)
    requires CanDangle(l, Next(l, s, step), digest)
    ensures CanDangle(l, s, digest)
  {
    var s1 := Next(l, s, step);
    var rest :| Run(l, s1, rest) && Careful(l, s1, rest) && Dangles(l, Final(l, s1, rest), digest);
    OneStep(l, s, step, rest);
  }

  /** No disk has a file. */
  ghost predicate NoFiles(s: State) {
    forall n | n in s.nodes :: s.nodes[n].disk.names == map[]
  }

  lemma NoFilesHoldNothing(l: Site, s: State, digest: string)
    requires NoFiles(s)
    ensures !Held(l, s, digest)
  {
  }

  /** The digest's path is there from the beginning. */
  lemma FixedDangles(l: Site, s: State, at: string, key: Key, digest: string)
    requires Initial(l, s) && at in s.nodes && digest != "" && l.mayKey(key) && l.world.file(digest) in l.world.fixed
    ensures CanDangle(l, s, digest)
  {
    NoFilesHoldNothing(l, s, digest);
    StoredDangles(l, s, at, key, digest);
  }

  /** One put below the digest's path makes it a directory, whatever becomes of the put. */
  lemma BelowDangles(l: Site, s: State, at: string, key: Key, digest: string, below: string)
    requires Initial(l, s) && at in s.nodes && digest != "" && l.mayKey(key) && l.may(below)
    requires l.world.file(digest) in l.world.above(below)
    ensures CanDangle(l, s, digest)
  {
    var make := OnDisk(at, P.MakeDirs(below));
    var s1 := Next(l, s, make);
    NoFilesHoldNothing(l, s1, digest);
    StoredDangles(l, s1, at, key, digest);
    DanglesLater(l, s, make, digest);
  }

  /** An upload's file answers for the digest. */
  lemma UploadDangles(l: Site, s: State, at: string, key: Key, digest: string, id: string)
    requires Initial(l, s) && at in s.nodes && digest != "" && l.mayKey(key) && l.mayId(id)
    requires l.upload(id) == l.world.file(digest)
    ensures CanDangle(l, s, digest)
  {
    var s1 := Next(l, s, StartUpload(at, id));
    NoFilesHoldNothing(l, s1, digest);
    StoredDangles(l, s1, at, key, digest);
    DanglesLater(l, s, StartUpload(at, id), digest);
  }

  /** So do the temporary file of a manifest, and the directories above it. */
  lemma FillingDangles(l: Site, s: State, at: string, key: Key, digest: string, filled: Key)
    requires Initial(l, s) && at in s.nodes && digest != "" && l.mayKey(key) && l.mayKey(filled)
    requires l.world.file(digest) in l.over(filled) || l.world.file(digest) == l.filled(filled)
    ensures CanDangle(l, s, digest)
  {
    var s1 := Next(l, s, FillManifest(at, filled));
    NoFilesHoldNothing(l, s1, digest);
    StoredDangles(l, s1, at, key, digest);
    DanglesLater(l, s, FillManifest(at, filled), digest);
  }

  lemma NothingToCheck()
    ensures References(Manifest("", [], "")) == []
  {
    assert [""] + [] == [""] && [""][1..] == [] && NonEmpty([]) == [];
  }

  /** And a manifest itself, which may refer to nothing. */
  lemma ManifestDangles(l: Site, s: State, at: string, key: Key, digest: string, other: Key)
    requires Initial(l, s) && at in s.nodes && digest != "" && l.mayKey(key) && l.mayKey(other)
    requires l.world.file(digest) == l.manifest(other)
    ensures CanDangle(l, s, digest)
  {
    NothingToCheck();
    var start := StartPush(0, Push(at, other, Manifest("", [], ""), 0));
    var s1 := Next(l, s, start);
    var s2 := Next(l, s1, FinishPush(0, {}));
    NoFilesHoldNothing(l, s2, digest);
    StoredDangles(l, s2, at, key, digest);
    DanglesLater(l, s1, FinishPush(0, {}), digest);
    DanglesLater(l, s, start, digest);
  }

  /** Once what was found is gone, a push that was checked can still finish. */
  lemma FinishingDangles(l: Site, s: State, at: string, key: Key, id: nat, digest: string)
    requires at in s.nodes && id in s.pushes && s.pushes[id] == Push(at, key, Referring(digest), 1) && l.mayKey(key)
    requires digest != "" && !Held(l, s, digest)
    ensures var steps := [FinishPush(id, {})];
            Run(l, s, steps) && Careful(l, s, steps) && Dangles(l, Final(l, s, steps), digest)
  {
    ReferringRefers(digest);
    var finish := FinishPush(id, {});
    OneStep(l, s, finish, []);
    assert [finish] + [] == [finish];
    var s' := Next(l, s, finish);
    assert s'.nodes[at].manifests[key] == Referring(digest) && Names(Referring(digest), digest);
    assert forall n | n in s.nodes :: Found(l, s', n, digest) == Found(l, s, n, digest);
  }

  /** A state with a put that has its temporary file and has failed. */
  ghost predicate Failing(l: Site, s: State, at: string, put: string) {
    && at in s.nodes && s.pushes == map[]
    && s.nodes[at].disk.names == map[l.world.temp(put) := 0]
    && s.nodes[at].disk.calls == map[0 := P.Call(put, 0, [], P.Leaving)]
    && forall n | n in s.nodes && n != at :: s.nodes[n].disk.names == map[]
  }

  /** A put that fails once its temporary file is there. */
  lemma OpenThenAbort(l: Site, s: State, at: string, put: string) returns (s1: State, s2: State, s3: State)
    requires Initial(l, s) && at in s.nodes && P.Level(l.world) && l.world.temp(put) !in l.world.fixed
    ensures Enabled(l, s, OnDisk(at, P.MakeDirs(put))) && s1 == Next(l, s, OnDisk(at, P.MakeDirs(put)))
    ensures Enabled(l, s1, OnDisk(at, P.Open(0, put))) && s2 == Next(l, s1, OnDisk(at, P.Open(0, put)))
    ensures Enabled(l, s2, OnDisk(at, P.Abort(0))) && s3 == Next(l, s2, OnDisk(at, P.Abort(0)))
    ensures Failing(l, s3, at, put)
  {
    s1 := Next(l, s, OnDisk(at, P.MakeDirs(put)));
    s2 := Next(l, s1, OnDisk(at, P.Open(0, put)));
    s3 := Next(l, s2, OnDisk(at, P.Abort(0)));
  }

  /** A manifest is checked before the put has cleaned up, and stored after that. */
  lemma CheckThenLeave(l: Site, s: State, at: string, key: Key, digest: string, put: string)
    requires Failing(l, s, at, put) && digest != "" && l.mayKey(key) && l.world.temp(put) == l.world.file(digest)
    ensures CanDangle(l, s, digest)
  {
    ReferringRefers(digest);
    var start, check := StartPush(0, Push(at, key, Referring(digest), 0)), CheckBlob(0, at);
    var s1 := Next(l, s, start);
    var s2 := Next(l, s1, check);
    var leave := OnDisk(at, P.Leave(0));
    var s3 := Next(l, s2, leave);
    NoFilesHoldNothing(l, s3, digest);
    FinishingDangles(l, s3, at, key, 0, digest);
    DanglesLater(l, s2, leave, digest);
    DanglesLater(l, s1, check, digest);
    DanglesLater(l, s, start, digest);
  }

  /** While a put is under way its temporary file answers for the digest; when it has failed nothing is left. */
  lemma TemporaryDangles(l: Site, s: State, at: string, key: Key, digest: string, put: string)
    requires Initial(l, s) && at in s.nodes && P.Level(l.world) && digest != "" && l.mayKey(key) && l.may(put)
    requires l.world.temp(put) == l.world.file(digest) && l.world.temp(put) !in l.world.fixed
    ensures CanDangle(l, s, digest)
  {
    var s1, s2, s3 := OpenThenAbort(l, s, at, put);
    CheckThenLeave(l, s3, at, key, digest, put);
    DanglesLater(l, s2, OnDisk(at, P.Abort(0)), digest);
    DanglesLater(l, s1, OnDisk(at, P.Open(0, put)), digest);
    DanglesLater(l, s, OnDisk(at, P.MakeDirs(put)), digest);
  }

  // ---------------------------------------------------------------- exactly when

  predicate FromTheBeginning(l: Site, digest: string) {
    l.world.file(digest) in l.world.fixed
  }

  ghost predicate BesideABlob(l: Site, digest: string) {
    exists d :: l.may(d) && (l.world.file(digest) in l.world.above(d) || l.world.temp(d) == l.world.file(digest))
  }

  ghost predicate AtAManifest(l: Site, digest: string) {
    exists k :: l.mayKey(k) && (|| l.world.file(digest) in l.over(k)
                                || l.manifest(k) == l.world.file(digest) || l.filled(k) == l.world.file(digest))
  }

  ghost predicate AtAnUpload(l: Site, digest: string) {
    exists id :: l.mayId(id) && l.upload(id) == l.world.file(digest)
  }

  /** Something can answer for the digest that is no blob: from the beginning, above or beside a blob that callers may
      put, at or above a manifest, or as an upload. */
  ghost predicate InPlace(l: Site, digest: string) {
    FromTheBeginning(l, digest) || BesideABlob(l, digest) || AtAManifest(l, digest) || AtAnUpload(l, digest)
  }

  ghost predicate TrustsOnly(l: Site, digest: string) {
    forall r :: l.trusted(r) <==> r == digest
  }

  /** Any reference, be it any text, when it alone is trusted: it is held in every careful run, wherever a manifest refers
      to it, exactly when nothing else can be in its place. */
  lemma NeverDanglesExactlyWhen(l: Site, digest: string, s: State, at: string, key: Key)
    requires P.Level(l.world) && TrustsOnly(l, digest) && digest != ""
    requires Initial(l, s) && at in s.nodes && l.mayKey(key)
    ensures !CanDangle(l, s, digest) <==> !InPlace(l, digest)
  {
    if InPlace(l, digest) {
      InPlaceDangles(l, digest, s, at, key);
    } else {
      forall steps | Run(l, s, steps) && Careful(l, s, steps)
        ensures !Dangles(l, Final(l, s, steps), digest)
      {
        EveryReferenceResolves(l, s, steps);
        IntegrityForbidsDangling(l, Final(l, s, steps), digest);
      }
    }
  }

  lemma InPlaceDangles(l: Site, digest: string, s: State, at: string, key: Key)
    requires P.Level(l.world) && digest != "" && InPlace(l, digest)
    requires Initial(l, s) && at in s.nodes && l.mayKey(key)
    ensures CanDangle(l, s, digest)
  {
    var path := l.world.file(digest);
    if path in l.world.fixed {
      FixedDangles(l, s, at, key, digest);
    } else if d :| l.may(d) && path in l.world.above(d) {
      BelowDangles(l, s, at, key, digest, d);
    } else if d :| l.may(d) && l.world.temp(d) == path {
      TemporaryDangles(l, s, at, key, digest, d);
    } else if k :| l.mayKey(k) && (path in l.over(k) || l.filled(k) == path) {
      FillingDangles(l, s, at, key, digest, k);
    } else if k :| l.mayKey(k) && l.manifest(k) == path {
      ManifestDangles(l, s, at, key, digest, k);
    } else {
      var id :| l.mayId(id) && l.upload(id) == path;
      UploadDangles(l, s, at, key, digest, id);
    }
  }

  lemma IntegrityForbidsDangling(l: Site, s: State, digest: string)
    requires Integrity(l, s) && l.trusted(digest) && digest != ""
    ensures !Dangles(l, s, digest)
  {
    forall n, key | n in s.nodes && key in s.nodes[n].manifests && Names(s.nodes[n].manifests[key], digest)
      ensures Held(l, s, digest)
    {
      assert Resolved(l, s, s.nodes[n].manifests[key]) && Refers(l, s.nodes[n].manifests[key], digest);
    }
  }

  // ---------------------------------------------------------------- the store

  /** The store as the API uses it: accepted digests, legal keys, ids that are plain names. */
  function ApiSite(sha: Sha, base: Path, outside: set<Path>, trusted: string -> bool): Site {
    StoreSite(sha, base, outside, Accepted, M.Legal, Plain, trusted)
  }

  lemma UploadPathShape(base: Path, id: string)
    requires Plain(id)
    ensures UploadPath(base, id) == base + ["uploads", id]
  {
    JoinOfPlain(base, ["uploads", id]);
  }

  /** The first name below the base directory. */
  predicate Begins(base: Path, path: Path, name: string) {
    |path| > |base| && path[|base|] == name
  }

  lemma Beginnings(base: Path, digest: string, key: Key, id: string)
    requires Accepted(digest) && M.Legal(key) && Plain(id)
    ensures !Begins(base, BlobPath(base, digest), "manifests") && !Begins(base, BlobPath(base, digest), "uploads")
    ensures !Begins(base, TempPath(BlobPath(base, digest)), "manifests")
    ensures !Begins(base, TempPath(BlobPath(base, digest)), "uploads")
    ensures |BlobPath(base, digest)| > |base|
    ensures Begins(base, M.ManifestPath(base, key), "manifests")
    ensures Begins(base, TempPath(M.ManifestPath(base, key)), "manifests")
    ensures Begins(base, UploadPath(base, id), "uploads")
  {
    FixedIsNoBlob(base, digest);
    M.ManifestPathShape(base, key);
    UploadPathShape(base, id);
    TempKeepsFirst(base, BlobPath(base, digest));
  }

  /** What is there from the beginning: what else there is on the machine, the store's base directory and what is above
      it, and the first directories on the way from there to blobs, manifests and uploads. */
  lemma ThereFromTheBeginning(sha: Sha, base: Path, outside: set<Path>, digest: string, key: Key, id: string, p: Path)
    requires Accepted(digest) && Algorithm(digest) != "." && Algorithm(digest) != ".." && M.Legal(key) && Plain(id)
    ensures p in P.StoreWorld(sha, base, outside).fixed <==>
            || p in outside || p <= base
            || (|p| == |base| + 1 &&
                (p < BlobPath(base, digest) || p < M.ManifestPath(base, key) || p < UploadPath(base, id)))
  {
    BlobPathOfName(base, digest);
    M.ManifestPathShape(base, key);
    UploadPathShape(base, id);
    OnTheWay(base, BlobPath(base, digest), "blobs", p);
    OnTheWay(base, M.ManifestPath(base, key), "manifests", p);
    OnTheWay(base, UploadPath(base, id), "uploads", p);
    assert p in P.StoreWorld(sha, base, outside).fixed <==> p in Fixed(base) || p in outside;
    InFixed(base, p);
  }

  lemma InFixed(base: Path, p: Path)
    ensures p in Fixed(base) <==>
            p < base || p == base || p == base + ["blobs"] || p == base + ["manifests"] || p == base + ["uploads"]
  {
  }

  lemma OnTheWay(base: Path, path: Path, first: string, p: Path)
    requires |path| > |base| + 1 && base < path && path[|base|] == first
    ensures |p| == |base| + 1 && p < path <==> p == base + [first]
  {
    assert path[..|base| + 1] == base + [first];
  }

  lemma PrefixBegins(base: Path, p: Path, q: Path, name: string)
    requires |p| > |base| && p < q
    ensures Begins(base, p, name) <==> Begins(base, q, name)
  {
  }

  lemma KeepAway(base: Path, blob: Path, other: Path, name: string)
    requires |blob| > |base| && !Begins(base, blob, name) && Begins(base, other, name)
    ensures blob != other && blob !in Above(other) && other !in Above(blob)
  {
    if blob < other {
      PrefixBegins(base, blob, other, name);
    }
    if other < blob {
      PrefixBegins(base, other, blob, name);
    }
  }

  /** Blobs with accepted digests keep away from manifests and uploads: neither they, nor their temporary files, nor the
      directories above them are files of these, and the other way round. */
  lemma BlobsKeepAway(base: Path, digest: string, key: Key, id: string)
    requires Accepted(digest) && M.Legal(key) && Plain(id)
    ensures var blob, manifest, upload := BlobPath(base, digest), M.ManifestPath(base, key), UploadPath(base, id);
            && blob !in Above(manifest) + {manifest, TempPath(manifest), upload}
            && TempPath(blob) !in {manifest, TempPath(manifest), upload}
            && manifest !in Above(blob) && TempPath(manifest) !in Above(blob) && upload !in Above(blob)
  {
    var blob, manifest, upload := BlobPath(base, digest), M.ManifestPath(base, key), UploadPath(base, id);
    Beginnings(base, digest, key, id);
    PathsKeepAway(base, blob, TempPath(blob), manifest, TempPath(manifest), upload);
  }

  lemma PathsKeepAway(base: Path, blob: Path, temp: Path, manifest: Path, filled: Path, upload: Path)
    requires |blob| > |base| && !Begins(base, blob, "manifests") && !Begins(base, blob, "uploads")
    requires !Begins(base, temp, "manifests") && !Begins(base, temp, "uploads")
    requires Begins(base, manifest, "manifests") && Begins(base, filled, "manifests") && Begins(base, upload, "uploads")
    ensures blob !in Above(manifest) + {manifest, filled, upload}
    ensures temp !in {manifest, filled, upload}
    ensures manifest !in Above(blob) && filled !in Above(blob) && upload !in Above(blob)
  {
    KeepAway(base, blob, manifest, "manifests");
    KeepAway(base, blob, filled, "manifests");
    KeepAway(base, blob, upload, "uploads");
  }

  lemma TempKeepsFirst(base: Path, path: Path)
    requires |path| > |base| && path[|base|] !in {"manifests", "uploads"}
    ensures |TempPath(path)| > |base| && TempPath(path)[|base|] !in {"manifests", "uploads"}
  {
    var name := path[|base|];
    assert (name + TMP)[|name + TMP| - 1] == 'p' && "manifests"[8] == 's' && "uploads"[6] == 's';
  }

  lemma AcceptedIsNotFromTheBeginning(sha: Sha, base: Path, outside: set<Path>, trusted: string -> bool, digest: string)
    requires Accepted(digest) && P.IsOutside(base, outside)
    ensures !FromTheBeginning(ApiSite(sha, base, outside, trusted), digest)
  {
    P.AcceptedIsInside(base, digest);
    FixedIsNoBlob(base, digest);
  }

  lemma AcceptedIsNoManifest(sha: Sha, base: Path, outside: set<Path>, trusted: string -> bool, digest: string)
    requires Accepted(digest)
    ensures !AtAManifest(ApiSite(sha, base, outside, trusted), digest)
  {
    var l := ApiSite(sha, base, outside, trusted);
    AnIdIsPlain();
    forall k | l.mayKey(k)
      ensures l.world.file(digest) !in l.over(k)
      ensures l.manifest(k) != l.world.file(digest) && l.filled(k) != l.world.file(digest)
    {
      BlobsKeepAway(base, digest, k, "u");
    }
  }

  lemma AcceptedIsNoUpload(sha: Sha, base: Path, outside: set<Path>, trusted: string -> bool, digest: string)
    requires Accepted(digest)
    ensures !AtAnUpload(ApiSite(sha, base, outside, trusted), digest)
  {
    var l := ApiSite(sha, base, outside, trusted);
    AKeyIsLegal();
    forall id | l.mayId(id)
      ensures l.upload(id) != l.world.file(digest)
    {
      BlobsKeepAway(base, digest, ("r", "t"), id);
    }
  }

  lemma AcceptedIsBesideABlobExactlyWhen(sha: Sha, base: Path, outside: set<Path>, trusted: string -> bool, digest: string)
    requires Accepted(digest)
    ensures BesideABlob(ApiSite(sha, base, outside, trusted), digest) <==> !Unmistakable(digest)
  {
    var l := ApiSite(sha, base, outside, trusted);
    AcceptedPutsShadowExactly(base, digest);
    FixedIsNoBlob(base, digest);
    forall d
      ensures l.world.temp(d) != l.world.file(digest)
    {
      TempPathIsNoBlobPath(base, BlobPath(base, d), digest);
    }
    if d :| Accepted(d) && BlobPath(base, digest) < BlobPath(base, d) {
      assert l.world.file(digest) in l.world.above(d);
    }
  }

  /** In that store an accepted reference has something else in its place exactly when its hex has two digits, or fewer
      than four below the algorithm ".". */
  lemma AcceptedInPlaceExactlyWhen(sha: Sha, base: Path, outside: set<Path>, trusted: string -> bool, digest: string)
    requires Accepted(digest) && P.IsOutside(base, outside)
    ensures InPlace(ApiSite(sha, base, outside, trusted), digest) <==> !Unmistakable(digest)
  {
    AcceptedIsNotFromTheBeginning(sha, base, outside, trusted, digest);
    AcceptedIsBesideABlobExactlyWhen(sha, base, outside, trusted, digest);
    AcceptedIsNoManifest(sha, base, outside, trusted, digest);
    AcceptedIsNoUpload(sha, base, outside, trusted, digest);
  }

  lemma AcceptedNeverDanglesExactlyWhen(sha: Sha, base: Path, outside: set<Path>, digest: string, s: State, at: string)
    requires Accepted(digest) && P.IsOutside(base, outside) && at in s.nodes
    requires Initial(ApiSite(sha, base, outside, r => r == digest), s)
    ensures !CanDangle(ApiSite(sha, base, outside, r => r == digest), s, digest) <==> Unmistakable(digest)
  {
    P.StoreIsSeparated(sha, base, outside);
    AcceptedInPlaceExactlyWhen(sha, base, outside, r => r == digest, digest);
    AKeyIsLegal();
    NeverDanglesExactlyWhen(ApiSite(sha, base, outside, r => r == digest), digest, s, at, ("r", "t"));
  }

  lemma AKeyIsLegal()
    ensures M.Legal(("r", "t"))
  {
    assert M.CleanRepo("r")[0] == 'r';
  }

  lemma AnIdIsPlain()
    ensures Plain("u")
  {
  }

  /** A reference that is no digest: up from the blobs, and down to a repository's directory. */
  function ToDirectory(key: Key): string {
    ".." + ['/'] + ("manifests" + ['/'] + M.CleanRepo(key.0))
  }

  lemma UpAndDown(base: Path, x: string, y: string)
    requires Plain(x) && Plain(y) && ':' !in x && ':' !in y
    ensures BlobPath(base, ".." + ['/'] + (x + ['/'] + y)) == base + [x, y]
  {
    var text := ".." + ['/'] + (x + ['/'] + y);
    assert ':' !in text && IndexOfNone(text);
    ThreeParts(x, y);
    Text.SplitWithoutSeparator("blobs", '/');
    assert ["blobs", text][1..] == [text] && [text][1..] == [];
    assert Components([text]) == ["..", x, y] + Components([]);
    assert Components(["blobs", text]) == ["blobs"] + ["..", x, y];
    var c := ["blobs"] + ["..", x, y];
    assert c[1..] == ["..", x, y] && ["..", x, y][1..] == [x, y] && (base + ["blobs"])[..|base|] == base;
    assert Clean(base, c) == Clean(base + ["blobs"], ["..", x, y]) == Clean(base, [x, y]);
    assert [x, y][1..] == [y] && [y][1..] == [];
    assert Clean(base, [x, y]) == Clean(base + [x], [y]) == Clean(base + [x] + [y], []);
    assert base + [x] + [y] == base + [x, y];
  }

  predicate IndexOfNone(text: string) {
    Text.IndexOf(text, ':') == |text|
  }

  lemma ThreeParts(x: string, y: string)
    requires '/' !in x && '/' !in y
    ensures Text.Split(".." + ['/'] + (x + ['/'] + y), '/') == ["..", x, y]
  {
    Text.SplitAtFirst("..", x + ['/'] + y, '/');
    Text.SplitAtFirst(x, y, '/');
    Text.SplitWithoutSeparator(y, '/');
  }

  /** References that are no digests can lead to anything: "." to all blobs, and others to the manifests of any
      repository without a colon in its name. */
  lemma SomeTextsDangle(sha: Sha, base: Path, outside: set<Path>, trusted: string -> bool, s: State, at: string, key: Key)
    requires Initial(ApiSite(sha, base, outside, trusted), s) && at in s.nodes
    requires M.Legal(key) && ':' !in M.CleanRepo(key.0)
    ensures CanDangle(ApiSite(sha, base, outside, trusted), s, ".")
    ensures CanDangle(ApiSite(sha, base, outside, trusted), s, ToDirectory(key))
  {
    var l := ApiSite(sha, base, outside, trusted);
    P.StoreIsSeparated(sha, base, outside);
    DotIsADirectory(base);
    FixedDangles(l, s, at, key, ".");
    DirectoryIsOver(base, key);
    FillingDangles(l, s, at, key, ToDirectory(key), key);
  }

  lemma DirectoryIsOver(base: Path, key: Key)
    requires M.Legal(key) && ':' !in M.CleanRepo(key.0)
    ensures BlobPath(base, ToDirectory(key)) < M.ManifestPath(base, key)
  {
    var repo := M.CleanRepo(key.0);
    UpAndDown(base, "manifests", repo);
    M.ManifestPathShape(base, key);
    LastIsBelow(BlobPath(base, ToDirectory(key)), M.ManifestPath(base, key), base, repo, key.1);
  }

  lemma LastIsBelow(directory: Path, path: Path, base: Path, repo: string, name: string)
    requires directory == base + ["manifests", repo] && path == base + ["manifests", repo, name]
    ensures directory < path
  {
    assert path == directory + [name];
  }

  // ---------------------------------------------------------------- all references at once

  lemma StoreIsGuarded(sha: Sha, base: Path, outside: set<Path>)
    requires P.IsOutside(base, outside)
    ensures Guarded(ApiSite(sha, base, outside, Unmistakable))
  {
    var l := ApiSite(sha, base, outside, Unmistakable);
    forall r | l.trusted(r)
      ensures !InPlace(l, r)
    {
      AcceptedInPlaceExactlyWhen(sha, base, outside, Unmistakable, r);
    }
    FreeIsGuarded(l);
  }

  lemma FreeIsGuarded(l: Site)
    requires forall r | l.trusted(r) :: !InPlace(l, r)
    ensures Guarded(l)
  {
  }

  /** In every careful run without harmful overlaps, every trusted digest that a stored manifest refers to is found by
      readers of some node, and what they find hashes to it. In the registry every unmistakable digest may be trusted. */
  lemma ReferencesResolveToTheirContent(l: Site, overlaps: set<string>, s: State, steps: seq<Step>, n: string, key: Key,
                                        digest: string)
    returns (holder: string)
    requires Guarded(l) && P.Separated(l.world) && P.PrintsHex(l.world.sha) && P.Harmless(l.world, overlaps)
    requires Initial(l, s) && Run(l, s, steps) && Careful(l, s, steps) && OverlapsWithin(l, overlaps, s, steps)
    requires var s' := Final(l, s, steps);
             && n in s'.nodes && key in s'.nodes[n].manifests && Names(s'.nodes[n].manifests[key], digest)
             && Accepted(digest) && l.trusted(digest)
    ensures var s' := Final(l, s, steps);
            && holder in s'.nodes && Found(l, s', holder, digest).Some?
            && DigestOf(l.world.sha, Found(l, s', holder, digest).value) == digest
  {
    var s' := Final(l, s, steps);
    EveryReferenceResolves(l, s, steps);
    holder :| holder in s'.nodes && Found(l, s', holder, digest).Some?;
    RunKeepsContentSafe(l, overlaps, s, steps);
    assert P.Sound(l.world, s'.nodes[holder].disk);
  }

  // ---------------------------------------------------------------- a deletion during a push

  ghost predicate SoleHolder(l: Site, s: State, at: string, digest: string) {
    && at in s.nodes && Found(l, s, at, digest).Some?
    && forall n | n in s.nodes && n != at :: Found(l, s, n, digest).None?
  }

  function RaceSteps(at: string, key: Key, id: nat, digest: string): seq<Step> {
    [StartPush(id, Push(at, key, Referring(digest), 0))]
    + ([CheckBlob(id, at)] + ([OnDisk(at, P.Delete(digest))] + [FinishPush(id, {})]))
  }

  /** A push that checks a blob before its last holder deletes it and finishes after that leaves a manifest without its
      blob. The deletion does not meet its guard, although no stored manifest refers to the blob. */
  lemma DeletionDuringPushBreaksIntegrity(l: Site, s: State, at: string, key: Key, id: nat, digest: string)
    requires NodesOk(l, s) && Accepted(digest) && SoleHolder(l, s, at, digest) && id !in s.pushes && l.mayKey(key)
    ensures Run(l, s, RaceSteps(at, key, id, digest)) && Dangles(l, Final(l, s, RaceSteps(at, key, id, digest)), digest)
  {
    ReferringRefers(digest);
    var start, check := StartPush(id, Push(at, key, Referring(digest), 0)), CheckBlob(id, at);
    var delete, finish := OnDisk(at, P.Delete(digest)), FinishPush(id, {});
    var s1 := Next(l, s, start);
    var s2 := Next(l, s1, check);
    assert s2.nodes == s.nodes;
    HeldAfterDeletion(l, s2, at, digest, digest);
    var s3 := Next(l, s2, delete);
    FinishingDangles(l, s3, at, key, id, digest);
    OneStep(l, s2, delete, [finish]);
    OneStep(l, s1, check, [delete] + [finish]);
    OneStep(l, s, start, [check] + ([delete] + [finish]));
  }

  /** Such a state is reached by one upload. */
  lemma OneUploadMakesASoleHolder(l: Site, s: State, at: string, content: Bytes)
    requires P.Separated(l.world) && P.Rooted(l.world) && P.PrintsHex(l.world.sha) && Initial(l, s) && at in s.nodes
    ensures var digest := DigestOf(l.world.sha, content);
            var steps := Lift(at, PutBlobCall.CallSteps(l.world, P.Empty(l.world), 0, digest, Blobs.Body([content], true)));
            Run(l, s, steps) && SoleHolder(l, Final(l, s, steps), at, digest)
  {
    var digest, body := DigestOf(l.world.sha, content), Blobs.Body([content], true);
    P.CalculatedIsAccepted(l.world, content);
    Blobs.ContentOfOnePiece(content, true);
    var disk := PutBlobCall.CallReaches(l.world, P.Empty(l.world), 0, digest, body);
    LiftedRun(l, {}, s, at, PutBlobCall.CallSteps(l.world, P.Empty(l.world), 0, digest, body));
  }
}
