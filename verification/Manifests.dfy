/** Manifests as files (internal/storage/filesystem/store.go): a repository is a directory, a reference is a file in it,
    and a tag is written a second time under the manifest's digest. */
module Manifests {
  import opened Common
  import opened Text
  import opened Paths
  import opened Tags

  /** What JSON keeps of a manifest, as far as the store looks at it; rest stands for the other fields. */
  datatype Wire = Wire(mediaType: string, configMediaType: string, subject: Option<string>, artifactType: string,
                       annotations: Option<map<string, string>>, rest: string)

  /** A manifest in memory: what is serialised, and the internal fields that are not. */
  datatype Manifest = Manifest(wire: Wire, digest: string, size: nat, repository: string, tag: string)

  datatype Descriptor = Descriptor(mediaType: string, digest: string, size: nat, artifactType: string,
                                   annotations: Option<map<string, string>>)

  type Key = (string, string) // repository and reference

  function CleanRepo(repo: string): string {
    ReplaceAll(repo, '/', '_')
  }

  function Directory(base: Path, repo: string): Path {
    Join(base, ["manifests", CleanRepo(repo)])
  }

  function ManifestPath(base: Path, key: Key): Path {
    Join(base, ["manifests", CleanRepo(key.0), key.1])
  }

  /** Keys whose repository and reference are single names of a directory. */
  predicate Legal(key: Key) {
    Plain(CleanRepo(key.0)) && Plain(key.1)
  }

  predicate HasSuffix(s: string, suffix: string) {
    |s| >= |suffix| && s[|s| - |suffix|..] == suffix
  }

  /** Keys that can never get in each other's way. */
  predicate Regular(key: Key) {
    Legal(key) && '_' !in key.0 && !HasSuffix(key.1, TMP)
  }

  lemma ManifestPathShape(base: Path, key: Key)
    requires Legal(key)
    ensures ManifestPath(base, key) == base + ["manifests", CleanRepo(key.0), key.1]
    ensures ManifestPath(base, key) == Directory(base, key.0) + [key.1]
  {
    JoinOfPlain(base, ["manifests", CleanRepo(key.0), key.1]);
    JoinOfPlain(base, ["manifests", CleanRepo(key.0)]);
  }

  /** The keys name one file. */
  predicate Share(k1: Key, k2: Key) {
    CleanRepo(k1.0) == CleanRepo(k2.0) && k1.1 == k2.1
  }

  /** The file that a writer of the first key fills before it renames it is the second key's file. */
  predicate Overwrites(k1: Key, k2: Key) {
    CleanRepo(k1.0) == CleanRepo(k2.0) && k2.1 == k1.1 + TMP
  }

  /** Two legal keys share a file exactly when their references are equal and their repositories differ at most in
      slashes against underscores. */
  lemma SameFileExactlyWhen(base: Path, k1: Key, k2: Key)
    requires Legal(k1) && Legal(k2)
    ensures ManifestPath(base, k1) == ManifestPath(base, k2) <==> Share(k1, k2)
  {
    ManifestPathShape(base, k1);
    ManifestPathShape(base, k2);
    var p1, p2 := ManifestPath(base, k1), ManifestPath(base, k2);
    if p1 == p2 {
      assert p1[|base| + 1] == CleanRepo(k1.0) && p1[|base| + 2] == k1.1;
      assert p2[|base| + 1] == CleanRepo(k2.0) && p2[|base| + 2] == k2.1;
    }
  }

  /** Repositories have one directory exactly when they are equal but for slashes against underscores. */
  lemma SameDirectoryExactlyWhen(r1: string, r2: string)
    ensures CleanRepo(r1) == CleanRepo(r2) <==>
            |r1| == |r2| && forall i | 0 <= i < |r1| :: r1[i] == r2[i] || (r1[i] in "/_" && r2[i] in "/_")
  {
    var c1, c2 := CleanRepo(r1), CleanRepo(r2);
    if c1 == c2 {
      forall i | 0 <= i < |r1|
        ensures r1[i] == r2[i] || (r1[i] in "/_" && r2[i] in "/_")
      {
        assert c1[i] == c2[i];
      }
    } else if |r1| == |r2| {
      var i :| 0 <= i < |c1| && c1[i] != c2[i];
    }
  }

  lemma CleanRepoInjective(r1: string, r2: string)
    requires '_' !in r1 && '_' !in r2 && CleanRepo(r1) == CleanRepo(r2)
    ensures r1 == r2
  {
    forall i | 0 <= i < |r1|
      ensures r1[i] == r2[i]
    {
      assert CleanRepo(r1)[i] == CleanRepo(r2)[i];
      assert r1[i] in r1 && r2[i] in r2;
    }
  }

  lemma TempFileOfKey(base: Path, key: Key)
    requires Legal(key)
    ensures Legal((key.0, key.1 + TMP))
    ensures TempPath(ManifestPath(base, key)) == ManifestPath(base, (key.0, key.1 + TMP))
  {
    var t := key.1 + TMP;
    assert t[|t| - 1] == 'p' && t != "." && t != "..";
    ManifestPathShape(base, key);
    ManifestPathShape(base, (key.0, t));
    assert TempPath(ManifestPath(base, key)) == base + ["manifests", CleanRepo(key.0)] + [t];
  }

  lemma TempIsFileExactlyWhen(base: Path, k1: Key, k2: Key)
    requires Legal(k1) && Legal(k2)
    ensures TempPath(ManifestPath(base, k1)) == ManifestPath(base, k2) <==> Overwrites(k1, k2)
  {
    TempFileOfKey(base, k1);
    SameFileExactlyWhen(base, (k1.0, k1.1 + TMP), k2);
  }

  // ---------------------------------------------------------------- layouts

  /** Where the manifest of a key is, and the file that is filled first. */
  datatype Layout = Layout(file: Key -> Path, temp: Path -> Path)

  function StoreLayout(base: Path): Layout {
    Layout(key => ManifestPath(base, key), TempPath)
  }

  ghost predicate OwnFiles(l: Layout, keys: Key -> bool) {
    forall k1, k2 | keys(k1) && keys(k2) && l.file(k1) == l.file(k2) :: k1 == k2
  }

  ghost predicate NotTemporary(l: Layout, keys: Key -> bool) {
    forall k1, k2 | keys(k1) && keys(k2) :: l.temp(l.file(k1)) != l.file(k2)
  }

  /** The keys in use have files of their own, which are nobody's temporary file. */
  ghost predicate Exact(l: Layout, keys: Key -> bool) {
    OwnFiles(l, keys) && NotTemporary(l, keys)
  }

  ghost predicate AllLegal(keys: Key -> bool) {
    forall key | keys(key) :: Legal(key)
  }

  ghost predicate NoneShare(keys: Key -> bool) {
    forall k1, k2 | keys(k1) && keys(k2) && Share(k1, k2) :: k1 == k2
  }

  ghost predicate NoneOverwrites(keys: Key -> bool) {
    forall k1, k2 | keys(k1) && keys(k2) :: !Overwrites(k1, k2)
  }

  ghost predicate Apart(keys: Key -> bool) {
    NoneShare(keys) && NoneOverwrites(keys)
  }

  lemma OwnFilesExactlyWhen(base: Path, keys: Key -> bool)
    requires AllLegal(keys)
    ensures OwnFiles(StoreLayout(base), keys) <==> NoneShare(keys)
  {
    FilesAgree(base, keys);
  }

  lemma FilesAgree(base: Path, keys: Key -> bool)
    requires AllLegal(keys)
    ensures var l := StoreLayout(base);
            forall k1, k2 | keys(k1) && keys(k2) :: l.file(k1) == l.file(k2) <==> Share(k1, k2)
  {
    forall k1, k2 | keys(k1) && keys(k2)
      ensures ManifestPath(base, k1) == ManifestPath(base, k2) <==> Share(k1, k2)
    {
      SameFileExactlyWhen(base, k1, k2);
    }
  }

  lemma NotTemporaryExactlyWhen(base: Path, keys: Key -> bool)
    requires AllLegal(keys)
    ensures NotTemporary(StoreLayout(base), keys) <==> NoneOverwrites(keys)
  {
    TempsAgree(base, keys);
  }

  lemma TempsAgree(base: Path, keys: Key -> bool)
    requires AllLegal(keys)
    ensures var l := StoreLayout(base);
            forall k1, k2 | keys(k1) && keys(k2) :: l.temp(l.file(k1)) == l.file(k2) <==> Overwrites(k1, k2)
  {
    forall k1, k2 | keys(k1) && keys(k2)
      ensures TempPath(ManifestPath(base, k1)) == ManifestPath(base, k2) <==> Overwrites(k1, k2)
    {
      TempIsFileExactlyWhen(base, k1, k2);
    }
  }

  /** The store's layout is exact for a set of keys exactly when no two of them share a file, and none ends in ".tmp"
      where another one, in the same directory, is the same without it. */
  lemma ExactExactlyWhenApart(base: Path, keys: Key -> bool)
    requires AllLegal(keys)
    ensures Exact(StoreLayout(base), keys) <==> Apart(keys)
  {
    OwnFilesExactlyWhen(base, keys);
    NotTemporaryExactlyWhen(base, keys);
  }

  lemma RegularKeysAreApart()
    ensures AllLegal(Regular) && Apart(Regular)
  {
    forall k1, k2 | Regular(k1) && Regular(k2)
      ensures Share(k1, k2) ==> k1 == k2
      ensures !Overwrites(k1, k2)
    {
      if CleanRepo(k1.0) == CleanRepo(k2.0) {
        CleanRepoInjective(k1.0, k2.0);
      }
      assert (k1.1 + TMP)[|k1.1|..] == TMP;
    }
  }

  // ---------------------------------------------------------------- files and the map

  /** The keys that a put writes: the reference, and for a tag the digest. */
  function PutKeys(key: Key, m: Manifest): seq<Key> {
    if !IsDigestReference(key.1) && m.digest != "" then [key, (key.0, m.digest)] else [key]
  }

  /** Putting a manifest, seen as a map from keys. */
  function Put(model: map<Key, Wire>, key: Key, m: Manifest): map<Key, Wire> {
    var stored := model[key := m.wire];
    if |PutKeys(key, m)| == 2 then stored[(key.0, m.digest) := m.wire] else stored
  }

  /** The file system holds the map's manifests, each in its file, and besides them nothing but temporary files. */
  ghost predicate Shows(l: Layout, keys: Key -> bool, files: map<Path, Wire>, model: map<Key, Wire>) {
    ShowsKeys(l, keys, files, model) && ShowsNoMore(l, keys, files, model)
  }

  ghost predicate ShowsKeys(l: Layout, keys: Key -> bool, files: map<Path, Wire>, model: map<Key, Wire>) {
    && (forall key | key in model :: keys(key))
    && (forall key | keys(key) :: l.file(key) in files <==> key in model)
    && (forall key | key in model :: l.file(key) in files && files[l.file(key)] == model[key])
  }

  ghost predicate ShowsNoMore(l: Layout, keys: Key -> bool, files: map<Path, Wire>, model: map<Key, Wire>) {
    forall path | path in files :: IsTempOf(l, keys, path) || IsFileOf(l, path, model)
  }

  ghost predicate IsFileOf(l: Layout, path: Path, model: map<Key, Wire>) {
    exists key :: key in model && l.file(key) == path
  }

  ghost predicate IsTempOf(l: Layout, keys: Key -> bool, path: Path) {
    exists key :: keys(key) && l.temp(l.file(key)) == path
  }

  /** No writer has left a temporary file behind. */
  ghost predicate Tidy(l: Layout, keys: Key -> bool, files: map<Path, Wire>) {
    forall path | path in files :: !IsTempOf(l, keys, path)
  }

  /** writeManifestFile: the temporary file, then the rename. */
  function FileWritten(l: Layout, files: map<Path, Wire>, path: Path, data: Wire): map<Path, Wire> {
    (files - {l.temp(path)})[path := data]
  }

  lemma WriteShowsKeys(l: Layout, keys: Key -> bool, files: map<Path, Wire>, model: map<Key, Wire>, key: Key, data: Wire)
    requires Exact(l, keys) && ShowsKeys(l, keys, files, model) && keys(key)
    ensures ShowsKeys(l, keys, FileWritten(l, files, l.file(key), data), model[key := data])
  {
  }

  lemma WriteShows(l: Layout, keys: Key -> bool, files: map<Path, Wire>, model: map<Key, Wire>, key: Key, data: Wire)
    requires Exact(l, keys) && Shows(l, keys, files, model) && keys(key)
    ensures Shows(l, keys, FileWritten(l, files, l.file(key), data), model[key := data])
  {
    WriteShowsKeys(l, keys, files, model, key, data);
    var path := l.file(key);
    var model' := model[key := data];
    forall p | p in files && p != path && IsFileOf(l, p, model)
      ensures IsFileOf(l, p, model')
    {
      var k :| k in model && l.file(k) == p;
      assert k in model';
    }
    assert key in model';
  }

  lemma WriteKeepsTidy(l: Layout, keys: Key -> bool, files: map<Path, Wire>, key: Key, data: Wire)
    requires Exact(l, keys) && Tidy(l, keys, files) && keys(key)
    ensures Tidy(l, keys, FileWritten(l, files, l.file(key), data))
  {
  }

  lemma TempShows(l: Layout, keys: Key -> bool, files: map<Path, Wire>, model: map<Key, Wire>, key: Key, part: Wire)
    requires Exact(l, keys) && Shows(l, keys, files, model) && keys(key)
    ensures Shows(l, keys, files[l.temp(l.file(key)) := part], model)
  {
  }

  lemma DeleteShows(l: Layout, keys: Key -> bool, files: map<Path, Wire>, model: map<Key, Wire>, key: Key)
    requires Exact(l, keys) && Shows(l, keys, files, model) && keys(key)
    ensures Shows(l, keys, files - {l.file(key)}, model - {key})
    ensures Tidy(l, keys, files) ==> Tidy(l, keys, files - {l.file(key)})
  {
    forall p | p in files - {l.file(key)} && !IsTempOf(l, keys, p)
      ensures IsFileOf(l, p, model - {key})
    {
      var k :| k in model && l.file(k) == p;
      assert k in model - {key};
    }
  }

  // ---------------------------------------------------------------- runs

  /** CutShort: a put that fails or crashes once it has completed this many of its writes; part is what the next
      temporary file then holds, if the put got as far as creating it. */
  datatype Request =
    | PutRequest(key: Key, manifest: Manifest)
    | CutShort(key: Key, manifest: Manifest, completed: nat, part: Option<Wire>)
    | DeleteRequest(key: Key)

  /** The request only touches keys of the set. */
  predicate Within(r: Request, keys: Key -> bool) {
    if r.DeleteRequest? then keys(r.key) else forall k | k in PutKeys(r.key, r.manifest) :: keys(k)
  }

  /** The first writes of a put. */
  function Written(l: Layout, files: map<Path, Wire>, keys: seq<Key>, data: Wire): map<Path, Wire>
    decreases |keys|
  {
    if keys == [] then files else Written(l, FileWritten(l, files, l.file(keys[0]), data), keys[1..], data)
  }

  function Stored(model: map<Key, Wire>, keys: seq<Key>, data: Wire): map<Key, Wire>
    decreases |keys|
  {
    if keys == [] then model else Stored(model[keys[0] := data], keys[1..], data)
  }

  function FilesAfter(l: Layout, files: map<Path, Wire>, r: Request): map<Path, Wire> {
    match r
    case PutRequest(key, m) => Written(l, files, PutKeys(key, m), m.wire)
    case CutShort(key, m, completed, part) =>
      var keys := PutKeys(key, m);
      if completed >= |keys| then Written(l, files, keys, m.wire)
      else
        var files' := Written(l, files, keys[..completed], m.wire);
        if part.Some? then files'[l.temp(l.file(keys[completed])) := part.value] else files'
    case DeleteRequest(key) => files - {l.file(key)}
  }

  function ModelAfter(model: map<Key, Wire>, r: Request): map<Key, Wire> {
    match r
    case PutRequest(key, m) => Put(model, key, m)
    case CutShort(key, m, completed, _) =>
      if completed == 0 then model else if completed < |PutKeys(key, m)| then model[key := m.wire] else Put(model, key, m)
    case DeleteRequest(key) => model - {key}
  }

  function AllFiles(l: Layout, files: map<Path, Wire>, requests: seq<Request>): map<Path, Wire>
    decreases |requests|
  {
    if requests == [] then files else AllFiles(l, FilesAfter(l, files, requests[0]), requests[1..])
  }

  function WholeModel(model: map<Key, Wire>, requests: seq<Request>): map<Key, Wire>
    decreases |requests|
  {
    if requests == [] then model else WholeModel(ModelAfter(model, requests[0]), requests[1..])
  }

  lemma {:induction false} WrittenShows(l: Layout, keys: Key -> bool, files: map<Path, Wire>, model: map<Key, Wire>,
                                        put: seq<Key>, data: Wire)
    requires Exact(l, keys) && Shows(l, keys, files, model) && forall k | k in put :: keys(k)
    ensures Shows(l, keys, Written(l, files, put, data), Stored(model, put, data))
    ensures Tidy(l, keys, files) ==> Tidy(l, keys, Written(l, files, put, data))
    decreases |put|
  {
    if put != [] {
      assert put[0] in put;
      WriteShows(l, keys, files, model, put[0], data);
      if Tidy(l, keys, files) {
        WriteKeepsTidy(l, keys, files, put[0], data);
      }
      WrittenShows(l, keys, FileWritten(l, files, l.file(put[0]), data), model[put[0] := data], put[1..], data);
    }
  }

  lemma WrittenInOrder(l: Layout, files: map<Path, Wire>, key: Key, m: Manifest)
    ensures var first := FileWritten(l, files, l.file(key), m.wire);
            Written(l, files, PutKeys(key, m), m.wire) ==
            if !IsDigestReference(key.1) && m.digest != ""
            then FileWritten(l, first, l.file((key.0, m.digest)), m.wire) else first
  {
    var keys := PutKeys(key, m);
    var first := FileWritten(l, files, l.file(key), m.wire);
    assert keys[0] == key;
    assert Written(l, files, keys, m.wire) == Written(l, first, keys[1..], m.wire);
    if |keys| == 2 {
      assert keys[1..] == [(key.0, m.digest)] && keys[1..][1..] == [];
      var second := FileWritten(l, first, l.file((key.0, m.digest)), m.wire);
      assert Written(l, first, keys[1..], m.wire) == Written(l, second, [], m.wire);
    } else {
      assert keys[1..] == [];
    }
  }

  /** A put stores under its keys, and one that is cut short under the tag alone, or not at all. */
  lemma StoredIsModel(model: map<Key, Wire>, key: Key, m: Manifest)
    ensures Stored(model, PutKeys(key, m), m.wire) == Put(model, key, m)
    ensures Stored(model, PutKeys(key, m)[..0], m.wire) == model
    ensures Stored(model, PutKeys(key, m)[..1], m.wire) == model[key := m.wire]
  {
    var keys := PutKeys(key, m);
    assert keys[..1] == [key];
    assert Stored(model, [key], m.wire) == Stored(model[key := m.wire], [], m.wire);
    var first := model[key := m.wire];
    if |keys| == 2 {
      assert keys[1..] == [(key.0, m.digest)];
      assert keys[1..][1..] == [];
      assert Stored(first, keys[1..], m.wire) == Stored(first[(key.0, m.digest) := m.wire], [], m.wire);
    } else {
      assert keys[1..] == [];
    }
  }

  lemma PutShows(l: Layout, keys: Key -> bool, files: map<Path, Wire>, model: map<Key, Wire>, key: Key, m: Manifest)
    requires Exact(l, keys) && Shows(l, keys, files, model) && forall k | k in PutKeys(key, m) :: keys(k)
    ensures Shows(l, keys, Written(l, files, PutKeys(key, m), m.wire), Put(model, key, m))
    ensures Tidy(l, keys, files) ==> Tidy(l, keys, Written(l, files, PutKeys(key, m), m.wire))
  {
    WrittenShows(l, keys, files, model, PutKeys(key, m), m.wire);
    StoredIsModel(model, key, m);
  }

  lemma CutShortShows(l: Layout, keys: Key -> bool, files: map<Path, Wire>, model: map<Key, Wire>, r: Request)
    requires Exact(l, keys) && Shows(l, keys, files, model) && Within(r, keys)
    requires r.CutShort? && r.completed < |PutKeys(r.key, r.manifest)|
    ensures Shows(l, keys, FilesAfter(l, files, r), ModelAfter(model, r))
  {
    var put := PutKeys(r.key, r.manifest);
    var written := Written(l, files, put[..r.completed], r.manifest.wire);
    StoredIsModel(model, r.key, r.manifest);
    WrittenShows(l, keys, files, model, put[..r.completed], r.manifest.wire);
    if r.part.Some? {
      assert put[r.completed] in put;
      TempShows(l, keys, written, ModelAfter(model, r), put[r.completed], r.part.value);
    }
  }

  lemma RequestShows(l: Layout, keys: Key -> bool, files: map<Path, Wire>, model: map<Key, Wire>, r: Request)
    requires Exact(l, keys) && Shows(l, keys, files, model) && Within(r, keys)
    ensures Shows(l, keys, FilesAfter(l, files, r), ModelAfter(model, r))
    ensures Tidy(l, keys, files) && !r.CutShort? ==> Tidy(l, keys, FilesAfter(l, files, r))
  {
    if r.DeleteRequest? {
      DeleteShows(l, keys, files, model, r.key);
    } else if r.CutShort? && r.completed < |PutKeys(r.key, r.manifest)| {
      CutShortShows(l, keys, files, model, r);
    } else {
      PutShows(l, keys, files, model, r.key, r.manifest);
    }
  }

  /** After any run of puts, deletes and puts cut short, the files of the keys are exactly the map; without the latter
      there are no other files. */
  lemma {:induction false} FilesRefineTheMap(l: Layout, keys: Key -> bool, files: map<Path, Wire>, model: map<Key, Wire>,
                                             requests: seq<Request>)
    requires Exact(l, keys) && Shows(l, keys, files, model) && forall r | r in requests :: Within(r, keys)
    ensures Shows(l, keys, AllFiles(l, files, requests), WholeModel(model, requests))
    ensures Tidy(l, keys, files) && (forall r | r in requests :: !r.CutShort?) ==>
              Tidy(l, keys, AllFiles(l, files, requests))
    decreases |requests|
  {
    if requests != [] {
      var r := requests[0];
      assert r in requests;
      RequestShows(l, keys, files, model, r);
      FilesRefineTheMap(l, keys, FilesAfter(l, files, r), ModelAfter(model, r), requests[1..]);
    }
  }

  ghost predicate WithinAll(requests: seq<Request>, keys: Key -> bool) {
    forall r | r in requests :: Within(r, keys)
  }

  ghost predicate AlwaysRefines(l: Layout, keys: Key -> bool) {
    forall requests | WithinAll(requests, keys) ::
      Shows(l, keys, AllFiles(l, map[], requests), WholeModel(map[], requests))
  }

  /** From an empty store, every run over a set of legal keys refines the map exactly when these keys are apart. Keys
      with underscores or with ".tmp" do no harm as long as they are. */
  lemma StoreRefinesTheMapExactlyWhenApart(base: Path, keys: Key -> bool)
    requires AllLegal(keys)
    ensures AlwaysRefines(StoreLayout(base), keys) <==> Apart(keys)
  {
    var l := StoreLayout(base);
    ExactExactlyWhenApart(base, keys);
    if Apart(keys) {
      forall requests | WithinAll(requests, keys)
        ensures Shows(l, keys, AllFiles(l, map[], requests), WholeModel(map[], requests))
      {
        FilesRefineTheMap(l, keys, map[], map[], requests);
      }
    } else if k1, k2 :| keys(k1) && keys(k2) && Share(k1, k2) && k1 != k2 {
      SameFileExactlyWhen(base, k1, k2);
      SharedFileShowsTooMuch(l, keys, k1, k2);
    } else {
      var k1, k2 :| keys(k1) && keys(k2) && Overwrites(k1, k2);
      TempIsFileExactlyWhen(base, k1, k2);
      assert k1.1 != k1.1 + TMP;
      SameFileExactlyWhen(base, k1, k2);
      OverwrittenFileIsGone(l, keys, k1, k2);
    }
  }

  /** A put of a manifest without a digest, under one key. */
  function PlainPut(key: Key): Request {
    PutRequest(key, Manifest(Wire("", "", None, "", None, ""), "", 0, "", ""))
  }

  lemma PlainPutWrites(l: Layout, files: map<Path, Wire>, model: map<Key, Wire>, key: Key, rest: seq<Request>)
    ensures var wire := PlainPut(key).manifest.wire;
            && AllFiles(l, files, [PlainPut(key)] + rest) == AllFiles(l, FileWritten(l, files, l.file(key), wire), rest)
            && WholeModel(model, [PlainPut(key)] + rest) == WholeModel(model[key := wire], rest)
  {
    assert ([PlainPut(key)] + rest)[1..] == rest;
    WrittenInOrder(l, files, key, PlainPut(key).manifest);
  }

  lemma SharedFileShowsTooMuch(l: Layout, keys: Key -> bool, k1: Key, k2: Key)
    requires keys(k1) && keys(k2) && k1 != k2 && l.file(k1) == l.file(k2)
    ensures !AlwaysRefines(l, keys)
  {
    var requests := [PlainPut(k1)];
    PlainPutWrites(l, map[], map[], k1, []);
    assert [PlainPut(k1)] + [] == requests;
    assert WithinAll(requests, keys);
    assert l.file(k2) in AllFiles(l, map[], requests) && k2 !in WholeModel(map[], requests);
  }

  lemma OverwrittenFileIsGone(l: Layout, keys: Key -> bool, k1: Key, k2: Key)
    requires keys(k1) && keys(k2) && l.temp(l.file(k1)) == l.file(k2) && l.file(k1) != l.file(k2)
    ensures !AlwaysRefines(l, keys)
  {
    var requests := [PlainPut(k2)] + [PlainPut(k1)];
    var wire := PlainPut(k2).manifest.wire;
    PlainPutWrites(l, map[], map[], k2, [PlainPut(k1)]);
    var files := FileWritten(l, map[], l.file(k2), wire);
    PlainPutWrites(l, files, map[k2 := wire], k1, []);
    assert [PlainPut(k1)] + [] == [PlainPut(k1)];
    assert map[][k2 := wire] == map[k2 := wire];
    assert WithinAll(requests, keys);
    assert k2 in WholeModel(map[], requests) && l.file(k2) !in AllFiles(l, map[], requests);
  }

  // ---------------------------------------------------------------- what a request leaves alone

  /** A put under one key leaves another key's file alone exactly when that is not its temporary file. */
  lemma WriteSparesExactlyWhen(base: Path, files: map<Path, Wire>, key: Key, other: Key, data: Wire)
    requires Legal(key) && Legal(other) && !Share(key, other) && ManifestPath(base, other) in files
    ensures var path := ManifestPath(base, other);
            var files' := FileWritten(StoreLayout(base), files, ManifestPath(base, key), data);
            (path in files' && files'[path] == files[path]) <==> !Overwrites(key, other)
  {
    SameFileExactlyWhen(base, key, other);
    TempIsFileExactlyWhen(base, key, other);
  }

  ghost predicate SameDirectory(files: map<Path, Wire>, files': map<Path, Wire>, directory: Path) {
    forall name :: (directory + [name] in files' <==> directory + [name] in files)
                   && (directory + [name] in files ==> files'[directory + [name]] == files[directory + [name]])
  }

  predicate Elsewhere(key: Key, repo: string) {
    Legal(key) && CleanRepo(key.0) != CleanRepo(repo)
  }

  lemma OtherNames(base: Path, c1: string, n1: string, c2: string, n2: string)
    requires c1 != c2
    ensures base + ["manifests", c1, n1] != base + ["manifests", c2] + [n2]
  {
    assert (base + ["manifests", c1, n1])[|base| + 1] == c1;
    assert (base + ["manifests", c2] + [n2])[|base| + 1] == c2;
  }

  lemma ElsewhereIsNotHere(base: Path, repo: string, key: Key, name: string)
    requires Plain(CleanRepo(repo)) && Elsewhere(key, repo)
    ensures ManifestPath(base, key) != Directory(base, repo) + [name]
    ensures TempPath(ManifestPath(base, key)) != Directory(base, repo) + [name]
  {
    TempFileOfKey(base, key);
    ManifestPathShape(base, key);
    ManifestPathShape(base, (key.0, key.1 + TMP));
    JoinOfPlain(base, ["manifests", CleanRepo(repo)]);
    OtherNames(base, CleanRepo(key.0), key.1, CleanRepo(repo), name);
    OtherNames(base, CleanRepo(key.0), key.1 + TMP, CleanRepo(repo), name);
  }

  lemma OtherPathsSpare(files: map<Path, Wire>, path: Path, temp: Path, data: Wire, directory: Path)
    requires forall name :: directory + [name] != path && directory + [name] != temp
    ensures SameDirectory(files, (files - {temp})[path := data], directory)
  {
  }

  lemma WriteElsewhere(base: Path, files: map<Path, Wire>, repo: string, key: Key, data: Wire)
    requires Plain(CleanRepo(repo)) && Elsewhere(key, repo)
    ensures SameDirectory(files, FileWritten(StoreLayout(base), files, ManifestPath(base, key), data), Directory(base, repo))
  {
    var path := ManifestPath(base, key);
    forall name
      ensures Directory(base, repo) + [name] != path && Directory(base, repo) + [name] != TempPath(path)
    {
      ElsewhereIsNotHere(base, repo, key, name);
    }
    OtherPathsSpare(files, path, TempPath(path), data, Directory(base, repo));
  }

  lemma SameDirectoryTwice(files: map<Path, Wire>, files1: map<Path, Wire>, files2: map<Path, Wire>, directory: Path)
    requires SameDirectory(files, files1, directory) && SameDirectory(files1, files2, directory)
    ensures SameDirectory(files, files2, directory)
  {
  }

  lemma {:induction false} WritesElsewhere(base: Path, files: map<Path, Wire>, repo: string, keys: seq<Key>, data: Wire)
    requires Plain(CleanRepo(repo)) && forall k | k in keys :: Elsewhere(k, repo)
    ensures SameDirectory(files, Written(StoreLayout(base), files, keys, data), Directory(base, repo))
    decreases |keys|
  {
    if keys != [] {
      assert keys[0] in keys;
      var files' := FileWritten(StoreLayout(base), files, ManifestPath(base, keys[0]), data);
      WriteElsewhere(base, files, repo, keys[0], data);
      WritesElsewhere(base, files', repo, keys[1..], data);
      SameDirectoryTwice(files, files', Written(StoreLayout(base), files', keys[1..], data), Directory(base, repo));
    }
  }

  lemma DeleteElsewhere(base: Path, files: map<Path, Wire>, repo: string, key: Key)
    requires Plain(CleanRepo(repo)) && Elsewhere(key, repo)
    ensures SameDirectory(files, files - {ManifestPath(base, key)}, Directory(base, repo))
  {
    forall name
      ensures Directory(base, repo) + [name] != ManifestPath(base, key)
    {
      ElsewhereIsNotHere(base, repo, key, name);
    }
  }

  lemma LeftoverElsewhere(base: Path, files: map<Path, Wire>, repo: string, key: Key, part: Wire)
    requires Plain(CleanRepo(repo)) && Elsewhere(key, repo)
    ensures SameDirectory(files, files[TempPath(ManifestPath(base, key)) := part], Directory(base, repo))
  {
    forall name
      ensures Directory(base, repo) + [name] != TempPath(ManifestPath(base, key))
    {
      ElsewhereIsNotHere(base, repo, key, name);
    }
  }

  /** A request for one repository leaves every file in the directory of every other one alone, the temporary ones
      included; so do its failures. Repositories have one directory exactly when they agree but for slashes against
      underscores. */
  lemma RepositoriesDoNotInterfere(base: Path, files: map<Path, Wire>, repo: string, r: Request)
    requires Plain(CleanRepo(repo)) && Within(r, Legal) && CleanRepo(r.key.0) != CleanRepo(repo)
    ensures SameDirectory(files, FilesAfter(StoreLayout(base), files, r), Directory(base, repo))
  {
    if r.DeleteRequest? {
      DeleteElsewhere(base, files, repo, r.key);
    } else {
      PutElsewhere(base, files, repo, r);
    }
  }

  lemma PutElsewhere(base: Path, files: map<Path, Wire>, repo: string, r: Request)
    requires Plain(CleanRepo(repo)) && Within(r, Legal) && CleanRepo(r.key.0) != CleanRepo(repo) && !r.DeleteRequest?
    ensures SameDirectory(files, FilesAfter(StoreLayout(base), files, r), Directory(base, repo))
  {
    var keys := PutKeys(r.key, r.manifest);
    assert forall k | k in keys :: Elsewhere(k, repo);
    if r.PutRequest? || r.completed >= |keys| {
      WritesElsewhere(base, files, repo, keys, r.manifest.wire);
    } else {
      WritesElsewhere(base, files, repo, keys[..r.completed], r.manifest.wire);
      if r.part.Some? {
        assert keys[r.completed] in keys;
        var written := Written(StoreLayout(base), files, keys[..r.completed], r.manifest.wire);
        LeftoverElsewhere(base, written, repo, keys[r.completed], r.part.value);
      }
    }
  }

  lemma {:induction false} RunsDoNotInterfere(base: Path, files: map<Path, Wire>, repo: string, requests: seq<Request>)
    requires Plain(CleanRepo(repo))
    requires forall r | r in requests :: Within(r, Legal) && CleanRepo(r.key.0) != CleanRepo(repo)
    ensures SameDirectory(files, AllFiles(StoreLayout(base), files, requests), Directory(base, repo))
    decreases |requests|
  {
    if requests != [] {
      assert requests[0] in requests;
      RepositoriesDoNotInterfere(base, files, repo, requests[0]);
      RunsDoNotInterfere(base, FilesAfter(StoreLayout(base), files, requests[0]), repo, requests[1..]);
    }
  }

  // ---------------------------------------------------------------- listings

  /** The names of a directory, sorted, as os.ReadDir gives them. */
  ghost predicate ListsDirectory(names: seq<string>, files: map<Path, Wire>, directory: Path) {
    Sorted(names) && forall name :: name in names <==> directory + [name] in files
  }

  function TagsOf(names: seq<string>): seq<string> {
    if names == [] then []
    else (if IsDigestReference(names[0]) then [] else [names[0]]) + TagsOf(names[1..])
  }

  lemma {:induction false} TagsOfKeepsOrder(names: seq<string>)
    requires Sorted(names)
    ensures Sorted(TagsOf(names))
    ensures forall t :: t in TagsOf(names) <==> t in names && !IsDigestReference(t)
  {
    if names != [] {
      var rest := names[1..];
      TagsOfKeepsOrder(rest);
      assert forall t :: t in names <==> t == names[0] || t in rest;
      forall t | t in TagsOf(rest)
        ensures Less(names[0], t)
      {
        var i :| 0 <= i < |rest| && rest[i] == t;
        assert names[i + 1] == t;
      }
    }
  }

  lemma TagsStep(names: seq<string>, i: nat)
    requires i < |names|
    ensures TagsOf(names[i..]) == (if IsDigestReference(names[i]) then [] else [names[i]]) + TagsOf(names[i + 1..])
  {
    assert names[i..][0] == names[i] && names[i..][1..] == names[i + 1..];
  }

  /** Some repository of the directory has the reference, with a manifest of this kind. */
  ghost predicate InDirectory(model: map<Key, Wire>, repo: string, reference: string, kind: Wire -> bool) {
    exists r :: (r, reference) in model && CleanRepo(r) == CleanRepo(repo) && kind(model[(r, reference)])
  }

  function Any(): Wire -> bool {
    _ => true
  }

  ghost predicate ShowsTidily(base: Path, keys: Key -> bool, files: map<Path, Wire>, model: map<Key, Wire>) {
    AllLegal(keys) && Shows(StoreLayout(base), keys, files, model) && Tidy(StoreLayout(base), keys, files)
  }

  /** A file lies in a repository's directory exactly when the map has its name as a reference of a repository that has
      this directory, and holds what the map has. */
  lemma FilesOfDirectory(base: Path, keys: Key -> bool, files: map<Path, Wire>, model: map<Key, Wire>, repo: string,
                         name: string, kind: Wire -> bool)
    requires ShowsTidily(base, keys, files, model) && Plain(CleanRepo(repo))
    ensures var path := Directory(base, repo) + [name];
            path in files && kind(files[path]) <==> InDirectory(model, repo, name, kind)
  {
    var path := Directory(base, repo) + [name];
    if path in files && kind(files[path]) {
      var key := OwnerOf(StoreLayout(base), keys, files, model, path);
      FileNamesItsKey(base, repo, name, key);
      assert key == (key.0, name);
    }
    if InDirectory(model, repo, name, kind) {
      var r :| (r, name) in model && CleanRepo(r) == CleanRepo(repo) && kind(model[(r, name)]);
      assert keys((r, name));
      ManifestPathShape(base, (r, name));
      assert StoreLayout(base).file((r, name)) == path;
    }
  }

  ghost function OwnerOf(l: Layout, keys: Key -> bool, files: map<Path, Wire>, model: map<Key, Wire>, path: Path): (key: Key)
    requires Shows(l, keys, files, model) && Tidy(l, keys, files) && path in files
    ensures key in model && keys(key) && l.file(key) == path && files[path] == model[key]
  {
    assert IsFileOf(l, path, model);
    var key :| key in model && l.file(key) == path;
    key
  }

  lemma SameNames(base: Path, c1: string, n1: string, c2: string, n2: string)
    requires base + ["manifests", c1, n1] == base + ["manifests", c2] + [n2]
    ensures c1 == c2 && n1 == n2
  {
    var path := base + ["manifests", c1, n1];
    assert path[|base| + 1] == c1 && path[|base| + 2] == n1;
    assert path[|base| + 1] == c2 && path[|base| + 2] == n2;
  }

  lemma FileNamesItsKey(base: Path, repo: string, name: string, key: Key)
    requires Plain(CleanRepo(repo)) && Legal(key)
    requires ManifestPath(base, key) == Directory(base, repo) + [name]
    ensures CleanRepo(key.0) == CleanRepo(repo) && key.1 == name
  {
    ManifestPathShape(base, key);
    JoinOfPlain(base, ["manifests", CleanRepo(repo)]);
    SameNames(base, CleanRepo(key.0), key.1, CleanRepo(repo), name);
  }

  /** A repository that shares its directory with no other one in the map finds exactly its own references there. */
  lemma AloneInItsDirectory(model: map<Key, Wire>, repo: string, reference: string, kind: Wire -> bool)
    requires forall key | key in model && CleanRepo(key.0) == CleanRepo(repo) :: key.0 == repo
    ensures InDirectory(model, repo, reference, kind) <==> (repo, reference) in model && kind(model[(repo, reference)])
  {
    if InDirectory(model, repo, reference, kind) {
      var r :| (r, reference) in model && CleanRepo(r) == CleanRepo(repo) && kind(model[(r, reference)]);
      assert (r, reference).0 == r;
    }
  }

  /** What GetReferrers makes of a file that it has parsed: the digest is not in the file, so the descriptor has none. */
  function DescriptorOf(wire: Wire, size: nat): Descriptor {
    Descriptor(wire.mediaType, "", size, if wire.artifactType != "" then wire.artifactType else wire.configMediaType,
               wire.annotations)
  }

  predicate Refers(files: map<Path, Wire>, path: Path, digest: string) {
    path in files && files[path].subject == Some(digest)
  }

  /** The files of a repository that refer to a digest. */
  function ReferringNames(files: map<Path, Wire>, directory: Path, names: seq<string>, digest: string): seq<string> {
    if names == [] then []
    else (if Refers(files, directory + [names[0]], digest) then [names[0]] else [])
         + ReferringNames(files, directory, names[1..], digest)
  }

  lemma ReferringStep(files: map<Path, Wire>, directory: Path, names: seq<string>, digest: string, i: nat)
    requires i < |names|
    ensures ReferringNames(files, directory, names[i..], digest) ==
            (if Refers(files, directory + [names[i]], digest) then [names[i]] else [])
            + ReferringNames(files, directory, names[i + 1..], digest)
  {
    assert names[i..][0] == names[i] && names[i..][1..] == names[i + 1..];
  }

  lemma {:induction false} ReferringNamesAreThose(files: map<Path, Wire>, directory: Path, names: seq<string>, digest: string)
    requires Sorted(names)
    ensures Sorted(ReferringNames(files, directory, names, digest))
    ensures forall name :: name in ReferringNames(files, directory, names, digest)
                           <==> name in names && Refers(files, directory + [name], digest)
  {
    if names != [] {
      var rest := names[1..];
      ReferringNamesAreThose(files, directory, rest, digest);
      assert forall name :: name in names <==> name == names[0] || name in rest;
      forall t | t in ReferringNames(files, directory, rest, digest)
        ensures Less(names[0], t)
      {
        var i :| 0 <= i < |rest| && rest[i] == t;
        assert names[i + 1] == t;
      }
    }
  }

  /** The descriptor of each of these files. */
  predicate Describe(referrers: seq<Descriptor>, files: map<Path, Wire>, directory: Path, referring: seq<string>,
                     size: Wire -> nat)
  {
    && |referrers| == |referring|
    && forall i | 0 <= i < |referrers| ::
         var path := directory + [referring[i]];
         path in files && referrers[i] == DescriptorOf(files[path], size(files[path]))
  }

  /** One descriptor for each file of the directory with this subject, in the order of the names: its media type, no
      digest, its size, its artifact type or else its config's media type, and its annotations. */
  ghost predicate ListReferrers(referrers: seq<Descriptor>, referring: seq<string>, files: map<Path, Wire>,
                                directory: Path, digest: string, size: Wire -> nat)
  {
    && Sorted(referring) && |referrers| == |referring|
    && (forall name :: name in referring <==>
          directory + [name] in files && files[directory + [name]].subject == Some(digest))
    && (forall i | 0 <= i < |referrers| :: DescribesFile(referrers[i], files, directory + [referring[i]], size))
  }

  predicate DescribesFile(descriptor: Descriptor, files: map<Path, Wire>, path: Path, size: Wire -> nat) {
    && path in files
    && var file := files[path];
       && descriptor.mediaType == file.mediaType && descriptor.digest == ""
       && descriptor.size == size(file) && descriptor.annotations == file.annotations
       && (file.artifactType != "" ==> descriptor.artifactType == file.artifactType)
       && (file.artifactType == "" ==> descriptor.artifactType == file.configMediaType)
  }

  ghost predicate AreReferrers(referrers: seq<Descriptor>, files: map<Path, Wire>, directory: Path, digest: string,
                               size: Wire -> nat)
  {
    exists referring :: ListReferrers(referrers, referring, files, directory, digest, size)
  }

  lemma DescribedAreReferrers(referrers: seq<Descriptor>, files: map<Path, Wire>, directory: Path, names: seq<string>,
                              digest: string, size: Wire -> nat)
    requires ListsDirectory(names, files, directory)
    requires Describe(referrers, files, directory, ReferringNames(files, directory, names, digest), size)
    ensures AreReferrers(referrers, files, directory, digest, size)
  {
    var referring := ReferringNames(files, directory, names, digest);
    ReferringNamesAreThose(files, directory, names, digest);
    forall i | 0 <= i < |referrers|
      ensures DescribesFile(referrers[i], files, directory + [referring[i]], size)
    {
    }
    assert ListReferrers(referrers, referring, files, directory, digest, size);
  }

  function HasSubject(digest: string): Wire -> bool {
    (wire: Wire) => wire.subject == Some(digest)
  }

  /** In a store without leftovers, the files that GetReferrers picks are the references of the directory whose manifest
      has the digest as its subject. */
  lemma ReferrersAreTheMapsOwn(base: Path, keys: Key -> bool, files: map<Path, Wire>, model: map<Key, Wire>, repo: string,
                               names: seq<string>, digest: string)
    requires ShowsTidily(base, keys, files, model) && Plain(CleanRepo(repo))
    requires ListsDirectory(names, files, Directory(base, repo))
    ensures var referring := ReferringNames(files, Directory(base, repo), names, digest);
            && Sorted(referring)
            && forall name :: name in referring <==> InDirectory(model, repo, name, HasSubject(digest))
  {
    ReferringNamesAreThose(files, Directory(base, repo), names, digest);
    forall name
      ensures name in names && Refers(files, Directory(base, repo) + [name], digest)
              <==> InDirectory(model, repo, name, HasSubject(digest))
    {
      FilesOfDirectory(base, keys, files, model, repo, name, HasSubject(digest));
    }
  }

  // ---------------------------------------------------------------- what a put adds to the listings

  lemma NoTagBecomesADigest(tag: string)
    requires !IsDigestReference(tag)
    ensures !IsDigestReference(tag + TMP)
  {
    var t := tag + TMP;
    if |tag| >= 7 {
      assert t[..7] == tag[..7];
    } else {
      assert t[|tag|] == '.';
    }
  }

  /** The handler's digest, when there is one, has its prefix; the two keys of a put then are apart. */
  lemma PutKeysAreApart(key: Key, m: Manifest)
    requires m.digest == "" || IsDigestReference(m.digest)
    ensures forall k1, k2 | k1 in PutKeys(key, m) && k2 in PutKeys(key, m) ::
              !Overwrites(k1, k2) && (Share(k1, k2) ==> k1 == k2)
    ensures forall k | k in PutKeys(key, m) :: k.0 == key.0
  {
    if |PutKeys(key, m)| == 2 {
      NoTagBecomesADigest(key.1);
      assert IsDigestReference(m.digest + TMP) by {
        assert (m.digest + TMP)[..7] == m.digest[..7];
      }
    }
    forall k | k in PutKeys(key, m)
      ensures k.1 + TMP != k.1
    {
    }
  }

  ghost predicate NamesKey(keys: seq<Key>, name: string, suffix: string) {
    exists k :: k in keys && name == k.1 + suffix
  }

  /** In its repository's directory a write adds its own name and takes that of its temporary file. */
  lemma WriteInDirectory(base: Path, files: map<Path, Wire>, key: Key, data: Wire, name: string)
    requires Legal(key)
    ensures var path := Directory(base, key.0) + [name];
            var files' := FileWritten(StoreLayout(base), files, ManifestPath(base, key), data);
            && (path in files' <==> name == key.1 || (path in files && name != key.1 + TMP))
            && (path in files' ==> files'[path] == if name == key.1 then data else files[path])
  {
    var path := Directory(base, key.0) + [name];
    ManifestPathShape(base, key);
    TempFileOfKey(base, key);
    ManifestPathShape(base, (key.0, key.1 + TMP));
    assert path[|path| - 1] == name;
    assert (Directory(base, key.0) + [key.1])[|Directory(base, key.0)|] == key.1;
    assert (Directory(base, key.0) + [key.1 + TMP])[|Directory(base, key.0)|] == key.1 + TMP;
    assert key.1 + TMP != key.1;
  }

  /** A put adds exactly the names of its keys to its repository's directory, each with the manifest, and takes away
      those of their temporary files. */
  lemma PutAddsExactlyItsKeys(base: Path, files: map<Path, Wire>, key: Key, m: Manifest, name: string)
    requires (m.digest == "" || IsDigestReference(m.digest)) && forall k | k in PutKeys(key, m) :: Legal(k)
    ensures var path := Directory(base, key.0) + [name];
            var files' := FilesAfter(StoreLayout(base), files, PutRequest(key, m));
            var keys := PutKeys(key, m);
            && (path in files' <==> NamesKey(keys, name, "") || (path in files && !NamesKey(keys, name, TMP)))
            && (path in files' ==> files'[path] == if NamesKey(keys, name, "") then m.wire else files[path])
  {
    var keys := PutKeys(key, m);
    var l := StoreLayout(base);
    PutKeysAreApart(key, m);
    WrittenInOrder(l, files, key, m);
    assert key in keys && key.1 + "" == key.1;
    WriteInDirectory(base, files, key, m.wire, name);
    if |keys| == 2 {
      var alias := (key.0, m.digest);
      assert alias in keys && m.digest + "" == m.digest;
      assert !Overwrites(key, alias) && !Overwrites(alias, key);
      WriteInDirectory(base, FileWritten(l, files, ManifestPath(base, key), m.wire), alias, m.wire, name);
      TwoKeys(keys, key, alias, name);
    } else {
      OneKey(keys, key, name);
    }
  }

  /** What a put leaves under any legal key, in the letters of its reference: the manifest under the reference, and for a
      tag also under the digest, if it is known; nothing at their temporary files; all other files are as they were. */
  lemma PutStoresUnder(base: Path, files: map<Path, Wire>, key: Key, m: Manifest)
    requires (m.digest == "" || IsDigestReference(m.digest)) && Legal(key) && (m.digest != "" ==> Legal((key.0, m.digest)))
    ensures var files' := FilesAfter(StoreLayout(base), files, PutRequest(key, m));
            var aliased := !(|key.1| >= 7 && key.1[..7] == "sha256:") && m.digest != "";
            var path, alias := ManifestPath(base, key), ManifestPath(base, (key.0, m.digest));
            && path in files' && files'[path] == m.wire
            && (aliased ==> alias in files' && files'[alias] == m.wire)
            && TempPath(path) !in files' && (aliased ==> TempPath(alias) !in files')
            && (forall p | p != path && p != TempPath(path) && !(aliased && (p == alias || p == TempPath(alias))) ::
                  (p in files' <==> p in files) && (p in files ==> files'[p] == files[p]))
  {
    var l := StoreLayout(base);
    WrittenInOrder(l, files, key, m);
    PathsOfAPut(base, key, m);
    if IsDigestReference(key.1) || m.digest == "" {
      TwoFilesWritten(l, files, l.file(key), l.file(key), m.wire);
    } else {
      TwoFilesWritten(l, files, l.file(key), l.file((key.0, m.digest)), m.wire);
    }
  }

  lemma PathsOfAPut(base: Path, key: Key, m: Manifest)
    requires (m.digest == "" || IsDigestReference(m.digest)) && Legal(key) && (m.digest != "" ==> Legal((key.0, m.digest)))
    ensures var path, alias := ManifestPath(base, key), ManifestPath(base, (key.0, m.digest));
            && TempPath(path) != path
            && (!IsDigestReference(key.1) && m.digest != "" ==>
                  TempPath(path) != alias && TempPath(alias) != path && TempPath(alias) != alias)
  {
    PutKeysAreApart(key, m);
    assert key in PutKeys(key, m);
    TempIsFileExactlyWhen(base, key, key);
    if !IsDigestReference(key.1) && m.digest != "" {
      var alias := (key.0, m.digest);
      assert alias in PutKeys(key, m);
      TempIsFileExactlyWhen(base, key, alias);
      TempIsFileExactlyWhen(base, alias, key);
      TempIsFileExactlyWhen(base, alias, alias);
    }
  }

  lemma TwoFilesWritten(l: Layout, files: map<Path, Wire>, a: Path, b: Path, wire: Wire)
    requires l.temp(a) != a && l.temp(b) != b && l.temp(a) != b && l.temp(b) != a
    ensures var once := FileWritten(l, files, a, wire);
            var twice := FileWritten(l, once, b, wire);
            && (forall p :: (p in once <==> p == a || (p in files && p != l.temp(a)))
                         && (p in once ==> once[p] == if p == a then wire else files[p]))
            && (forall p :: (p in twice <==> p == a || p == b || (p in files && p != l.temp(a) && p != l.temp(b)))
                         && (p in twice ==> twice[p] == if p == a || p == b then wire else files[p]))
  {
  }

  lemma OneKey(keys: seq<Key>, key: Key, name: string)
    requires keys == [key]
    ensures NamesKey(keys, name, "") <==> name == key.1
    ensures NamesKey(keys, name, TMP) <==> name == key.1 + TMP
  {
    assert key in keys && key.1 + "" == key.1;
    assert forall k | k in keys :: k.1 + "" == k.1;
  }

  lemma TwoKeys(keys: seq<Key>, key: Key, alias: Key, name: string)
    requires keys == [key, alias]
    ensures NamesKey(keys, name, "") <==> name == key.1 || name == alias.1
    ensures NamesKey(keys, name, TMP) <==> name == key.1 + TMP || name == alias.1 + TMP
  {
    assert key in keys && alias in keys;
    assert forall k | k in keys :: k.1 + "" == k.1;
  }

  lemma {:induction false} DistinctHasItsSize(s: seq<string>)
    requires Distinct(s)
    ensures |set t | t in s| == |s|
  {
    if s != [] {
      DistinctHasItsSize(s[1..]);
      assert (set t | t in s) == {s[0]} + set t | t in s[1..];
      assert s[0] !in s[1..];
    }
  }

  lemma NamesOfPut(key: Key, m: Manifest, names: seq<string>)
    requires m.digest == "" || IsDigestReference(m.digest)
    requires Distinct(names) && forall name :: name in names <==> NamesKey(PutKeys(key, m), name, "")
    ensures |names| == |PutKeys(key, m)|
  {
    var keys := PutKeys(key, m);
    DistinctHasItsSize(names);
    if |keys| == 2 {
      forall name
        ensures name in names <==> name == key.1 || name == m.digest
      {
        TwoKeys(keys, key, (key.0, m.digest), name);
      }
      assert (set t | t in names) == {key.1, m.digest};
    } else {
      forall name
        ensures name in names <==> name == key.1
      {
        OneKey(keys, key, name);
      }
      assert (set t | t in names) == {key.1};
    }
  }

  /** A manifest that is the only one to refer to a digest is listed among its referrers once for each key of its put:
      once if it was put under a digest, or has none, and twice if it was put under a tag. */
  lemma ListedOncePerKey(base: Path, files: map<Path, Wire>, key: Key, m: Manifest, digest: string, names: seq<string>)
    requires (m.digest == "" || IsDigestReference(m.digest)) && forall k | k in PutKeys(key, m) :: Legal(k)
    requires m.wire.subject == Some(digest)
    requires forall name :: !Refers(files, Directory(base, key.0) + [name], digest)
    requires ListsDirectory(names, FilesAfter(StoreLayout(base), files, PutRequest(key, m)), Directory(base, key.0))
    ensures var files' := FilesAfter(StoreLayout(base), files, PutRequest(key, m));
            var referring := ReferringNames(files', Directory(base, key.0), names, digest);
            && (forall name :: name in referring <==> NamesKey(PutKeys(key, m), name, ""))
            && |referring| == |PutKeys(key, m)|
  {
    var files' := FilesAfter(StoreLayout(base), files, PutRequest(key, m));
    var referring := ReferringNames(files', Directory(base, key.0), names, digest);
    ReferringNamesAreThose(files', Directory(base, key.0), names, digest);
    forall name
      ensures name in referring <==> NamesKey(PutKeys(key, m), name, "")
    {
      PutAddsExactlyItsKeys(base, files, key, m, name);
      assert !Refers(files, Directory(base, key.0) + [name], digest);
    }
    SortedHasNoDuplicates(referring);
    NamesOfPut(key, m, referring);
  }

  // ---------------------------------------------------------------- the store

  class Store {
    const base: Path
    const size: Wire -> nat // the length of the serialised manifest
    var files: map<Path, Wire>

    constructor (base: Path, size: Wire -> nat)
      ensures this.base == base && this.size == size && files == map[]
    {
      this.base, this.size := base, size;
      files := map[];
    }

    method WriteManifestFile(path: Path, data: Wire)
      modifies this`files
      ensures files == FileWritten(StoreLayout(base), old(files), path, data)
    {
      var temp := TempPath(path);
      files := files[temp := data];
      var moved := files[temp];
      files := (files - {temp})[path := moved];
    }

    method PutManifest(key: Key, m: Manifest)
      modifies this`files
      ensures files == FilesAfter(StoreLayout(base), old(files), PutRequest(key, m))
    {
      WriteManifestFile(ManifestPath(base, key), m.wire);
      if !IsDigestReference(key.1) && m.digest != "" {
        WriteManifestFile(ManifestPath(base, (key.0, m.digest)), m.wire);
      }
      WrittenInOrder(StoreLayout(base), old(files), key, m);
    }

    method DeleteManifest(key: Key)
      modifies this`files
      ensures files == FilesAfter(StoreLayout(base), old(files), DeleteRequest(key))
    {
      files := files - {ManifestPath(base, key)};
    }

    /** What any map that the files show has under the key; the digest is lost on the way. */
    method GetManifest(key: Key) returns (m: Option<Manifest>)
      requires Legal(key)
      ensures m.Some? <==> ManifestPath(base, key) in files
      ensures forall keys, model | Shows(StoreLayout(base), keys, files, model) && keys(key) ::
                m == if key in model
                     then Some(Manifest(model[key], "", size(model[key]), key.0,
                                        if IsDigestReference(key.1) then "" else key.1))
                     else None
    {
      var path := ManifestPath(base, key);
      assert path == StoreLayout(base).file(key);
      if path in files {
        var data := files[path];
        var tag := if IsDigestReference(key.1) then "" else key.1;
        m := Some(Manifest(data, "", size(data), key.0, tag));
      } else {
        m := None;
      }
    }

    method ManifestExists(key: Key) returns (exists_: bool)
      requires Legal(key)
      ensures exists_ <==> ManifestPath(base, key) in files
      ensures forall keys, model | Shows(StoreLayout(base), keys, files, model) && keys(key) :: exists_ <==> key in model
    {
      assert ManifestPath(base, key) == StoreLayout(base).file(key);
      exists_ := ManifestPath(base, key) in files;
    }

    /** The sorted list of the directory's files that are no digests; with no temporary file left over these are the tags
        of any map that the files show, of all repositories that have the directory. */
    method ListTags(repo: string, names: seq<string>) returns (tags: seq<string>)
      requires Plain(CleanRepo(repo)) && ListsDirectory(names, files, Directory(base, repo))
      ensures Sorted(tags)
      ensures forall t :: t in tags <==> Directory(base, repo) + [t] in files && !(|t| >= 7 && t[..7] == "sha256:")
      ensures forall keys, model, t | ShowsTidily(base, keys, files, model) ::
                t in tags <==> InDirectory(model, repo, t, Any()) && !IsDigestReference(t)
    {
      tags := CollectTags(names);
      TagsOfKeepsOrder(names);
      forall keys, model, t | ShowsTidily(base, keys, files, model)
        ensures t in tags <==> InDirectory(model, repo, t, Any()) && !IsDigestReference(t)
      {
        FilesOfDirectory(base, keys, files, model, repo, t, Any());
      }
    }

    method CollectTags(names: seq<string>) returns (tags: seq<string>)
      ensures tags == TagsOf(names)
    {
      tags := [];
      var i := 0;
      assert names[0..] == names;
      while i < |names|
        invariant 0 <= i <= |names|
        invariant TagsOf(names) == tags + TagsOf(names[i..])
      {
        TagsStep(names, i);
        if !IsDigestReference(names[i]) {
          tags := tags + [names[i]];
        }
        i := i + 1;
      }
    }

    /** One descriptor for each file of the repository that refers to the digest. */
    method GetReferrers(repo: string, digest: string, names: seq<string>) returns (referrers: seq<Descriptor>)
      requires ListsDirectory(names, files, Directory(base, repo))
      ensures var directory := Directory(base, repo);
              Describe(referrers, files, directory, ReferringNames(files, directory, names, digest), size)
      ensures AreReferrers(referrers, files, Directory(base, repo), digest, size)
    {
      var directory := Directory(base, repo);
      referrers := CollectReferrers(directory, digest, names);
      DescribedAreReferrers(referrers, files, directory, names, digest, size);
    }

    method CollectReferrers(directory: Path, digest: string, names: seq<string>) returns (referrers: seq<Descriptor>)
      ensures Describe(referrers, files, directory, ReferringNames(files, directory, names, digest), size)
    {
      referrers := [];
      var i := 0;
      ghost var referring: seq<string> := [];
      assert names[0..] == names;
      while i < |names|
        invariant 0 <= i <= |names|
        invariant Describe(referrers, files, directory, referring, size)
        invariant ReferringNames(files, directory, names, digest)
                  == referring + ReferringNames(files, directory, names[i..], digest)
      {
        ReferringStep(files, directory, names, digest, i);
        var path := directory + [names[i]];
        if path in files && files[path].subject == Some(digest) {
          var data := files[path];
          var artifactType := if data.artifactType != "" then data.artifactType else data.configMediaType;
          referrers := referrers + [Descriptor(data.mediaType, "", size(data), artifactType, data.annotations)];
          referring := referring + [names[i]];
        }
        i := i + 1;
      }
    }
  }
}
