/** The store's upload sessions as objects (pkg/types/upload.go, internal/storage/filesystem/store.go), the handlers on
    top of them (internal/api/handlers/uploads.go), and the gauge that counts them (internal/metrics/storage.go). Every
    method computes the function of module Uploads that has its name. */
module UploadStore {
  import opened Common
  import opened Files
  import opened Blobs
  import opened Placing
  import ContentRange
  import U = Uploads

  class Upload {
    const id: string
    const repository: string
    var size: int
    var offset: int
    var tempFile: string

    constructor (id: string, repository: string)
      ensures this.id == id && this.repository == repository && size == 0 && offset == 0
    {
      this.id, this.repository := id, repository;
      size, offset, tempFile := 0, 0, "";
    }

    method SetOffset(offset: int)
      modifies this`offset
      ensures this.offset == offset
    {
      this.offset := offset;
    }

    method AddSize(size: int)
      modifies this`size
      ensures this.size == old(this.size) + size
    {
      this.size := this.size + size;
    }

    method SetTempFile(path: string)
      modifies this`tempFile
      ensures tempFile == path
    {
      tempFile := path;
    }
  }

  class Store {
    const backend: U.Backend
    var tree: Tree // blobs and directories
    var files: map<string, Bytes> // the uploads directory
    var uploads: map<string, Upload>
    ghost var State: U.Node // the same as a value

    ghost function SessionOf(upload: Upload): U.Session
      requires upload.tempFile in files
      reads this`files, upload
    {
      U.Session(upload.repository, files[upload.tempFile], upload.offset, upload.size)
    }

    ghost predicate Valid()
      reads this, uploads.Values
    {
      && State.tree == tree
      && State.sessions.Keys == uploads.Keys
      && (forall id | id in uploads :: Represents(id, uploads[id]))
    }

    /** The file of a session is named after its id. */
    ghost predicate Represents(id: string, upload: Upload)
      reads this`files, this`State, upload
    {
      && upload.id == id == upload.tempFile && id in files
      && id in State.sessions && State.sessions[id] == SessionOf(upload)
    }

    constructor (backend: U.Backend, tree: Tree)
      ensures Valid() && this.backend == backend && State == U.Node(tree, map[])
    {
      this.backend, this.tree := backend, tree;
      files, uploads := map[], map[];
      State := U.Node(tree, map[]);
    }

    /** The id is a UUID drawn afresh: no session and no file has it. */
    method CreateUpload(id: string, repository: string) returns (upload: Upload)
      requires Valid() && id !in uploads && id !in files
      modifies this
      ensures Valid() && fresh(upload) && uploads == old(uploads)[id := upload]
      ensures State == old(State).(sessions := old(State).sessions[id := U.NewSession(repository)])
    {
      upload := new Upload(id, repository);
      upload.SetTempFile(id);
      files := files[id := []];
      uploads := uploads[id := upload];
      State := State.(sessions := State.sessions[id := U.NewSession(repository)]);
    }

    /** io.Copy: piece after piece, each where the last one ended. */
    method Copy(path: string, offset: nat, body: Body) returns (written: nat, ok: bool)
      requires path in files
      modifies this`files
      ensures files == old(files)[path := WriteAt(old(files[path]), offset, body.Content())]
      ensures written == |body.Content()| && ok == body.complete
    {
      written := 0;
      var i := 0;
      ghost var was := files[path];
      while i < |body.pieces|
        invariant 0 <= i <= |body.pieces|
        invariant path in files
        invariant files == old(files)[path := WriteAt(was, offset, Flatten(body.pieces[..i]))]
        invariant written == |Flatten(body.pieces[..i])|
      {
        var piece := body.pieces[i];
        PieceWritten(was, offset, body.pieces, i);
        files := files[path := WriteAt(files[path], offset + written, piece)];
        written := written + |piece|;
        i := i + 1;
      }
      assert body.pieces[..i] == body.pieces;
      ok := body.complete;
    }

    /** The copy into a session's file, and its counters. */
    method CopyInto(id: string, offset: nat, body: Body) returns (ok: bool)
      requires Valid() && id in uploads
      modifies this`files, this`State, uploads.Values
      ensures Valid() && uploads == old(uploads) && ok == body.complete
      ensures State == old(State).(sessions := old(State).sessions[id := U.Written(old(State).sessions[id], offset, body)])
    {
      var upload := uploads[id];
      ghost var session := State.sessions[id];
      var written: nat;
      written, ok := Copy(upload.tempFile, offset, body);
      if ok {
        upload.SetOffset(offset + written);
        upload.AddSize(written);
      }
      State := State.(sessions := State.sessions[id := U.Written(session, offset, body)]);
    }

    method WriteUploadChunk(id: string, offset: int, body: Body) returns (outcome: U.Outcome)
      requires Valid()
      modifies this`files, this`State, uploads.Values
      ensures Valid() && uploads == old(uploads)
      ensures (State, outcome) == U.WriteUploadChunk(old(State), id, offset, body)
    {
      if id !in uploads {
        return U.UnknownUpload;
      }
      if offset < 0 {
        return U.Failed;
      }
      var ok := CopyInto(id, offset, body);
      outcome := if ok then U.Stored else U.Failed;
    }

    /** The directories first; then a directory in the way, or another digest, makes it fail. */
    method PutBlob(digest: string, content: Bytes) returns (ok: bool)
      requires Valid()
      modifies this`tree, this`State
      ensures Valid() && State == old(State).(tree := tree)
      ensures tree == PutFile(backend.sha, backend.layout, old(tree), digest, content)
      ensures ok == PutsFile(backend.sha, backend.layout, old(tree), digest, content)
    {
      var l, before := backend.layout, tree;
      if Blocked(l, before, digest) {
        return false;
      }
      tree := tree.(dirs := tree.dirs + l.above(digest));
      ok := l.temp(digest) !in before.dirs && DigestOf(backend.sha, content) == digest && l.file(digest) !in before.dirs;
      if ok {
        tree := tree.(blobs := tree.blobs[digest := content]);
      }
      State := State.(tree := tree);
    }

    /** The session goes, then its file. */
    method Forget(id: string)
      requires Valid() && id in uploads
      modifies this`files, this`uploads, this`State
      ensures Valid() && uploads == old(uploads) - {id}
      ensures State == old(State).(sessions := old(State).sessions - {id})
    {
      var path := uploads[id].tempFile;
      uploads := uploads - {id};
      files := files - {path};
      State := State.(sessions := State.sessions - {id});
    }

    method CompleteUpload(id: string, digest: string) returns (outcome: U.Outcome)
      requires Valid()
      modifies this
      ensures Valid()
      ensures (State, outcome) == U.CompleteUpload(backend, old(State), id, digest)
      ensures uploads == if outcome == U.Stored then old(uploads) - {id} else old(uploads)
    {
      if id !in uploads {
        return U.UnknownUpload;
      }
      var path := uploads[id].tempFile;
      var ok := PutBlob(digest, files[path]);
      if !ok {
        return U.Failed;
      }
      Forget(id);
      outcome := U.Stored;
    }

    method CancelUpload(id: string) returns (outcome: U.Outcome)
      requires Valid()
      modifies this
      ensures Valid()
      ensures (State, outcome) == U.CancelUpload(old(State), id)
      ensures uploads == if outcome == U.Stored then old(uploads) - {id} else old(uploads)
    {
      if id !in uploads {
        return U.UnknownUpload;
      }
      Forget(id);
      outcome := U.Stored;
    }

    method GetUploadStatus(id: string) returns (offset: Option<int>)
      requires Valid()
      ensures offset == if id in State.sessions then Some(State.sessions[id].offset) else None
    {
      offset := if id in uploads then Some(uploads[id].offset) else None;
    }

    method PatchUpload(id: string, header: string, body: Body) returns (status: U.Status)
      requires Valid()
      modifies this`files, this`State, uploads.Values
      ensures Valid() && uploads == old(uploads)
      ensures (State, status) == U.PatchUpload(old(State), id, header, body)
    {
      var current := GetUploadStatus(id);
      if current.None? {
        return U.NotFound;
      }
      var requested := ContentRange.Parse(header);
      if requested.None? {
        return U.BadRequest;
      }
      if requested.value != current.value {
        return U.RangeNotSatisfiable;
      }
      var outcome := WriteUploadChunk(id, requested.value, body);
      status := if outcome == U.Stored then U.Accepted else U.InternalError;
    }

    method PutUpload(id: string, digest: string, header: string, body: Option<Body>) returns (status: U.Status)
      requires Valid()
      modifies this, uploads.Values
      ensures Valid()
      ensures (State, status) == U.PutUpload(backend, old(State), id, digest, header, body)
    {
      if digest == "" {
        return U.BadRequest;
      }
      if body.Some? {
        var offset := ContentRange.Parse(header);
        if offset.None? {
          offset := GetUploadStatus(id);
          if offset.None? {
            return U.InternalError;
          }
        }
        var written := WriteUploadChunk(id, offset.value, body.value);
        if written == U.UnknownUpload {
          return U.NotFound;
        } else if written == U.Failed {
          return U.InternalError;
        }
      }
      var outcome := CompleteUpload(id, digest);
      status := match outcome case Stored => U.Created case UnknownUpload => U.NotFound case Failed => U.BadRequest;
    }

    method DeleteUpload(id: string) returns (status: U.Status)
      requires Valid()
      modifies this
      ensures Valid()
      ensures (State, status) == U.DeleteUpload(old(State), id)
    {
      var outcome := CancelUpload(id);
      status := if outcome == U.Stored then U.NoContent else U.NotFound;
    }
  }

  /** The metrics wrapper: created sessions raise the gauge, and every attempt to complete or cancel lowers it. */
  class StorageMetrics {
    const store: Store
    var gauge: int
    ghost var failures: nat // attempts to complete or cancel that failed

    ghost predicate Valid()
      reads this, store, store.uploads.Values
    {
      store.Valid() && gauge == |store.uploads| - failures
    }

    constructor (store: Store)
      requires store.Valid() && store.uploads == map[]
      ensures Valid() && this.store == store && failures == 0
    {
      this.store := store;
      gauge, failures := 0, 0;
    }

    method CreateUpload(id: string, repository: string) returns (upload: Upload)
      requires Valid() && id !in store.uploads && id !in store.files
      modifies this, store
      ensures Valid() && failures == old(failures)
      ensures store.State ==
              old(store.State).(sessions := old(store.State).sessions[id := U.NewSession(repository)])
    {
      upload := store.CreateUpload(id, repository);
      gauge := gauge + 1;
      AdditionGrows(old(store.uploads), id, upload);
    }

    method CompleteUpload(id: string, digest: string) returns (outcome: U.Outcome)
      requires Valid()
      modifies this, store
      ensures Valid() && failures == old(failures) + if outcome == U.Stored then 0 else 1
      ensures (store.State, outcome) == U.CompleteUpload(store.backend, old(store.State), id, digest)
    {
      outcome := store.CompleteUpload(id, digest);
      gauge := gauge - 1;
      if outcome == U.Stored {
        RemovalShrinks(old(store.uploads), id);
      } else {
        failures := failures + 1;
      }
    }

    method CancelUpload(id: string) returns (outcome: U.Outcome)
      requires Valid()
      modifies this, store
      ensures Valid() && failures == old(failures) + if outcome == U.Stored then 0 else 1
      ensures (store.State, outcome) == U.CancelUpload(old(store.State), id)
    {
      outcome := store.CancelUpload(id);
      gauge := gauge - 1;
      if outcome == U.Stored {
        RemovalShrinks(old(store.uploads), id);
      } else {
        failures := failures + 1;
      }
    }
  }

  /** One more piece of a copy. */
  lemma PieceWritten(file: Bytes, offset: nat, pieces: seq<Bytes>, i: nat)
    requires i < |pieces|
    ensures var before, after := Flatten(pieces[..i]), Flatten(pieces[..i + 1]);
            && |after| == |before| + |pieces[i]|
            && WriteAt(WriteAt(file, offset, before), offset + |before|, pieces[i]) == WriteAt(file, offset, after)
  {
    WriteAtCompose(file, offset, Flatten(pieces[..i]), pieces[i]);
    FlattenSnoc(pieces[..i], pieces[i]);
    assert pieces[..i + 1] == pieces[..i] + [pieces[i]];
  }

  lemma AdditionGrows<T>(m: map<string, T>, id: string, x: T)
    requires id !in m
    ensures |m[id := x]| == |m| + 1
  {
    RemovalShrinks(m[id := x], id);
    assert m[id := x] - {id} == m;
  }

  lemma RemovalShrinks<T>(m: map<string, T>, id: string)
    requires id in m
    ensures |m - {id}| == |m| - 1
  {
    assert (m - {id}).Keys == m.Keys - {id};
    assert |m - {id}| == |(m - {id}).Keys| && |m| == |m.Keys|;
  }
}
