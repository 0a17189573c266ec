/** Upload sessions, and the handlers that drive them (internal/api/handlers/uploads.go,
    internal/storage/filesystem/store.go, pkg/types/upload.go), as functions from state to state. Module UploadStore
    has the objects that compute them. */
module Uploads {
  import opened Common
  import opened Files
  import opened Blobs
  import opened Placing
  import ContentRange
  import Decimal

  datatype Session = Session(repository: string, file: Bytes, offset: int, size: int)

  datatype Node = Node(tree: Tree, sessions: map<string, Session>)

  /** The hash in use and where blobs go. */
  datatype Backend = Backend(sha: Sha, layout: Layout)

  datatype Outcome = Stored | UnknownUpload | Failed

  datatype Status =
    | Accepted // 202
    | Created // 201
    | NoContent // 204
    | NotFound // 404
    | BadRequest // 400
    | RangeNotSatisfiable // 416
    | InternalError // 500

  function NewSession(repository: string): Session {
    Session(repository, [], 0, 0)
  }

  /** A copy that fails leaves its bytes in the file, and the offset and size as they were. */
  function Written(s: Session, offset: nat, body: Body): Session {
    var data := body.Content();
    var file := WriteAt(s.file, offset, data);
    if body.complete then s.(file := file, offset := offset + |data|, size := s.size + |data|) else s.(file := file)
  }

  function WriteUploadChunk(n: Node, id: string, offset: int, body: Body): (Node, Outcome) {
    if id !in n.sessions then (n, UnknownUpload)
    else if offset < 0 then (n, Failed) // seek refuses
    else (n.(sessions := n.sessions[id := Written(n.sessions[id], offset, body)]), if body.complete then Stored else Failed)
  }

  function CompleteUpload(b: Backend, n: Node, id: string, digest: string): (Node, Outcome) {
    if id !in n.sessions then (n, UnknownUpload)
    else
      var file := n.sessions[id].file;
      var tree := PutFile(b.sha, b.layout, n.tree, digest, file);
      if PutsFile(b.sha, b.layout, n.tree, digest, file) then (Node(tree, n.sessions - {id}), Stored)
      else (n.(tree := tree), Failed)
  }

  function CancelUpload(n: Node, id: string): (Node, Outcome) {
    if id !in n.sessions then (n, UnknownUpload) else (n.(sessions := n.sessions - {id}), Stored)
  }

  /** PATCH: the chunk must start where the session stands. */
  function PatchUpload(n: Node, id: string, header: string, body: Body): (Node, Status) {
    if id !in n.sessions then (n, NotFound)
    else
      match ContentRange.Parse(header)
      case None => (n, BadRequest)
      case Some(start) =>
        if start != n.sessions[id].offset then (n, RangeNotSatisfiable)
        else
          var (n', outcome) := WriteUploadChunk(n, id, start, body);
          (n', if outcome == Stored then Accepted else InternalError)
  }

  /** Where the body of a PUT goes: the header counts, even an empty one, and only a malformed one falls back to the
      session's offset. */
  function PutOffset(n: Node, id: string, header: string): Option<int> {
    match ContentRange.Parse(header)
    case Some(start) => Some(start)
    case None => if id in n.sessions then Some(n.sessions[id].offset) else None
  }

  /** PUT: write the body if there is one, without a gate, then publish the file. */
  function PutUpload(b: Backend, n: Node, id: string, digest: string, header: string, body: Option<Body>): (Node, Status) {
    if digest == "" then (n, BadRequest)
    else if body.None? then Publish(b, n, id, digest)
    else
      match PutOffset(n, id, header)
      case None => (n, InternalError)
      case Some(offset) =>
        var (n', outcome) := WriteUploadChunk(n, id, offset, body.value);
        match outcome
        case UnknownUpload => (n', NotFound)
        case Failed => (n', InternalError)
        case Stored => Publish(b, n', id, digest)
  }

  function Publish(b: Backend, n: Node, id: string, digest: string): (Node, Status) {
    var (n', outcome) := CompleteUpload(b, n, id, digest);
    (n', match outcome case Stored => Created case UnknownUpload => NotFound case Failed => BadRequest)
  }

  function DeleteUpload(n: Node, id: string): (Node, Status) {
    var (n', outcome) := CancelUpload(n, id);
    (n', if outcome == Stored then NoContent else NotFound)
  }

  // ---------------------------------------------------------------- any sequence of positional writes

  datatype RawWrite = RawWrite(offset: nat, body: Body)

  function WriteAll(s: Session, writes: seq<RawWrite>): Session {
    if writes == [] then s
    else
      var last := writes[|writes| - 1];
      Written(WriteAll(s, writes[..|writes| - 1]), last.offset, last.body)
  }

  predicate Covers(w: RawWrite, i: nat) {
    w.offset <= i < w.offset + |w.body.Content()|
  }

  /** The last write that reaches a byte. */
  function LastWriter(writes: seq<RawWrite>, i: nat): (k: Option<nat>)
    ensures k.Some? ==> k.value < |writes| && Covers(writes[k.value], i)
  {
    if writes == [] then None
    else if Covers(writes[|writes| - 1], i) then Some(|writes| - 1)
    else LastWriter(writes[..|writes| - 1], i)
  }

  function End(w: RawWrite): nat {
    if w.body.Content() == [] then 0 else w.offset + |w.body.Content()|
  }

  function Extent(writes: seq<RawWrite>): nat {
    if writes == [] then 0 else Max(Extent(writes[..|writes| - 1]), End(writes[|writes| - 1]))
  }

  /** The bytes that successful writes carried. */
  function Carried(writes: seq<RawWrite>): nat {
    if writes == [] then 0
    else
      var last := writes[|writes| - 1].body;
      Carried(writes[..|writes| - 1]) + if last.complete then |last.Content()| else 0
  }

  lemma {:induction false} WritersEndWithinExtent(writes: seq<RawWrite>, i: nat)
    ensures LastWriter(writes, i).Some? ==> i < Extent(writes)
  {
    if writes != [] {
      WritersEndWithinExtent(writes[..|writes| - 1], i);
    }
  }

  function Byte(writes: seq<RawWrite>, i: nat): byte {
    match LastWriter(writes, i)
    case None => 0
    case Some(k) => writes[k].body.Content()[i - writes[k].offset]
  }

  lemma {:induction false} ByteIsItsLastWriters(repository: string, writes: seq<RawWrite>)
    ensures var file := WriteAll(NewSession(repository), writes).file;
            |file| == Extent(writes) && forall i: nat | i < |file| :: file[i] == Byte(writes, i)
  {
    if writes != [] {
      var before := writes[..|writes| - 1];
      var last := writes[|writes| - 1];
      ByteIsItsLastWriters(repository, before);
      var file := WriteAll(NewSession(repository), before).file;
      if last.body.Content() != [] {
        WriteAtBytes(file, last.offset, last.body.Content());
      }
      forall i: nat
        ensures LastWriter(before, i).Some? ==> i < |file|
        ensures !Covers(last, i) ==> Byte(writes, i) == Byte(before, i)
        ensures Covers(last, i) ==> Byte(writes, i) == last.body.Content()[i - last.offset]
      {
        WritersEndWithinExtent(before, i);
      }
    }
  }

  lemma {:induction false} CountersFollowSuccesses(repository: string, writes: seq<RawWrite>)
    ensures var s := WriteAll(NewSession(repository), writes);
            && s.size == Carried(writes)
            && s.offset == match LastSuccess(writes)
                           case None => 0
                           case Some(k) => writes[k].offset + |writes[k].body.Content()|
  {
    if writes != [] {
      CountersFollowSuccesses(repository, writes[..|writes| - 1]);
    }
  }

  /** After any writes, in any order, successful or not: each byte is the one the last write that reached it put there,
      gaps are zero, the offset is the end of the last successful write and the size is the sum of them. */
  lemma SessionIsTheFoldOfItsWrites(repository: string, writes: seq<RawWrite>)
    ensures var s := WriteAll(NewSession(repository), writes);
            && |s.file| == Extent(writes)
            && (forall i: nat | i < |s.file| :: s.file[i] == Byte(writes, i))
            && s.size == Carried(writes)
            && s.offset == match LastSuccess(writes)
                           case None => 0
                           case Some(k) => writes[k].offset + |writes[k].body.Content()|
  {
    ByteIsItsLastWriters(repository, writes);
    CountersFollowSuccesses(repository, writes);
  }

  function LastSuccess(writes: seq<RawWrite>): (k: Option<nat>)
    ensures k.Some? ==> k.value < |writes| && writes[k.value].body.complete
  {
    if writes == [] then None
    else if writes[|writes| - 1].body.complete then Some(|writes| - 1)
    else LastSuccess(writes[..|writes| - 1])
  }

  // ---------------------------------------------------------------- the gated protocol

  /** A chunk and the start its header names, if it names one. */
  datatype Patch = Patch(start: Option<int>, body: Body)

  predicate PassesGate(s: Session, p: Patch) {
    p.start == Some(s.offset)
  }

  /** What a PATCH does to its session. */
  function PatchSession(s: Session, p: Patch): Session {
    if PassesGate(s, p) && s.offset >= 0 then Written(s, s.offset, p.body) else s
  }

  function PatchAll(s: Session, patches: seq<Patch>): Session
    decreases |patches|
  {
    if patches == [] then s else PatchAll(PatchSession(s, patches[0]), patches[1..])
  }

  /** The chunks answered with 202, in order. */
  function AcceptedChunks(s: Session, patches: seq<Patch>): seq<Bytes>
    decreases |patches|
  {
    if patches == [] then []
    else
      (if PassesGate(s, patches[0]) && patches[0].body.complete then [patches[0].body.Content()] else [])
      + AcceptedChunks(PatchSession(s, patches[0]), patches[1..])
  }

  /** How far the copies that failed got. */
  function FailedReach(s: Session, patches: seq<Patch>): int
    decreases |patches|
  {
    if patches == [] then 0
    else
      Max(if PassesGate(s, patches[0]) && !patches[0].body.complete && patches[0].body.Content() != []
          then s.offset + |patches[0].body.Content()| else 0,
          FailedReach(PatchSession(s, patches[0]), patches[1..]))
  }

  /** The session holds a log: its first offset bytes, counted by its size. */
  ghost predicate HoldsLog(s: Session, log: Bytes) {
    s.offset == s.size == |log| && log <= s.file
  }

  /** Whatever is sent, in whatever order and however often, what was accepted is an append-only log without gaps. */
  lemma {:induction false} AcceptedChunksFormALog(s: Session, patches: seq<Patch>, log: Bytes)
    requires HoldsLog(s, log)
    ensures HoldsLog(PatchAll(s, patches), log + Flatten(AcceptedChunks(s, patches)))
    decreases |patches|
  {
    if patches == [] {
      assert log + [] == log;
    } else {
      var p := patches[0];
      var s1 := PatchSession(s, p);
      PatchKeepsLog(s, p, log);
      AcceptedChunksFormALog(s1, patches[1..], LogAfter(s, p, log));
      var rest := AcceptedChunks(s1, patches[1..]);
      if PassesGate(s, p) && p.body.complete {
        assert AcceptedChunks(s, patches) == [p.body.Content()] + rest;
        assert LogAfter(s, p, log) + Flatten(rest) == log + (p.body.Content() + Flatten(rest));
      } else {
        assert AcceptedChunks(s, patches) == rest;
      }
    }
  }

  /** Only copies that failed can leave bytes behind the log. */
  lemma {:induction false} FileEndsWithLogOrFailure(s: Session, patches: seq<Patch>, log: Bytes)
    requires HoldsLog(s, log)
    ensures |PatchAll(s, patches).file| ==
            Max(|s.file|, Max(PatchAll(s, patches).offset, FailedReach(s, patches)))
    decreases |patches|
  {
    if patches != [] {
      var p := patches[0];
      var s1 := PatchSession(s, p);
      PatchKeepsLog(s, p, log);
      FileEndsWithLogOrFailure(s1, patches[1..], LogAfter(s, p, log));
      OffsetsGrow(s1, patches[1..]);
    }
  }

  function LogAfter(s: Session, p: Patch, log: Bytes): Bytes {
    if PassesGate(s, p) && p.body.complete then log + p.body.Content() else log
  }

  lemma PatchKeepsLog(s: Session, p: Patch, log: Bytes)
    requires HoldsLog(s, log)
    ensures var s1 := PatchSession(s, p);
            && HoldsLog(s1, LogAfter(s, p, log))
            && |s1.file| == if PassesGate(s, p) && p.body.Content() != []
                            then Max(|s.file|, s.offset + |p.body.Content()|) else |s.file|
  {
    if PassesGate(s, p) && p.body.Content() != [] {
      WriteAtBytes(s.file, s.offset, p.body.Content());
    }
  }

  /** A log is never longer than its file, and never shorter than before. */
  lemma {:induction false} OffsetsGrow(s: Session, patches: seq<Patch>)
    ensures s.offset <= PatchAll(s, patches).offset
    decreases |patches|
  {
    if patches != [] {
      OffsetsGrow(PatchSession(s, patches[0]), patches[1..]);
    }
  }

  /** A chunk that comes twice counts once: it is refused the second time, unless it is empty, and changes nothing. */
  lemma ResentChunkIsRejected(n: Node, id: string, header: string, body: Body)
    requires PatchUpload(n, id, header, body).1 == Accepted
    ensures var n' := PatchUpload(n, id, header, body).0;
            && PatchUpload(n', id, header, body).1 == (if body.Content() == [] then Accepted else RangeNotSatisfiable)
            && PatchUpload(n', id, header, body).0 == n'
  {
    var n' := PatchUpload(n, id, header, body).0;
    if body.Content() == [] {
      assert n'.sessions[id] == n.sessions[id];
      assert n'.sessions[id := n'.sessions[id]] == n'.sessions;
    }
  }

  /** A copy that broke off can be sent again from the start: nothing of the attempt remains. */
  lemma RetryRepairs(s: Session, start: Option<int>, part: Body, whole: Body)
    requires |s.file| == s.offset && PassesGate(s, Patch(start, part))
    requires !part.complete && whole.complete && part.Content() <= whole.Content()
    ensures PatchSession(PatchSession(s, Patch(start, part)), Patch(start, whole))
            == PatchSession(s, Patch(start, whole))
  {
    WriteAtEnd(s.file, part.Content());
    WriteAtEnd(s.file, whole.Content());
  }

  // ---------------------------------------------------------------- whole runs of requests

  datatype Request =
    | PostRequest(id: string, repository: string) // the id is a fresh UUID
    | PatchRequest(id: string, header: string, body: Body)
    | PutRequest(id: string, digest: string, header: string, last: Option<Body>)
    | DeleteRequest(id: string)
    | MonolithicRequest(digest: string, body: Body)
    | DeleteBlobRequest(digest: string)

  function Serve(b: Backend, n: Node, r: Request): (Node, Status) {
    match r
    case PostRequest(id, repository) => (n.(sessions := n.sessions[id := NewSession(repository)]), Accepted)
    case PatchRequest(id, header, body) => PatchUpload(n, id, header, body)
    case PutRequest(id, digest, header, last) => PutUpload(b, n, id, digest, header, last)
    case DeleteRequest(id) => DeleteUpload(n, id)
    case MonolithicRequest(digest, body) =>
      (n.(tree := Put(b.sha, b.layout, n.tree, digest, body)),
       if Puts(b.sha, b.layout, n.tree, digest, body) then Created else InternalError)
    case DeleteBlobRequest(digest) =>
      var (tree, removal) := Placing.Delete(b.layout, n.tree, digest);
      (n.(tree := tree), match removal case Removed => Accepted case Missing => NotFound case NotEmpty => InternalError)
  }

  function ServeAll(b: Backend, n: Node, requests: seq<Request>): Node
    decreases |requests|
  {
    if requests == [] then n else ServeAll(b, Serve(b, n, requests[0]).0, requests[1..])
  }

  predicate Addresses(r: Request, id: string) {
    (r.PostRequest? || r.PatchRequest? || r.PutRequest? || r.DeleteRequest?) && r.id == id
  }

  /** The chunks that a run of requests sends to one session. */
  function ChunksFor(requests: seq<Request>, id: string): seq<Patch>
    decreases |requests|
  {
    if requests == [] then []
    else
      (if Addresses(requests[0], id) && requests[0].PatchRequest?
       then [Patch(ContentRange.Parse(requests[0].header), requests[0].body)] else [])
      + ChunksFor(requests[1..], id)
  }

  lemma OthersLeaveSessionAlone(b: Backend, n: Node, r: Request, id: string)
    requires !Addresses(r, id)
    ensures var n' := Serve(b, n, r).0;
            (id in n'.sessions <==> id in n.sessions) && (id in n.sessions ==> n'.sessions[id] == n.sessions[id])
  {
  }

  lemma PatchRequestPatchesSession(b: Backend, n: Node, r: Request)
    requires r.PatchRequest? && r.id in n.sessions
    ensures var n' := Serve(b, n, r).0;
            && n'.tree.blobs == n.tree.blobs
            && n'.sessions == n.sessions[r.id := PatchSession(n.sessions[r.id], Patch(ContentRange.Parse(r.header), r.body))]
  {
    ContentRange.StartIsNeverNegative(r.header);
  }

  /** A request answered 404, 400 or 416 changes nothing, unless it is a PUT that named a digest and found its session:
      that has written its body, if it brought one, into that session, and has created the directories above the digest. */
  lemma RefusedRequestsChangeNothing(b: Backend, n: Node, r: Request)
    requires Serve(b, n, r).1 in {NotFound, BadRequest, RangeNotSatisfiable}
    ensures var n' := Serve(b, n, r).0;
            if r.PutRequest? && r.digest != "" && r.id in n.sessions
            then && n'.tree == n.tree.(dirs := DirsAfter(b.layout, n.tree, r.digest))
                 && n'.sessions == if r.last.None? then n.sessions
                                   else n.sessions[r.id := Written(n.sessions[r.id],
                                                                   Max(PutOffset(n, r.id, r.header).value, 0),
                                                                   r.last.value)]
            else n' == n
  {
  }

  lemma {:induction false} SessionSeesItsChunks(b: Backend, n: Node, requests: seq<Request>, id: string)
    requires id in n.sessions
    requires forall r | r in requests && Addresses(r, id) :: r.PatchRequest?
    ensures id in ServeAll(b, n, requests).sessions
    ensures ServeAll(b, n, requests).sessions[id] == PatchAll(n.sessions[id], ChunksFor(requests, id))
    decreases |requests|
  {
    if requests != [] {
      var r := requests[0];
      var n' := Serve(b, n, r).0;
      if Addresses(r, id) {
        PatchRequestPatchesSession(b, n, r);
        var p := Patch(ContentRange.Parse(r.header), r.body);
        assert ChunksFor(requests, id) == [p] + ChunksFor(requests[1..], id);
      } else {
        OthersLeaveSessionAlone(b, n, r, id);
        assert ChunksFor(requests, id) == ChunksFor(requests[1..], id);
      }
      SessionSeesItsChunks(b, n', requests[1..], id);
    }
  }

  /** A session that was posted and then only patched, among any other traffic, holds the log of its accepted chunks. */
  lemma PatchedSessionHoldsLog(b: Backend, n: Node, requests: seq<Request>, id: string)
    requires id in n.sessions && n.sessions[id] == NewSession(n.sessions[id].repository)
    requires forall r | r in requests && Addresses(r, id) :: r.PatchRequest?
    ensures var s, n' := n.sessions[id], ServeAll(b, n, requests);
            && id in n'.sessions
            && HoldsLog(n'.sessions[id], Flatten(AcceptedChunks(s, ChunksFor(requests, id))))
            && |n'.sessions[id].file| == Max(n'.sessions[id].offset, FailedReach(s, ChunksFor(requests, id)))
  {
    var s := n.sessions[id];
    SessionSeesItsChunks(b, n, requests, id);
    AcceptedChunksFormALog(s, ChunksFor(requests, id), []);
    FileEndsWithLogOrFailure(s, ChunksFor(requests, id), []);
    OffsetsGrow(s, ChunksFor(requests, id));
    assert [] + Flatten(AcceptedChunks(s, ChunksFor(requests, id))) == Flatten(AcceptedChunks(s, ChunksFor(requests, id)));
  }

  /** The file that a PUT looks at: with the body, if there is one, written over it. */
  function FileAtPut(n: Node, id: string, header: string, body: Option<Body>): Bytes
    requires id in n.sessions && (body.Some? ==> PutOffset(n, id, header).value >= 0)
  {
    var file := n.sessions[id].file;
    if body.None? then file else WriteAt(file, PutOffset(n, id, header).value, body.value.Content())
  }

  /** A PUT succeeds exactly when its body, if any, arrives whole, the file then has the digest, and nothing is in the
      way of the blob. It publishes the whole file under it and removes that session only; otherwise no blob changes and
      every session stays alive, the others untouched. */
  lemma PutPublishesTheFile(b: Backend, n: Node, id: string, digest: string, header: string, body: Option<Body>)
    requires id in n.sessions && digest != "" && n.sessions[id].offset >= 0
    ensures body.Some? ==> PutOffset(n, id, header).value >= 0
    ensures var (n', status) := PutUpload(b, n, id, digest, header, body);
            var file := FileAtPut(n, id, header, body);
            && (status == Created <==>
                  && (body.Some? ==> body.value.complete) && DigestOf(b.sha, file) == digest
                  && Placeable(b.layout, n.tree, digest))
            && (status == Created ==>
                  && n'.tree == Tree(n.tree.blobs[digest := file], n.tree.dirs + b.layout.above(digest))
                  && n'.sessions == n.sessions - {id})
            && (status != Created ==>
                  && n'.tree.blobs == n.tree.blobs
                  && n'.sessions.Keys == n.sessions.Keys && n'.sessions[id].file == file
                  && forall other | other in n.sessions && other != id :: n'.sessions[other] == n.sessions[other])
  {
    ContentRange.StartIsNeverNegative(header);
    if body.Some? {
      var (n1, _) := WriteUploadChunk(n, id, PutOffset(n, id, header).value, body.value);
      assert n1.sessions - {id} == n.sessions - {id};
    }
  }

  /** Where the body of a PUT is written: where its header says, at zero when it has none, and at the session's offset
      when the header is malformed. A body that breaks off is answered 500. */
  lemma PutWritesWhereTheHeaderSays(b: Backend, n: Node, id: string, digest: string, header: string, body: Body)
    requires id in n.sessions && digest != "" && n.sessions[id].offset >= 0
    ensures var (n', status) := PutUpload(b, n, id, digest, header, Some(body));
            var start := match ContentRange.Parse(header) case Some(k) => k case None => n.sessions[id].offset;
            && start >= 0
            && (status == InternalError <==> !body.complete)
            && (status == Created ==>
                  digest in n'.tree.blobs && n'.tree.blobs[digest] == WriteAt(n.sessions[id].file, start, body.Content()))
            && (status != Created ==>
                  id in n'.sessions && n'.sessions[id].file == WriteAt(n.sessions[id].file, start, body.Content()))
  {
    ContentRange.StartIsNeverNegative(header);
  }

  /** The last chunk may come with the PUT: headed with its range, it completes the upload under the digest of the log and
      itself. */
  lemma LastChunkCompletesTheUpload(b: Backend, n: Node, id: string, log: Bytes, body: Body, end: nat)
    requires id in n.sessions && HoldsLog(n.sessions[id], log) && n.sessions[id].file == log && body.complete
    requires |log| < Decimal.INT64_LIMIT
    requires Placeable(b.layout, n.tree, DigestOf(b.sha, log + body.Content()))
    ensures var digest := DigestOf(b.sha, log + body.Content());
            var (n', status) := PutUpload(b, n, id, digest, ContentRange.PrintRange(|log|, end), Some(body));
            && status == Created && id !in n'.sessions
            && n'.tree.blobs == n.tree.blobs[digest := log + body.Content()]
  {
    ContentRange.PrintedRangeParses(|log|, end);
    WriteAtEnd(log, body.Content());
  }

  /** What the statuses of a PATCH say, and that only a chunk at the offset is written, there. */
  lemma PatchStatuses(n: Node, id: string, header: string, body: Body)
    ensures var (n', status) := PatchUpload(n, id, header, body);
            var start := ContentRange.Parse(header);
            && (status == NotFound <==> id !in n.sessions)
            && (status == BadRequest <==> id in n.sessions && start == None)
            && (status == RangeNotSatisfiable <==>
                  id in n.sessions && start.Some? && start.value != n.sessions[id].offset)
            && (status == Accepted <==> id in n.sessions && start == Some(n.sessions[id].offset) && body.complete)
            && (status == InternalError <==> id in n.sessions && start == Some(n.sessions[id].offset) && !body.complete)
            && n'.tree == n.tree && n'.sessions.Keys == n.sessions.Keys
            && (forall other | other in n.sessions && other != id :: n'.sessions[other] == n.sessions[other])
            && (status in {Accepted, InternalError} ==>
                  n'.sessions[id].file == WriteAt(n.sessions[id].file, start.value, body.Content()))
            && (status == Accepted ==>
                  && n'.sessions[id].offset == start.value + |body.Content()|
                  && n'.sessions[id].size == n.sessions[id].size + |body.Content()|)
            && (id in n.sessions && status != Accepted ==>
                  n'.sessions[id].offset == n.sessions[id].offset && n'.sessions[id].size == n.sessions[id].size)
  {
    ContentRange.StartIsNeverNegative(header);
  }

  /** What the statuses of the other requests say: a DELETE ends one session, a POST begins an empty one, a blob put in one
      piece is all there or not at all, and a deletion of a blob takes one. */
  lemma OtherStatuses(b: Backend, n: Node, r: Request)
    ensures var (n', status) := Serve(b, n, r);
            match r
            case PostRequest(id, repository) =>
              && status == Accepted && n'.tree == n.tree
              && n'.sessions == n.sessions[id := Session(repository, [], 0, 0)]
            case DeleteRequest(id) =>
              && status == (if id in n.sessions then NoContent else NotFound)
              && n'.tree == n.tree && n'.sessions == n.sessions - {id}
            case MonolithicRequest(digest, body) =>
              && (status == Created <==>
                    && body.complete && DigestOf(b.sha, body.Content()) == digest
                    && Placeable(b.layout, n.tree, digest))
              && (status == Created || status == InternalError) && n'.sessions == n.sessions
              && n'.tree.blobs == if status == Created then n.tree.blobs[digest := body.Content()] else n.tree.blobs
            case DeleteBlobRequest(digest) =>
              && (status == NotFound <==> digest !in n.tree.blobs && b.layout.file(digest) !in n.tree.dirs)
              && (digest in n.tree.blobs ==> status == Accepted)
              && n'.sessions == n.sessions
              && n'.tree.blobs == (if status == Accepted then n.tree.blobs - {digest} else n.tree.blobs)
              && (status != Accepted ==> n' == n)
            case PatchRequest(_, _, _) => true
            case PutRequest(id, digest, _, _) =>
              && (digest == "" ==> status == BadRequest && n' == n)
              && (digest != "" && id !in n.sessions ==> status in {NotFound, InternalError} && n' == n)
  {
    if r.DeleteBlobRequest? {
      DeleteRemovesExactlyOne(b.layout, n.tree, r.digest);
    }
    if r.DeleteRequest? && r.id !in n.sessions {
      assert n.sessions - {r.id} == n.sessions;
    }
  }

  /** The digest of the accepted chunks completes the upload exactly when no failed copy reached beyond them and nothing
      is in the way of the blob. */
  lemma LogCanBePublishedExactlyWhenFileEndsThere(b: Backend, n: Node, id: string, log: Bytes, header: string)
    requires id in n.sessions && HoldsLog(n.sessions[id], log)
    requires CollisionFree(b.sha, {log, n.sessions[id].file})
    ensures PutUpload(b, n, id, DigestOf(b.sha, log), header, None).1 == Created
            <==> |n.sessions[id].file| == n.sessions[id].offset && Placeable(b.layout, n.tree, DigestOf(b.sha, log))
  {
    var file := n.sessions[id].file;
    assert DigestOf(b.sha, log)[7..] == b.sha(log) && DigestOf(b.sha, file)[7..] == b.sha(file);
    assert file == log <==> |file| == |log|;
  }

  /** What a client can foresee: after any traffic, a session that was only patched completes with the digest of its
      accepted chunks exactly when no copy that failed got beyond their end, and nothing is in the way of the blob. */
  lemma UploadCompletesExactlyWhen(b: Backend, n: Node, requests: seq<Request>, id: string, header: string)
    requires id in n.sessions && n.sessions[id] == NewSession(n.sessions[id].repository)
    requires forall r | r in requests && Addresses(r, id) :: r.PatchRequest?
    requires id in ServeAll(b, n, requests).sessions
    requires CollisionFree(b.sha, {Flatten(AcceptedChunks(n.sessions[id], ChunksFor(requests, id))),
                                   ServeAll(b, n, requests).sessions[id].file})
    ensures var s, chunks, n' := n.sessions[id], ChunksFor(requests, id), ServeAll(b, n, requests);
            var log := Flatten(AcceptedChunks(s, chunks));
            PutUpload(b, n', id, DigestOf(b.sha, log), header, None).1 == Created
            <==> FailedReach(s, chunks) <= |log| && Placeable(b.layout, n'.tree, DigestOf(b.sha, log))
  {
    PatchedSessionHoldsLog(b, n, requests, id);
    var log := Flatten(AcceptedChunks(n.sessions[id], ChunksFor(requests, id)));
    LogCanBePublishedExactlyWhenFileEndsThere(b, ServeAll(b, n, requests), id, log, header);
  }

  /** It does happen: a copy of two bytes breaks off, one byte is sent instead, and its digest is refused. */
  lemma FailedCopyCanSpoilTheUpload(b: Backend, repository: string, n: Node, id: string)
    requires CollisionFree(b.sha, {[7], [7, 9]})
    requires id in n.sessions
    requires n.sessions[id] == PatchAll(NewSession(repository),
                                        [Patch(Some(0), Body([[8, 9]], false)), Patch(Some(0), Body([[7]], true))])
    ensures HoldsLog(n.sessions[id], [7]) && n.sessions[id].file == [7, 9]
    ensures PutUpload(b, n, id, DigestOf(b.sha, [7]), "", None).1 == BadRequest
  {
    var first, second := Patch(Some(0), Body([[8, 9]], false)), Patch(Some(0), Body([[7]], true));
    assert first.body.Content() == [8, 9] && second.body.Content() == [7];
    var s1 := PatchSession(NewSession(repository), first);
    assert s1 == NewSession(repository).(file := [8, 9]);
    assert PatchSession(s1, second) == Session(repository, [7, 9], 1, 1);
    assert [first, second][1..] == [second] && [second][1..] == [];
    assert PatchAll(PatchSession(s1, second), []) == PatchSession(s1, second);
    LogCanBePublishedExactlyWhenFileEndsThere(b, n, id, [7], "");
  }

  /** A PUT whose body comes without Content-Range is written over the start of the file, not after the log as the
      comment beside the code has it; the two agree exactly when the log or the body is empty. */
  lemma PutWithoutRangeContinuesOnlyFromZero(n: Node, id: string, log: Bytes, body: Body)
    requires id in n.sessions && HoldsLog(n.sessions[id], log) && n.sessions[id].file == log && body.complete
    ensures PutOffset(n, id, "") == Some(0)
    ensures WriteUploadChunk(n, id, 0, body).0.sessions[id].file == log + body.Content()
            <==> log == [] || body.Content() == []
  {
    if body.Content() != [] {
      WriteAtBytes(log, 0, body.Content());
      assert log == [] ==> WriteAt(log, 0, body.Content()) == body.Content();
    }
    assert log + [] == log;
  }

  lemma {:induction false} BlobsStayContentAddressed(b: Backend, n: Node, requests: seq<Request>)
    requires ContentAddressed(b.sha, n.tree.blobs)
    ensures ContentAddressed(b.sha, ServeAll(b, n, requests).tree.blobs)
    decreases |requests|
  {
    if requests != [] {
      BlobsStayContentAddressed(b, Serve(b, n, requests[0]).0, requests[1..]);
    }
  }
}
