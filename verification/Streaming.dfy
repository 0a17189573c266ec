/** Blobs on the wire (internal/p2p/transport/grpc.go): the sender cuts what its reader yields into chunks, the receiver
    puts them together again. */
module Streaming {
  import opened Common
  import opened Blobs
  import opened Placing

  const CHUNK_SIZE := 65536

  /** One call of Read: the bytes it put into the buffer, and nil, io.EOF or an error, in any combination. */
  datatype Ending = More | Eof | Broken

  datatype Read = Read(data: Bytes, ending: Ending)

  datatype Chunk = Chunk(digest: string, offset: nat, data: Bytes, final: bool)

  /** A reader fills a buffer of one chunk, and ends some day. */
  ghost predicate IsReader(script: seq<Read>) {
    && script != [] && script[|script| - 1].ending != More
    && (forall r | r in script :: |r.data| <= CHUNK_SIZE)
  }

  /** The bytes up to the first end, and whether that end is io.EOF. */
  function Yield(script: seq<Read>): Body {
    if script == [] then Body([], false)
    else if script[0].ending == More then
      var rest := Yield(script[1..]);
      Body([script[0].data] + rest.pieces, rest.complete)
    else Body([script[0].data], script[0].ending == Eof)
  }

  lemma YieldContent(script: seq<Read>)
    requires script != []
    ensures Yield(script).Content() ==
            script[0].data + if script[0].ending == More then Yield(script[1..]).Content() else []
  {
    var pieces := Yield(script).pieces;
    if script[0].ending == More {
      assert pieces[1..] == Yield(script[1..]).pieces;
    } else {
      assert pieces[1..] == [];
      assert Flatten(pieces) == pieces[0] + Flatten(pieces[1..]);
    }
  }

  /** SendBlob, and GetBlob on the server: one chunk for every read with data, one final chunk at io.EOF. */
  function Chunks(script: seq<Read>, digest: string, offset: nat): seq<Chunk>
    decreases |script|, 1
  {
    if script == [] then []
    else if script[0].data == [] then Tail(script, digest, offset)
    else [Chunk(digest, offset, script[0].data, false)] + Tail(script, digest, offset + |script[0].data|)
  }

  /** What follows the data of the first read. */
  function Tail(script: seq<Read>, digest: string, next: nat): seq<Chunk>
    requires script != []
    decreases |script|, 0
  {
    match script[0].ending
    case More => Chunks(script[1..], digest, next)
    case Eof => [Chunk(digest, next, [], true)]
    case Broken => []
  }

  lemma ReadStep(script: seq<Read>, i: nat, digest: string, offset: nat)
    requires IsReader(script) && i < |script|
    ensures var r, tail := script[i], Tail(script[i..], digest, offset + |script[i].data|);
            Chunks(script[i..], digest, offset) ==
            if r.data == [] then tail else [Chunk(digest, offset, r.data, false)] + tail
    ensures script[i].ending == More ==>
              && i + 1 < |script| && Yield(script[i..]).complete == Yield(script[i + 1..]).complete
              && Tail(script[i..], digest, offset + |script[i].data|)
                 == Chunks(script[i + 1..], digest, offset + |script[i].data|)
    ensures script[i].ending != More ==> Yield(script[i..]).complete == (script[i].ending == Eof)
  {
    assert script[i..][0] == script[i] && script[i..][1..] == script[i + 1..];
  }

  /** What is sent for the data of one read. */
  function DataChunk(digest: string, offset: nat, data: Bytes): seq<Chunk> {
    if data == [] then [] else [Chunk(digest, offset, data, false)]
  }

  /** What is still to be sent after the data of one read. */
  lemma SendStep(script: seq<Read>, i: nat, digest: string, offset: nat, sent: seq<Chunk>, all: seq<Chunk>)
    requires IsReader(script) && i < |script| && sent + Chunks(script[i..], digest, offset) == all
    ensures var r := script[i];
            var next, sent' := offset + |r.data|, sent + DataChunk(digest, offset, r.data);
            match r.ending
            case More => i + 1 < |script| && sent' + Chunks(script[i + 1..], digest, next) == all
            case Eof => sent' + [Chunk(digest, next, [], true)] == all
            case Broken => sent' == all
    ensures script[i].ending == More ==> Yield(script[i..]).complete == Yield(script[i + 1..]).complete
    ensures script[i].ending != More ==> Yield(script[i..]).complete == (script[i].ending == Eof)
  {
    ReadStep(script, i, digest, offset);
    var r := script[i];
    if r.data != [] {
      Regroup(sent, Chunk(digest, offset, r.data, false), Tail(script[i..], digest, offset + |r.data|));
    }
  }

  method SendBlob(script: seq<Read>, digest: string) returns (sent: seq<Chunk>, ok: bool)
    requires IsReader(script)
    ensures sent == Chunks(script, digest, 0) && ok == Yield(script).complete
  {
    ghost var all, complete := Chunks(script, digest, 0), Yield(script).complete;
    sent := [];
    var offset: nat := 0;
    var i := 0;
    assert script[0..] == script;
    while true
      invariant 0 <= i < |script|
      invariant sent + Chunks(script[i..], digest, offset) == all
      invariant Yield(script[i..]).complete == complete
      decreases |script| - i
    {
      var r := script[i];
      SendStep(script, i, digest, offset, sent, all);
      if r.data != [] {
        sent := sent + [Chunk(digest, offset, r.data, false)];
        offset := offset + |r.data|;
      }
      if r.ending == Eof {
        sent := sent + [Chunk(digest, offset, [], true)];
        return sent, true;
      }
      if r.ending == Broken {
        return sent, false;
      }
      i := i + 1;
    }
  }

  /** The server's PutBlob loop: the digest of the first chunk counts, every other chunk must agree, and the stream ends
      with the final chunk, with a half-closed stream, or with an error. */
  function Assemble(chunks: seq<Chunk>, broken: bool, digest: string, buffer: Bytes): Option<(string, Bytes)> {
    if chunks == [] then if broken then None else Some((digest, buffer))
    else
      var c := chunks[0];
      var expected := if digest == "" then c.digest else digest;
      if c.digest != expected then None
      else if c.final then Some((expected, buffer + c.data))
      else Assemble(chunks[1..], broken, expected, buffer + c.data)
  }

  method ReceiveBlob(chunks: seq<Chunk>, broken: bool) returns (received: Option<(string, Bytes)>)
    ensures received == Assemble(chunks, broken, "", [])
  {
    var digest := "";
    var buffer: Bytes := [];
    var i := 0;
    assert chunks[0..] == chunks;
    while i < |chunks|
      invariant 0 <= i <= |chunks|
      invariant Assemble(chunks[i..], broken, digest, buffer) == Assemble(chunks, broken, "", [])
    {
      var chunk := chunks[i];
      assert chunks[i..][0] == chunk && chunks[i..][1..] == chunks[i + 1..];
      if digest == "" {
        digest := chunk.digest;
      }
      if chunk.digest != digest {
        return None;
      }
      buffer := buffer + chunk.data;
      if chunk.final {
        return Some((digest, buffer));
      }
      i := i + 1;
    }
    received := if broken then None else Some((digest, buffer));
  }

  /** RequestBlob: what comes out of the pipe; it looks at no digest, the caller's PutBlob does. */
  function Pipe(chunks: seq<Chunk>, broken: bool): Body {
    if chunks == [] then Body([], !broken)
    else if chunks[0].final then Body([chunks[0].data], true)
    else
      var rest := Pipe(chunks[1..], broken);
      Body([chunks[0].data] + rest.pieces, rest.complete)
  }

  lemma PipeStep(chunks: seq<Chunk>, broken: bool, i: nat)
    requires i < |chunks|
    ensures var rest := if chunks[i].final then Body([], true) else Pipe(chunks[i + 1..], broken);
            Pipe(chunks[i..], broken) == Body([chunks[i].data] + rest.pieces, rest.complete)
  {
    assert chunks[i..][0] == chunks[i] && chunks[i..][1..] == chunks[i + 1..];
  }

  method RequestBlob(chunks: seq<Chunk>, broken: bool) returns (body: Body)
    ensures body == Pipe(chunks, broken)
  {
    var pieces: seq<Bytes> := [];
    var i := 0;
    assert chunks[0..] == chunks;
    while i < |chunks|
      invariant 0 <= i <= |chunks|
      invariant Pipe(chunks, broken).pieces == pieces + Pipe(chunks[i..], broken).pieces
      invariant Pipe(chunks, broken).complete == Pipe(chunks[i..], broken).complete
    {
      PipeStep(chunks, broken, i);
      Regroup(pieces, chunks[i].data, if chunks[i].final then [] else Pipe(chunks[i + 1..], broken).pieces);
      pieces := pieces + [chunks[i].data];
      if chunks[i].final {
        return Body(pieces, true);
      }
      i := i + 1;
    }
    body := Body(pieces, !broken);
  }

  // ---------------------------------------------------------------- the stream as it should be

  /** The offsets continue one another. */
  ghost predicate Contiguous(chunks: seq<Chunk>, offset: nat) {
    chunks != [] ==> chunks[0].offset == offset && Contiguous(chunks[1..], offset + |chunks[0].data|)
  }

  lemma {:induction false} ChunksAreContiguous(script: seq<Read>, digest: string, offset: nat)
    ensures Contiguous(Chunks(script, digest, offset), offset)
    decreases |script|
  {
    if script != [] {
      var next := offset + |script[0].data|;
      var tail := Tail(script, digest, next);
      if script[0].ending == More {
        ChunksAreContiguous(script[1..], digest, next);
      }
      assert Contiguous(tail, next);
      assert script[0].data != [] ==> Chunks(script, digest, offset)[1..] == tail;
    }
  }

  ghost predicate WellFormed(chunks: seq<Chunk>, digest: string) {
    && (forall c | c in chunks :: c.digest == digest && (c.final <==> c.data == []) && |c.data| <= CHUNK_SIZE)
    && (forall k | 0 <= k < |chunks| && chunks[k].final :: k == |chunks| - 1)
  }

  lemma WellFormedCons(c: Chunk, tail: seq<Chunk>, digest: string)
    requires WellFormed(tail, digest) && c.digest == digest && !c.final && 0 < |c.data| <= CHUNK_SIZE
    ensures WellFormed([c] + tail, digest)
  {
    var chunks := [c] + tail;
    forall k | 0 <= k < |chunks| && chunks[k].final
      ensures k == |chunks| - 1
    {
      assert k > 0 && tail[k - 1] == chunks[k];
    }
  }

  ghost predicate EndsFinally(chunks: seq<Chunk>) {
    chunks != [] && chunks[|chunks| - 1].final
  }

  /** Data chunks are small and not empty; the final chunk comes last, and comes exactly when the reader reached io.EOF. */
  lemma {:induction false} ChunksAreWellFormed(script: seq<Read>, digest: string, offset: nat)
    requires IsReader(script)
    ensures WellFormed(Chunks(script, digest, offset), digest)
    ensures Yield(script).complete <==> EndsFinally(Chunks(script, digest, offset))
    decreases |script|, 1
  {
    var data := script[0].data;
    TailIsWellFormed(script, digest, offset + |data|);
    if data != [] {
      WellFormedCons(Chunk(digest, offset, data, false), Tail(script, digest, offset + |data|), digest);
    }
  }

  lemma {:induction false} TailIsWellFormed(script: seq<Read>, digest: string, next: nat)
    requires IsReader(script)
    ensures WellFormed(Tail(script, digest, next), digest)
    ensures Yield(script).complete <==> EndsFinally(Tail(script, digest, next))
    decreases |script|, 0
  {
    if script[0].ending == More {
      assert script[1..][|script[1..]| - 1] == script[|script| - 1];
      ChunksAreWellFormed(script[1..], digest, next);
    }
  }

  lemma AssembleCons(c: Chunk, tail: seq<Chunk>, known: string, buffer: Bytes)
    requires !c.final && (known == c.digest || known == "")
    ensures Assemble([c] + tail, false, known, buffer) == Assemble(tail, false, c.digest, buffer + c.data)
  {
    assert ([c] + tail)[1..] == tail;
  }

  /** For every behaviour of the reader that reaches io.EOF, the receiver has exactly the bytes that were read. */
  lemma {:induction false} AssembleUndoesChunks(script: seq<Read>, digest: string, offset: nat, known: string, buffer: Bytes)
    requires Yield(script).complete && (known == digest || known == "")
    ensures Assemble(Chunks(script, digest, offset), false, known, buffer)
            == Some((digest, buffer + Yield(script).Content()))
    decreases |script|, 1
  {
    var data := script[0].data;
    var next := offset + |data|;
    YieldContent(script);
    assert buffer + data + Rest(script) == buffer + Yield(script).Content();
    if data == [] {
      assert buffer + data == buffer;
      AssembleUndoesTail(script, digest, next, known, buffer);
    } else {
      AssembleUndoesTail(script, digest, next, digest, buffer + data);
      AssembleCons(Chunk(digest, offset, data, false), Tail(script, digest, next), known, buffer);
    }
  }

  /** What the reader yields after its first read. */
  function Rest(script: seq<Read>): Bytes
    requires script != []
  {
    if script[0].ending == More then Yield(script[1..]).Content() else []
  }

  lemma {:induction false} AssembleUndoesTail(script: seq<Read>, digest: string, next: nat, known: string, buffer: Bytes)
    requires script != [] && Yield(script).complete && (known == digest || known == "")
    ensures Assemble(Tail(script, digest, next), false, known, buffer) == Some((digest, buffer + Rest(script)))
    decreases |script|, 0
  {
    if script[0].ending == More {
      AssembleUndoesChunks(script[1..], digest, next, known, buffer);
    }
  }

  lemma {:induction false} PipeUndoesChunks(script: seq<Read>, digest: string, offset: nat)
    requires Yield(script).complete
    ensures var body := Pipe(Chunks(script, digest, offset), false);
            body.complete && body.Content() == Yield(script).Content()
    decreases |script|
  {
    var data := script[0].data;
    var next := offset + |data|;
    var tail := Tail(script, digest, next);
    YieldContent(script);
    if script[0].ending == More {
      PipeUndoesChunks(script[1..], digest, next);
    } else {
      var last := Pipe(tail, false).pieces;
      assert last == [[]] && last[1..] == [];
      assert Flatten(last) == [] + Flatten(last[1..]);
    }
    var chunks := Chunks(script, digest, offset);
    if data != [] {
      assert chunks[1..] == tail;
      var pieces := Pipe(chunks, false).pieces;
      assert pieces[1..] == Pipe(tail, false).pieces;
      assert Flatten(pieces) == data + Flatten(pieces[1..]);
    }
  }

  /** A stream that breaks before a final chunk is received by nobody: the server refuses it, and what is fetched is not
      complete, though its pieces were passed on. */
  lemma {:induction false} BrokenStreamIsRefused(chunks: seq<Chunk>, digest: string, buffer: Bytes)
    requires forall c | c in chunks :: !c.final
    ensures Assemble(chunks, true, digest, buffer) == None
    ensures !Pipe(chunks, true).complete && |Pipe(chunks, true).pieces| == |chunks|
    ensures forall i | 0 <= i < |chunks| :: Pipe(chunks, true).pieces[i] == chunks[i].data
    decreases |chunks|
  {
    if chunks != [] {
      var c := chunks[0];
      assert c in chunks;
      BrokenStreamIsRefused(chunks[1..], if digest == "" then c.digest else digest, buffer + c.data);
    }
  }

  /** Nothing after a final chunk is looked at, not even whether the stream broke. */
  lemma {:induction false} FinalChunkEnds(chunks: seq<Chunk>, rest: seq<Chunk>, b1: bool, b2: bool, digest: string,
                                          buffer: Bytes)
    requires EndsFinally(chunks)
    ensures Assemble(chunks + rest, b1, digest, buffer) == Assemble(chunks, b2, digest, buffer)
    ensures Pipe(chunks + rest, b1) == Pipe(chunks, b2)
    decreases |chunks|
  {
    var c := chunks[0];
    assert (chunks + rest)[0] == c && (chunks + rest)[1..] == chunks[1..] + rest;
    if !c.final {
      assert chunks[1..][|chunks| - 2] == chunks[|chunks| - 1];
      FinalChunkEnds(chunks[1..], rest, b1, b2, if digest == "" then c.digest else digest, buffer + c.data);
    }
  }

  /** A chunk whose digest is not that of the stream makes the server refuse it, unless a final chunk came before. */
  lemma {:induction false} MixedDigestsAreRefused(chunks: seq<Chunk>, k: nat, broken: bool, digest: string, buffer: Bytes)
    requires k < |chunks| && digest != "" && chunks[k].digest != digest && forall j | 0 <= j < k :: !chunks[j].final
    ensures Assemble(chunks, broken, digest, buffer) == None
    decreases k
  {
    if k > 0 && chunks[0].digest == digest {
      MixedDigestsAreRefused(chunks[1..], k - 1, broken, digest, buffer + chunks[0].data);
    }
  }

  /** A stream of one digest without a final chunk that the sender closes is taken as it is. */
  lemma {:induction false} ClosedStreamIsTaken(chunks: seq<Chunk>, digest: string, buffer: Bytes)
    requires forall c | c in chunks :: !c.final && c.digest == digest
    ensures Assemble(chunks, false, digest, buffer) == Some((digest, buffer + Data(chunks)))
    ensures Pipe(chunks, false).complete && Pipe(chunks, false).Content() == Data(chunks)
    decreases |chunks|
  {
    if chunks == [] {
      assert buffer + [] == buffer;
    } else {
      assert chunks[0] in chunks;
      ClosedStreamIsTaken(chunks[1..], digest, buffer + chunks[0].data);
      Associative(buffer, chunks[0].data, Data(chunks[1..]));
      var pieces := Pipe(chunks, false).pieces;
      assert pieces[1..] == Pipe(chunks[1..], false).pieces;
    }
  }

  /** All data of some chunks. */
  function Data(chunks: seq<Chunk>): Bytes {
    if chunks == [] then [] else chunks[0].data + Data(chunks[1..])
  }

  /** A stream that is cut leaves the receiver with a prefix of what it had got before, never with other bytes. */
  lemma {:induction false} CutStreamYieldsPrefix(chunks: seq<Chunk>, k: nat, digest: string, buffer: Bytes)
    requires k <= |chunks| && Assemble(chunks, false, digest, buffer).Some?
    ensures Assemble(chunks[..k], false, digest, buffer).Some?
    ensures Assemble(chunks[..k], false, digest, buffer).value.1 <= Assemble(chunks, false, digest, buffer).value.1
    ensures buffer <= Assemble(chunks, false, digest, buffer).value.1
  {
    if chunks != [] {
      var c := chunks[0];
      var expected := if digest == "" then c.digest else digest;
      if !c.final {
        CutStreamYieldsPrefix(chunks[1..], if k == 0 then 0 else k - 1, expected, buffer + c.data);
      }
      if k > 0 {
        assert chunks[..k][1..] == chunks[1..][..k - 1];
      }
    }
  }

  /** A blob sent and received, or fetched, is stored under its digest exactly when its bytes have that digest and
      nothing is in its way, whatever the reads were. */
  lemma TransferStores(sha: Sha, l: Layout, f: Tree, script: seq<Read>, digest: string)
    requires Yield(script).complete
    ensures Assemble(Chunks(script, digest, 0), false, "", []) == Some((digest, Yield(script).Content()))
    ensures var f' := Put(sha, l, f, digest, Pipe(Chunks(script, digest, 0), false));
            && f' == PutFile(sha, l, f, digest, Yield(script).Content())
            && f'.blobs == if Placeable(l, f, digest) && DigestOf(sha, Yield(script).Content()) == digest
                           then f.blobs[digest := Yield(script).Content()] else f.blobs
  {
    AssembleUndoesChunks(script, digest, 0, "", []);
    PipeUndoesChunks(script, digest, 0);
    assert [] + Yield(script).Content() == Yield(script).Content();
  }
}
