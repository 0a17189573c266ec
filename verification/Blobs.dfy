/** What a reader delivers, and what a store does with it once its digest is checked. */
module Blobs {
  import opened Common

  /** The pieces a reader delivered, and whether it then reached the end; otherwise reading or writing failed. */
  datatype Body = Body(pieces: seq<Bytes>, complete: bool) {
    function Content(): Bytes {
      Flatten(pieces)
    }
  }

  predicate Verifies(sha: Sha, digest: string, body: Body) {
    body.complete && DigestOf(sha, body.Content()) == digest
  }

  /** PutBlob as one action: all of the content under its own digest, or nothing. */
  function PutBlob(sha: Sha, blobs: map<string, Bytes>, digest: string, body: Body): map<string, Bytes> {
    if Verifies(sha, digest, body) then blobs[digest := body.Content()] else blobs
  }

  lemma ContentOfOnePiece(data: Bytes, complete: bool)
    ensures Body([data], complete).Content() == data
  {
    assert [data][1..] == [] && data + [] == data;
    assert Flatten([data]) == data + Flatten([data][1..]);
  }
}
