/** Values shared by every module: bytes, contents, digests and results. */
module Common {
  newtype byte = x: int | 0 <= x < 256

  type Bytes = seq<byte>

  datatype Option<+T> = None | Some(value: T)

  /** The text of SHA-256 in hexadecimal. The hash itself is never unfolded: every statement holds for any
      function of this type, and what it must satisfy is named where it is needed. */
  type Sha = Bytes -> string

  const SHA256_PREFIX := "sha256:"

  /** Whether a manifest reference is taken for a digest; any other one is a tag. */
  predicate IsDigestReference(reference: string) {
    SHA256_PREFIX <= reference
  }

  /** What a store calculates for a content before it publishes it. */
  function DigestOf(sha: Sha, content: Bytes): string {
    SHA256_PREFIX + sha(content)
  }

  /** The contents of a store are addressed by their own digests. */
  ghost predicate ContentAddressed(sha: Sha, blobs: map<string, Bytes>) {
    forall digest | digest in blobs :: DigestOf(sha, blobs[digest]) == digest
  }

  /** No two of these contents share a digest. */
  ghost predicate CollisionFree(sha: Sha, contents: set<Bytes>) {
    forall a, b | a in contents && b in contents && sha(a) == sha(b) :: a == b
  }

  ghost predicate Distinct<T>(s: seq<T>) {
    forall i, j | 0 <= i < j < |s| :: s[i] != s[j]
  }

  function Max(a: int, b: int): int {
    if a < b then b else a
  }

  /** One more element moves from the rest to the front. */
  lemma Regroup<T>(before: seq<T>, x: T, after: seq<T>)
    ensures before + [x] + after == before + ([x] + after)
  {
  }

  /** The pieces of a stream, put together. */
  function Flatten<T>(pieces: seq<seq<T>>): seq<T> {
    if pieces == [] then [] else pieces[0] + Flatten(pieces[1..])
  }

  lemma Associative<T>(a: seq<T>, b: seq<T>, c: seq<T>)
    ensures a + b + c == a + (b + c)
  {
  }

  lemma {:induction false} FlattenAppend<T>(a: seq<seq<T>>, b: seq<seq<T>>)
    ensures Flatten(a + b) == Flatten(a) + Flatten(b)
  {
    if a == [] {
      assert a + b == b;
    } else {
      FlattenAppend(a[1..], b);
      assert (a + b)[0] == a[0] && (a + b)[1..] == a[1..] + b;
      Associative(a[0], Flatten(a[1..]), Flatten(b));
    }
  }

  lemma FlattenSnoc<T>(pieces: seq<seq<T>>, last: seq<T>)
    ensures Flatten(pieces + [last]) == Flatten(pieces) + last
  {
    FlattenAppend(pieces, [last]);
    assert Flatten([last]) == last + Flatten<T>([]);
  }

  /** A list with the elements of a set, each once. */
  lemma ElementsOfASetAreDistinct(list: seq<string>, ids: set<string>)
    requires multiset(list) == multiset(ids)
    ensures Distinct(list) && forall p :: p in list <==> p in ids
  {
    forall p
      ensures p in list <==> p in ids
    {
      assert p in list <==> p in multiset(list);
    }
    forall i, j | 0 <= i < j < |list|
      ensures list[i] != list[j]
    {
      if list[i] == list[j] {
        TwiceCountsTwo(list, i, j);
        assert false;
      }
    }
  }

  lemma TwiceCountsTwo(list: seq<string>, i: nat, j: nat)
    requires i < j < |list| && list[i] == list[j]
    ensures multiset(list)[list[i]] >= 2
  {
    assert list == list[..i] + [list[i]] + list[i + 1..j] + [list[j]] + list[j + 1..];
  }
}
