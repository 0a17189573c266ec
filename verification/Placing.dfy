/** A store's blobs and directories when calls come one after the other (internal/storage/filesystem/store.go): where a
    put finds a directory in its way, or a file where a directory should be, it fails. */
module Placing {
  import opened Common
  import opened Blobs
  import opened Paths
  import opened Existence

  /** Where blobs go, where they are written first, and the directories above them. */
  datatype Layout = Layout(file: string -> Path, temp: string -> Path, above: string -> set<Path>)

  function StoreLayout(base: Path): Layout {
    Layout(digest => BlobPath(base, digest), digest => TempPath(BlobPath(base, digest)),
           digest => Above(BlobPath(base, digest)))
  }

  /** No file is one of the directories above it. */
  ghost predicate Level(l: Layout) {
    forall d :: l.file(d) !in l.above(d) && l.temp(d) !in l.above(d)
  }

  lemma StoreIsLevel(base: Path)
    ensures Level(StoreLayout(base))
  {
  }

  /** What a store has on its disk: blobs, and directories. */
  datatype Tree = Tree(blobs: map<string, Bytes>, dirs: set<Path>)

  function Empty(base: Path): Tree {
    Tree(map[], Fixed(base))
  }

  /** A blob where a directory should be. */
  predicate Blocked(l: Layout, f: Tree, digest: string) {
    exists d :: d in f.blobs && l.file(d) in l.above(digest)
  }

  /** What MkdirAll leaves. */
  function DirsAfter(l: Layout, f: Tree, digest: string): set<Path> {
    if Blocked(l, f, digest) then f.dirs else f.dirs + l.above(digest)
  }

  /** Nothing is in the way of the temporary file and of its renaming. */
  predicate Placeable(l: Layout, f: Tree, digest: string) {
    !Blocked(l, f, digest) && l.temp(digest) !in f.dirs && l.file(digest) !in f.dirs
  }

  /** Whether a put succeeds. */
  predicate Puts(sha: Sha, l: Layout, f: Tree, digest: string, body: Body) {
    Placeable(l, f, digest) && Verifies(sha, digest, body)
  }

  function Put(sha: Sha, l: Layout, f: Tree, digest: string, body: Body): Tree {
    Tree(if Placeable(l, f, digest) then PutBlob(sha, f.blobs, digest, body) else f.blobs, DirsAfter(l, f, digest))
  }

  /** The same of a file that is at hand. */
  predicate PutsFile(sha: Sha, l: Layout, f: Tree, digest: string, content: Bytes) {
    Placeable(l, f, digest) && DigestOf(sha, content) == digest
  }

  function PutFile(sha: Sha, l: Layout, f: Tree, digest: string, content: Bytes): Tree {
    Tree(if PutsFile(sha, l, f, digest, content) then f.blobs[digest := content] else f.blobs, DirsAfter(l, f, digest))
  }

  lemma FileIsABody(sha: Sha, l: Layout, f: Tree, digest: string, content: Bytes)
    ensures PutFile(sha, l, f, digest, content) == Put(sha, l, f, digest, Body([content], true))
    ensures PutsFile(sha, l, f, digest, content) <==> Puts(sha, l, f, digest, Body([content], true))
  {
    ContentOfOnePiece(content, true);
  }

  /** Whether Stat finds something at the digest's path. */
  predicate Seems(l: Layout, f: Tree, digest: string) {
    digest in f.blobs || l.file(digest) in f.dirs
  }

  predicate Vacant(l: Layout, f: Tree, dir: Path) {
    && (forall d | d in f.blobs :: !(dir < l.file(d)))
    && (forall p | p in f.dirs :: !(dir < p))
  }

  datatype Removal = Removed | Missing | NotEmpty

  /** The handler's DELETE: what Stat does not find is missing; a directory is removed like a blob if it is empty. */
  function Delete(l: Layout, f: Tree, digest: string): (Tree, Removal) {
    if digest in f.blobs then (f.(blobs := f.blobs - {digest}), Removed)
    else if l.file(digest) !in f.dirs then (f, Missing)
    else if Vacant(l, f, l.file(digest)) then (f.(dirs := f.dirs - {l.file(digest)}), Removed)
    else (f, NotEmpty)
  }

  /** A deletion that succeeds takes that blob and no other, or else an empty directory in its place; one that does not
      changes nothing. */
  lemma DeleteRemovesExactlyOne(l: Layout, f: Tree, digest: string)
    ensures var (f', removal) := Delete(l, f, digest);
            && (removal == Removed <==>
                  || digest in f.blobs
                  || (l.file(digest) in f.dirs
                      && (forall d | d in f.blobs :: !(l.file(digest) < l.file(d)))
                      && (forall p | p in f.dirs :: !(l.file(digest) < p))))
            && (removal == Missing <==> digest !in f.blobs && l.file(digest) !in f.dirs)
            && (removal == Removed ==>
                  && f'.blobs == f.blobs - {digest}
                  && f'.dirs == if digest in f.blobs then f.dirs else f.dirs - {l.file(digest)})
            && (removal != Removed ==> f' == f)
  {
  }

  // ---------------------------------------------------------------- puts of accepted digests

  /** The text of SHA-256 has 64 digits. */
  ghost predicate PrintsFullHex(sha: Sha) {
    forall content :: |sha(content)| == 64 && IsHex(sha(content))
  }

  lemma CalculatedIsUnmistakable(sha: Sha, content: Bytes)
    requires PrintsFullHex(sha)
    ensures Unmistakable(DigestOf(sha, content))
  {
    var d := DigestOf(sha, content);
    assert IsAlgorithm("sha256");
    DigestParts("sha256", sha(content));
    assert d == Digest("sha256", sha(content));
  }

  /** No directory is in the place of an unmistakable digest or of its temporary file, and all blobs are unmistakable. */
  ghost predicate Clear(base: Path, f: Tree) {
    && (forall d | Unmistakable(d) :: BlobPath(base, d) !in f.dirs && TempPath(BlobPath(base, d)) !in f.dirs)
    && (forall d | d in f.blobs :: Unmistakable(d))
  }

  lemma EmptyIsClear(base: Path)
    ensures Clear(base, Empty(base))
  {
    forall d | Unmistakable(d)
      ensures BlobPath(base, d) !in Fixed(base) && TempPath(BlobPath(base, d)) !in Fixed(base)
    {
      FixedIsNoBlob(base, d);
      FixedIsNoTemp(base, d);
    }
  }

  /** In a clear store nothing is in the way of an accepted digest but a directory of its own. */
  lemma ClearIsPlaceable(base: Path, f: Tree, digest: string)
    requires Clear(base, f) && Accepted(digest)
    ensures !Blocked(StoreLayout(base), f, digest)
    ensures Unmistakable(digest) ==> Placeable(StoreLayout(base), f, digest)
  {
    forall d | d in f.blobs
      ensures !(BlobPath(base, d) < BlobPath(base, digest))
    {
      AcceptedPutsShadowExactly(base, d);
      assert !Shadowed(base, Accepted, d);
    }
  }

  /** The directories above an accepted digest are in no unmistakable one's place. */
  lemma AboveIsClear(base: Path, digest: string)
    requires Accepted(digest)
    ensures forall d | Unmistakable(d) ::
              && BlobPath(base, d) !in Above(BlobPath(base, digest))
              && TempPath(BlobPath(base, d)) !in Above(BlobPath(base, digest))
  {
    forall d | Unmistakable(d)
      ensures BlobPath(base, d) !in Above(BlobPath(base, digest))
      ensures TempPath(BlobPath(base, d)) !in Above(BlobPath(base, digest))
    {
      AcceptedPutsShadowExactly(base, d);
      assert !Shadowed(base, Accepted, d);
      NoTempIsShadowed(base, d, digest);
    }
  }

  /** A put of an accepted digest, whatever becomes of it, keeps the store clear. */
  lemma PutKeepsClear(sha: Sha, base: Path, f: Tree, digest: string, body: Body)
    requires Clear(base, f) && Accepted(digest) && PrintsFullHex(sha)
    ensures Clear(base, Put(sha, StoreLayout(base), f, digest, body))
  {
    AboveIsClear(base, digest);
    if Verifies(sha, digest, body) {
      CalculatedIsUnmistakable(sha, body.Content());
    }
  }

  lemma LessIsClear(base: Path, f: Tree, f': Tree)
    requires Clear(base, f) && f'.blobs.Keys <= f.blobs.Keys && f'.dirs <= f.dirs
    ensures Clear(base, f')
  {
  }

  lemma DeletionLeavesLess(l: Layout, f: Tree, digest: string)
    ensures var f' := Delete(l, f, digest).0; f'.blobs.Keys <= f.blobs.Keys && f'.dirs <= f.dirs
  {
  }
}
