/** Where a store keeps its files (internal/storage/filesystem/store.go). A path is the list of its components below
    the root of the file system. */
module Paths {
  import opened Common
  import opened Text

  type Path = seq<string>

  const TMP := ".tmp"

  /** filepath.Clean: empty and "." components vanish, ".." removes the component before it. */
  function Clean(done: Path, rest: seq<string>): Path
    decreases |rest|
  {
    if rest == [] then done
    else if rest[0] == "" || rest[0] == "." then Clean(done, rest[1..])
    else if rest[0] == ".." then Clean(if done == [] then [] else done[..|done| - 1], rest[1..])
    else Clean(done + [rest[0]], rest[1..])
  }

  /** filepath.Join of a clean base with elements that may themselves hold slashes. */
  function Join(base: Path, elements: seq<string>): Path {
    Clean(base, Components(elements))
  }

  function Components(elements: seq<string>): seq<string> {
    if elements == [] then [] else Split(elements[0], '/') + Components(elements[1..])
  }

  /** A component that Clean keeps and that no slash divides. */
  predicate Plain(component: string) {
    component != "" && component != "." && component != ".." && '/' !in component
  }

  lemma {:induction false} JoinOfPlain(base: Path, elements: seq<string>)
    requires forall e | e in elements :: Plain(e)
    ensures Join(base, elements) == base + elements
    decreases |elements|
  {
    if elements == [] {
      assert base + elements == base;
    } else {
      assert Plain(elements[0]);
      SplitWithoutSeparator(elements[0], '/');
      assert Components(elements) == [elements[0]] + Components(elements[1..]);
      JoinOfPlain(base + [elements[0]], elements[1..]);
      assert base + [elements[0]] + elements[1..] == base + elements;
    }
  }

  /** The directories below a blob's algorithm, and its file. */
  function HexTail(hex: string): seq<string> {
    if |hex| >= 4 then [hex[..2], hex[2..4], hex] else [hex]
  }

  /** blobPath. A digest without a colon is joined as it stands. */
  function BlobPath(base: Path, digest: string): Path {
    var i := IndexOf(digest, ':');
    if i == |digest| then Join(base, ["blobs", digest])
    else Join(base, ["blobs", digest[..i]] + HexTail(digest[i + 1..]))
  }

  /** path + ".tmp": the file a writer fills before it is renamed. */
  function TempPath(path: Path): Path {
    if path == [] then [TMP] else path[..|path| - 1] + [path[|path| - 1] + TMP]
  }

  predicate IsHexDigit(c: char) {
    '0' <= c <= '9' || 'a' <= c <= 'f' || 'A' <= c <= 'F'
  }

  predicate IsHex(s: string) {
    s != "" && forall i | 0 <= i < |s| :: IsHexDigit(s[i])
  }

  predicate IsAlgorithmChar(c: char) {
    'a' <= c <= 'z' || 'A' <= c <= 'Z' || '0' <= c <= '9' || c == '+' || c == '.' || c == '-'
  }

  predicate IsAlgorithm(s: string) {
    s != "" && forall i | 0 <= i < |s| :: IsAlgorithmChar(s[i])
  }

  /** The digests that the route pattern and the digest validator let through. */
  predicate Accepted(digest: string) {
    var i := IndexOf(digest, ':');
    i < |digest| && IsAlgorithm(digest[..i]) && IsHex(digest[i + 1..])
  }

  predicate InHex(c: char) {
    c in "0123456789abcdefABCDEF"
  }

  predicate InAlgorithm(c: char) {
    c in "abcdefghijklmnopqrstuvwxyz" + "ABCDEFGHIJKLMNOPQRSTUVWXYZ" + "0123456789" + "+.-"
  }

  /** An algorithm, a colon, and a hex text. */
  predicate Spelled(digest: string, algorithm: string, hex: string) {
    && digest == algorithm + [':'] + hex && algorithm != "" && hex != ""
    && (forall c | c in algorithm :: InAlgorithm(c))
    && (forall c | c in hex :: InHex(c))
  }

  lemma LettersOfADigest(c: char)
    ensures IsHexDigit(c) <==> InHex(c)
    ensures IsAlgorithmChar(c) <==> InAlgorithm(c)
  {
  }

  lemma AcceptedExactlyWhen(digest: string)
    ensures Accepted(digest) <==> exists algorithm, hex :: Spelled(digest, algorithm, hex)
  {
    if Accepted(digest) {
      AcceptedIsSpelled(digest);
    }
    if algorithm, hex :| Spelled(digest, algorithm, hex) {
      SpelledIsAccepted(digest, algorithm, hex);
    }
  }

  lemma LettersOfParts(s: string)
    ensures IsHex(s) ==> s != "" && forall c | c in s :: InHex(c)
    ensures IsAlgorithm(s) ==> s != "" && forall c | c in s :: InAlgorithm(c)
  {
    forall c
      ensures IsHexDigit(c) ==> InHex(c)
      ensures IsAlgorithmChar(c) ==> InAlgorithm(c)
    {
      LettersOfADigest(c);
    }
  }

  lemma AcceptedIsSpelled(digest: string)
    requires Accepted(digest)
    ensures exists algorithm, hex :: Spelled(digest, algorithm, hex)
  {
    var i := IndexOf(digest, ':');
    var algorithm, hex := digest[..i], digest[i + 1..];
    LettersOfParts(algorithm);
    LettersOfParts(hex);
    assert digest == algorithm + [':'] + hex;
    assert Spelled(digest, algorithm, hex);
  }

  lemma SpelledIsAccepted(digest: string, algorithm: string, hex: string)
    requires Spelled(digest, algorithm, hex)
    ensures Accepted(digest)
  {
    forall c
      ensures c in algorithm ==> IsAlgorithmChar(c) && c != ':'
      ensures c in hex ==> IsHexDigit(c)
    {
      LettersOfADigest(c);
    }
    IndexOfFirst(algorithm, ':', hex);
    assert digest[..|algorithm|] == algorithm && digest[|algorithm| + 1..] == hex;
  }

  function Algorithm(digest: string): string {
    digest[..IndexOf(digest, ':')]
  }

  function Hex(digest: string): string
    requires Accepted(digest)
  {
    digest[IndexOf(digest, ':') + 1..]
  }

  /** The algorithm part is joined too, so "." and ".." are legal algorithms that shorten the path. */
  function AlgorithmRoot(base: Path, algorithm: string): Path {
    if algorithm == "." then base + ["blobs"]
    else if algorithm == ".." then base
    else base + ["blobs", algorithm]
  }

  /** The algorithm is joined first. */
  lemma RootShape(base: Path, algorithm: string, rest: seq<string>)
    requires algorithm != "" && '/' !in algorithm
    ensures Components(["blobs", algorithm] + rest) == ["blobs", algorithm] + Components(rest)
    ensures Clean(base, ["blobs", algorithm] + Components(rest)) == Clean(AlgorithmRoot(base, algorithm), Components(rest))
  {
    SplitWithoutSeparator(algorithm, '/');
    SplitWithoutSeparator("blobs", '/');
    var elements, components := ["blobs", algorithm] + rest, Components(rest);
    assert elements[1..] == [algorithm] + rest && elements[1..][1..] == rest;
    assert Components(elements) == ["blobs", algorithm] + components;
    assert (["blobs", algorithm] + components)[1..] == [algorithm] + components;
    assert ([algorithm] + components)[1..] == components;
    assert (base + ["blobs"])[..|base|] == base;
    assert base + ["blobs"] + [algorithm] == base + ["blobs", algorithm];
  }

  lemma TailIsPlain(hex: string)
    requires IsHex(hex)
    ensures forall e | e in HexTail(hex) :: Plain(e)
  {
    forall e | e in HexTail(hex)
      ensures Plain(e)
    {
      assert IsHex(e);
      assert IsHexDigit(e[0]);
    }
  }

  lemma BlobPathShape(base: Path, digest: string)
    requires Accepted(digest)
    ensures BlobPath(base, digest) == AlgorithmRoot(base, Algorithm(digest)) + HexTail(Hex(digest))
  {
    var algorithm, hex := Algorithm(digest), Hex(digest);
    forall i | 0 <= i < |algorithm|
      ensures algorithm[i] != '/'
    {
      assert IsAlgorithmChar(algorithm[i]);
    }
    RootShape(base, algorithm, HexTail(hex));
    TailIsPlain(hex);
    JoinOfPlain(AlgorithmRoot(base, algorithm), HexTail(hex));
  }

  /** Where the blob of a digest lies whose algorithm is a name, and its temporary file. */
  lemma BlobPathOfName(base: Path, digest: string)
    requires Accepted(digest) && Algorithm(digest) != "." && Algorithm(digest) != ".."
    ensures var a, hex := digest[..IndexOf(digest, ':')], digest[IndexOf(digest, ':') + 1..];
            && (|hex| >= 4 ==>
                  && BlobPath(base, digest) == base + ["blobs", a, hex[..2], hex[2..4], hex]
                  && TempPath(BlobPath(base, digest)) == base + ["blobs", a, hex[..2], hex[2..4], hex + ".tmp"])
            && (|hex| < 4 ==>
                  && BlobPath(base, digest) == base + ["blobs", a, hex]
                  && TempPath(BlobPath(base, digest)) == base + ["blobs", a, hex + ".tmp"])
  {
    BlobPathShape(base, digest);
  }

  /** The algorithm and the hex can be read off a path of this shape. */
  lemma ShapeInjective(base: Path, a1: string, h1: string, a2: string, h2: string)
    requires AlgorithmRoot(base, a1) + HexTail(h1) == AlgorithmRoot(base, a2) + HexTail(h2)
    ensures a1 == a2 && h1 == h2
  {
    var p := AlgorithmRoot(base, a1) + HexTail(h1);
    assert p[|p| - 1] == h1 && p[|p| - 1] == h2;
    var root := p[..|p| - |HexTail(h1)|];
    assert root == AlgorithmRoot(base, a1) == AlgorithmRoot(base, a2);
    if |root| == |base| + 2 {
      assert root[|base| + 1] == a1 && root[|base| + 1] == a2;
    }
  }

  /** No two accepted digests share a file, not even those whose algorithm is "." or "..". */
  lemma BlobPathInjective(base: Path, d1: string, d2: string)
    requires Accepted(d1) && Accepted(d2)
    requires BlobPath(base, d1) == BlobPath(base, d2)
    ensures d1 == d2
  {
    BlobPathShape(base, d1);
    BlobPathShape(base, d2);
    ShapeInjective(base, Algorithm(d1), Hex(d1), Algorithm(d2), Hex(d2));
    assert d1 == Algorithm(d1) + [':'] + Hex(d1);
    assert d2 == Algorithm(d2) + [':'] + Hex(d2);
  }

  lemma BlobPathEndsInHex(base: Path, digest: string)
    requires Accepted(digest)
    ensures var p := BlobPath(base, digest); p != [] && IsHex(p[|p| - 1])
  {
    BlobPathShape(base, digest);
  }

  /** No writer's temporary file, for any digest text at all, is the file of an accepted digest. */
  lemma TempPathIsNoBlobPath(base: Path, path: Path, digest: string)
    requires Accepted(digest)
    ensures TempPath(path) != BlobPath(base, digest)
  {
    BlobPathEndsInHex(base, digest);
    var t := TempPath(path);
    var last := t[|t| - 1];
    assert last[|last| - 1] == 'p';
    assert !IsHexDigit(last[|last| - 1]);
  }
}
