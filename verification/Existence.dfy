/** When a digest seems to exist (internal/storage/filesystem/store.go): BlobExists asks whether there is anything at the
    blob's path, and the directories that PutBlob creates above a blob answer too. */
module Existence {
  import opened Common
  import opened Text
  import opened Paths

  /** What MkdirAll creates above a file. */
  function Above(path: Path): (dirs: set<Path>)
    ensures forall p :: p in dirs <==> p < path
  {
    var dirs := set k | 0 <= k < |path| :: path[..k];
    assert forall p | p < path :: p == path[..|p|];
    dirs
  }

  /** The directories that every store starts with. */
  function Fixed(base: Path): set<Path> {
    Above(base) + {base, base + ["blobs"], base + ["manifests"], base + ["uploads"]}
  }

  /** The digest's path may be a directory, when callers put digests of this kind. */
  ghost predicate Shadowed(base: Path, may: string -> bool, digest: string) {
    || BlobPath(base, digest) in Fixed(base)
    || exists d :: may(d) && BlobPath(base, digest) < BlobPath(base, d)
  }

  /** Digests whose path cannot be taken for a directory above another blob. */
  predicate Unmistakable(digest: string) {
    && Accepted(digest) && |Hex(digest)| != 2
    && (Algorithm(digest) == "." ==> |Hex(digest)| >= 4)
  }

  lemma FixedIsNoBlob(base: Path, digest: string)
    requires Accepted(digest)
    ensures BlobPath(base, digest) !in Fixed(base)
    ensures |BlobPath(base, digest)| > |base| && BlobPath(base, digest)[|base|] !in {"manifests", "uploads"}
  {
    BlobPathShape(base, digest);
    var path, hex := BlobPath(base, digest), Hex(digest);
    assert IsHex(hex) && IsHex(path[|path| - 1]);
    NamesAreNotHex();
    if Algorithm(digest) == ".." {
      assert IsHex(HexTail(hex)[0]);
      assert path[|base|] == HexTail(hex)[0];
    }
  }

  /** Its temporary file is none of them either. */
  lemma FixedIsNoTemp(base: Path, digest: string)
    requires Accepted(digest)
    ensures TempPath(BlobPath(base, digest)) !in Fixed(base)
  {
    FixedIsNoBlob(base, digest);
    var temp := TempPath(BlobPath(base, digest));
    var last := temp[|temp| - 1];
    assert |temp| > |base| && last[|last| - 1] == 'p';
    assert "blobs"[4] != 'p' && "manifests"[8] != 'p' && "uploads"[6] != 'p';
  }

  lemma NamesAreNotHex()
    ensures !IsHex("blobs") && !IsHex("manifests") && !IsHex("uploads")
  {
    assert !IsHexDigit("blobs"[1]) && !IsHexDigit("manifests"[0]) && !IsHexDigit("uploads"[0]);
  }

  /** Only short digests can lie above others: a directory below the algorithm has a name of two digits. */
  lemma ShapeBelow(base: Path, a: string, h: string, a': string, h': string)
    requires IsHex(h) && IsHex(h') && AlgorithmRoot(base, a) + HexTail(h) < AlgorithmRoot(base, a') + HexTail(h')
    ensures |h| == 2 || (a == "." && |h| < 4)
  {
    var p, q := AlgorithmRoot(base, a) + HexTail(h), AlgorithmRoot(base, a') + HexTail(h');
    assert p[|p| - 1] == h && q[|p| - 1] == h;
    NamesAreNotHex();
  }

  lemma TailIsHex(hex: string)
    requires IsHex(hex)
    ensures forall i | 0 <= i < |HexTail(hex)| :: IsHex(HexTail(hex)[i])
  {
  }

  /** Below the algorithm all names are hexadecimal. */
  lemma NotInTail(root: Path, hex: string, k: nat)
    requires IsHex(hex) && k < |root + HexTail(hex)| && !IsHex((root + HexTail(hex))[k])
    ensures k < |root|
  {
    TailIsHex(hex);
    assert forall i | 0 <= i < |HexTail(hex)| :: (root + HexTail(hex))[|root| + i] == HexTail(hex)[i];
  }

  lemma TempNameIsNotHex(hex: string)
    ensures !IsHex(hex + TMP) && hex + TMP != "blobs"
  {
    var name := hex + TMP;
    assert name[|name| - 1] == 'p' && !IsHexDigit('p') && "blobs"[4] == 's';
  }

  /** A temporary file's name is neither hexadecimal nor "blobs": only an algorithm can be like it. */
  lemma TempShapeBelow(base: Path, a: string, h: string, a': string, h': string)
    requires IsHex(h) && IsHex(h')
    requires TempPath(AlgorithmRoot(base, a) + HexTail(h)) < AlgorithmRoot(base, a') + HexTail(h')
    ensures a == "." && |h| < 4
  {
    var p, q := TempPath(AlgorithmRoot(base, a) + HexTail(h)), AlgorithmRoot(base, a') + HexTail(h');
    TempNameIsNotHex(h);
    assert p[|p| - 1] == h + TMP && q[|p| - 1] == h + TMP;
    NotInTail(AlgorithmRoot(base, a'), h', |p| - 1);
    assert |p| == |AlgorithmRoot(base, a)| + |HexTail(h)|;
  }

  /** No put of an accepted digest makes the temporary file of an unmistakable one a directory. */
  lemma NoTempIsShadowed(base: Path, digest: string, other: string)
    requires Unmistakable(digest) && Accepted(other)
    ensures !(TempPath(BlobPath(base, digest)) < BlobPath(base, other))
  {
    BlobPathShape(base, digest);
    BlobPathShape(base, other);
    if TempPath(BlobPath(base, digest)) < BlobPath(base, other) {
      TempShapeBelow(base, Algorithm(digest), Hex(digest), Algorithm(other), Hex(other));
    }
  }

  function Digest(algorithm: string, hex: string): string {
    algorithm + [':'] + hex
  }

  lemma DigestParts(algorithm: string, hex: string)
    requires IsAlgorithm(algorithm) && IsHex(hex)
    ensures var d := Digest(algorithm, hex); Accepted(d) && Algorithm(d) == algorithm && Hex(d) == hex
  {
    forall i | 0 <= i < |algorithm|
      ensures algorithm[i] != ':'
    {
      assert IsAlgorithmChar(algorithm[i]);
    }
    IndexOfFirst(algorithm, ':', hex);
  }

  /** A digest that lies below the given one. */
  function Witness(digest: string): string
    requires Accepted(digest)
  {
    if |Hex(digest)| == 2 then Digest(Algorithm(digest), Hex(digest) + "00") else Digest(Hex(digest), "0")
  }

  lemma LongerLiesBelow(base: Path, a: string, h: string)
    requires IsAlgorithm(a) && IsHex(h) && |h| == 2
    ensures Accepted(Digest(a, h + "00")) && BlobPath(base, Digest(a, h)) < BlobPath(base, Digest(a, h + "00"))
  {
    DigestParts(a, h);
    DigestParts(a, h + "00");
    BlobPathShape(base, Digest(a, h));
    BlobPathShape(base, Digest(a, h + "00"));
    assert (h + "00")[..2] == h && (h + "00")[2..4] == "00";
    assert HexTail(h + "00") == [h, "00", h + "00"];
  }

  lemma AlgorithmLiesBelow(base: Path, h: string)
    requires IsHex(h) && |h| < 4
    ensures Accepted(Digest(h, "0")) && BlobPath(base, Digest(".", h)) < BlobPath(base, Digest(h, "0"))
  {
    forall i | 0 <= i < |h|
      ensures IsAlgorithmChar(h[i])
    {
      assert IsHexDigit(h[i]);
    }
    assert h != "." && h != ".." by {
      assert IsHexDigit(h[0]);
    }
    DigestParts(".", h);
    DigestParts(h, "0");
    BlobPathShape(base, Digest(".", h));
    BlobPathShape(base, Digest(h, "0"));
  }

  lemma WitnessLiesBelow(base: Path, digest: string)
    requires Accepted(digest) && !Unmistakable(digest)
    ensures Accepted(Witness(digest)) && BlobPath(base, digest) < BlobPath(base, Witness(digest))
  {
    assert digest == Digest(Algorithm(digest), Hex(digest));
    if |Hex(digest)| == 2 {
      LongerLiesBelow(base, Algorithm(digest), Hex(digest));
    } else {
      AlgorithmLiesBelow(base, Hex(digest));
    }
  }

  /** While only accepted digests are put, the path of an accepted digest may be a directory exactly when its hex has two
      digits, or fewer than four below the algorithm ".". */
  lemma AcceptedPutsShadowExactly(base: Path, digest: string)
    requires Accepted(digest)
    ensures Shadowed(base, Accepted, digest) <==> !Unmistakable(digest)
  {
    FixedIsNoBlob(base, digest);
    if !Unmistakable(digest) {
      WitnessLiesBelow(base, digest);
    }
    forall d | Accepted(d) && BlobPath(base, digest) < BlobPath(base, d)
      ensures !Unmistakable(digest)
    {
      BlobPathShape(base, digest);
      BlobPathShape(base, d);
      ShapeBelow(base, Algorithm(digest), Hex(digest), Algorithm(d), Hex(d));
    }
  }

  /** "." is the directory of all blobs. */
  lemma DotIsADirectory(base: Path)
    ensures BlobPath(base, ".") in Fixed(base)
  {
    assert Components(["blobs", "."]) == ["blobs"] + (["."] + []) by {
      SplitWithoutSeparator("blobs", '/');
      SplitWithoutSeparator(".", '/');
    }
    assert ["blobs", "."][1..] == ["."] && ["."][1..] == [];
    assert Components(["blobs", "."]) == ["blobs", "."];
    assert Clean(base, ["blobs", "."]) == Clean(base + ["blobs"], ["."]) == Clean(base + ["blobs"], []);
    assert ':' !in ".";
    assert BlobPath(base, ".") == base + ["blobs"];
  }

  // ---------------------------------------------------------------- digests that no route lets through

  lemma {:induction false} CleanSnoc(done: Path, rest: seq<string>, last: string)
    requires Plain(last)
    ensures Clean(done, rest + [last]) == Clean(done, rest) + [last]
    decreases |rest|
  {
    if rest == [] {
      assert rest + [last] == [last] && [last][1..] == [];
    } else {
      assert (rest + [last])[0] == rest[0] && (rest + [last])[1..] == rest[1..] + [last];
      var done' := if rest[0] == "" || rest[0] == "." then done
                   else if rest[0] == ".." then if done == [] then [] else done[..|done| - 1]
                   else done + [rest[0]];
      CleanSnoc(done', rest[1..], last);
    }
  }

  lemma {:induction false} ComponentsAppend(a: seq<string>, b: seq<string>)
    ensures Components(a + b) == Components(a) + Components(b)
  {
    if a == [] {
      assert a + b == b;
    } else {
      assert (a + b)[1..] == a[1..] + b;
      ComponentsAppend(a[1..], b);
    }
  }

  /** A text that no route lets through, but that a query may hold: the digest with one more name below it. */
  function Beyond(digest: string): string {
    digest + "/0"
  }

  lemma LastComponents(hex: string)
    requires IsHex(hex)
    ensures Components([hex]) == [hex] && Components([hex + "/0"]) == [hex, "0"]
  {
    assert '/' !in hex by {
      assert forall c | c in hex :: IsHexDigit(c);
    }
    SplitWithoutSeparator(hex, '/');
    SplitWithoutSeparator("0", '/');
    SplitAtFirst(hex, "0", '/');
    assert hex + ['/'] + "0" == hex + "/0";
    assert [hex][1..] == [] && [hex + "/0"][1..] == [];
  }

  lemma BeyondParts(digest: string)
    requires Accepted(digest)
    ensures var d := Beyond(digest);
            var i := IndexOf(d, ':');
            i < |d| && d[..i] == Algorithm(digest) && d[i + 1..] == Hex(digest) + "/0"
  {
    var i := IndexOf(digest, ':');
    assert Beyond(digest) == digest[..i] + [':'] + (digest[i + 1..] + "/0");
    IndexOfFirst(digest[..i], ':', digest[i + 1..] + "/0");
  }

  /** If a put may name any text, the path of every full digest may be a directory: the exact condition needs its
      hypothesis. */
  lemma UncheckedPutsShadow(base: Path, digest: string)
    requires Accepted(digest) && |Hex(digest)| >= 4
    ensures BlobPath(base, Beyond(digest)) == BlobPath(base, digest) + ["0"]
    ensures Shadowed(base, _ => true, digest)
  {
    var a, h := Algorithm(digest), Hex(digest);
    var front := ["blobs", a, h[..2], h[2..4]];
    BeyondParts(digest);
    assert (h + "/0")[..2] == h[..2] && (h + "/0")[2..4] == h[2..4];
    assert ["blobs", a] + HexTail(h) == front + [h];
    assert ["blobs", a] + HexTail(h + "/0") == front + [h + "/0"];
    ComponentsAppend(front, [h]);
    ComponentsAppend(front, [h + "/0"]);
    LastComponents(h);
    assert Components(front) + [h] + ["0"] == Components(front) + [h, "0"];
    CleanSnoc(base, Components(front) + [h], "0");
    assert (x => true)(Beyond(digest));
  }
}
