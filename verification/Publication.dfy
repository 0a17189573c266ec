/** PutBlob, one system call at a time (internal/storage/filesystem/store.go). Writers interleave freely, fail or crash
    after any step, and share files the way an operating system lets them: a name leads to an inode, an open file
    keeps its inode whatever happens to the name, creating a file that exists empties it, and where there is a directory
    there can be no file. */
module Publication {
  import opened Common
  import opened Files
  import opened Paths
  import opened Existence

  /** How far a call of PutBlob has come; Leaving is the deferred clean-up. */
  datatype Phase = Copying | Closed | Verified | Leaving

  /** seen: the bytes that went through the hasher. */
  datatype Call = Call(digest: string, fd: nat, seen: Bytes, phase: Phase)

  datatype Disk = Disk(names: map<Path, nat>, inodes: seq<Bytes>, calls: map<nat, Call>, dirs: set<Path>)

  datatype Step =
    | MakeDirs(digest: string) // what a call does first
    | Open(id: nat, digest: string)
    | Write(id: nat, piece: Bytes)
    | FailWrite(id: nat, part: Bytes) // part reaches the file but not the hasher
    | Close(id: nat)
    | Verify(id: nat)
    | Rename(id: nat)
    | Abort(id: nat) // closing or renaming fails
    | Leave(id: nat)
    | Delete(victim: string)
    | Crash

  /** The hash in use, where the blobs of a digest go, the directories above them, and those that are always there. */
  datatype World = World(sha: Sha, file: string -> Path, temp: string -> Path, above: string -> set<Path>, fixed: set<Path>)

  function StoreWorld(sha: Sha, base: Path, outside: set<Path>): World {
    World(sha, digest => BlobPath(base, digest), digest => TempPath(BlobPath(base, digest)),
          digest => Above(BlobPath(base, digest)), Fixed(base) + outside)
  }

  /** Nothing else lies below the base directory when the store is created. */
  ghost predicate IsOutside(base: Path, outside: set<Path>) {
    forall p | p in outside :: !(base < p)
  }

  /** What the protocol needs of the layout of files. */
  ghost predicate Separated(w: World) {
    && (forall d1, d2 | Accepted(d1) && Accepted(d2) && w.file(d1) == w.file(d2) :: d1 == d2)
    && (forall d1, d2 | Accepted(d2) :: w.temp(d1) != w.file(d2))
  }

  /** No file is one of the directories above it. */
  ghost predicate Level(w: World) {
    forall d :: w.file(d) !in w.above(d) && w.temp(d) !in w.above(d)
  }

  /** And the file of an accepted digest is no directory that is always there. */
  ghost predicate Rooted(w: World) {
    && Level(w)
    && (forall d | Accepted(d) :: w.file(d) !in w.fixed && w.temp(d) !in w.fixed)
  }

  lemma StoreIsSeparated(sha: Sha, base: Path, outside: set<Path>)
    ensures Separated(StoreWorld(sha, base, outside)) && Level(StoreWorld(sha, base, outside))
    ensures IsOutside(base, outside) ==> Rooted(StoreWorld(sha, base, outside))
  {
    var w := StoreWorld(sha, base, outside);
    forall d1, d2 | Accepted(d1) && Accepted(d2) && w.file(d1) == w.file(d2)
      ensures d1 == d2
    {
      BlobPathInjective(base, d1, d2);
    }
    forall d1, d2 | Accepted(d2)
      ensures w.temp(d1) != w.file(d2)
    {
      TempPathIsNoBlobPath(base, BlobPath(base, d1), d2);
    }
    if IsOutside(base, outside) {
      forall d | Accepted(d)
        ensures w.file(d) !in w.fixed && w.temp(d) !in w.fixed
      {
        FixedIsNoBlob(base, d);
        FixedIsNoTemp(base, d);
        AcceptedIsInside(base, d);
      }
    }
  }

  lemma AcceptedIsInside(base: Path, digest: string)
    requires Accepted(digest)
    ensures base < BlobPath(base, digest) && base < TempPath(BlobPath(base, digest))
  {
    BlobPathShape(base, digest);
  }

  function Empty(w: World): Disk {
    Disk(map[], [], map[], w.fixed)
  }

  /** A file where a directory should be. */
  predicate Blocked(w: World, s: Disk, digest: string) {
    exists p :: p in w.above(digest) && p in s.names
  }

  /** Nothing lies in or below a directory. */
  predicate Vacant(s: Disk, dir: Path) {
    && (forall p | p in s.names :: !(dir < p))
    && (forall p | p in s.dirs :: !(dir < p))
  }

  predicate InPhase(s: Disk, id: nat, phase: Phase) {
    id in s.calls && s.calls[id].phase == phase
  }

  predicate Enabled(w: World, s: Disk, step: Step) {
    match step
    case MakeDirs(_) => true
    case Open(id, digest) => id !in s.calls && w.above(digest) <= s.dirs && w.temp(digest) !in s.dirs
    case Write(id, _) => InPhase(s, id, Copying) && s.calls[id].fd < |s.inodes|
    case FailWrite(id, _) => InPhase(s, id, Copying) && s.calls[id].fd < |s.inodes|
    case Close(id) => InPhase(s, id, Copying)
    case Verify(id) => InPhase(s, id, Closed)
    case Rename(id) =>
      InPhase(s, id, Verified) && w.temp(s.calls[id].digest) in s.names && w.file(s.calls[id].digest) !in s.dirs
    case Abort(id) => InPhase(s, id, Copying) || InPhase(s, id, Verified)
    case Leave(id) => InPhase(s, id, Leaving)
    case Delete(victim) => Accepted(victim)
    case Crash => true
  }

  function Moved(s: Disk, id: nat, phase: Phase): Disk
    requires id in s.calls
  {
    s.(calls := s.calls[id := s.calls[id].(phase := phase)])
  }

  function Next(w: World, s: Disk, step: Step): Disk
    requires Enabled(w, s, step)
  {
    match step
    case MakeDirs(digest) => if Blocked(w, s, digest) then s else s.(dirs := s.dirs + w.above(digest))
    case Open(id, digest) =>
      var temp := w.temp(digest);
      if temp in s.names && s.names[temp] < |s.inodes| then
        s.(inodes := s.inodes[s.names[temp] := []],
           calls := s.calls[id := Call(digest, s.names[temp], [], Copying)])
      else
        s.(names := s.names[temp := |s.inodes|], inodes := s.inodes + [[]],
           calls := s.calls[id := Call(digest, |s.inodes|, [], Copying)])
    case Write(id, piece) =>
      var c := s.calls[id];
      s.(inodes := s.inodes[c.fd := WriteAt(s.inodes[c.fd], |c.seen|, piece)],
         calls := s.calls[id := c.(seen := c.seen + piece)])
    case FailWrite(id, part) =>
      var c := s.calls[id];
      Moved(s.(inodes := s.inodes[c.fd := WriteAt(s.inodes[c.fd], |c.seen|, part)]), id, Leaving)
    case Close(id) => Moved(s, id, Closed)
    case Verify(id) =>
      var c := s.calls[id];
      Moved(s, id, if DigestOf(w.sha, c.seen) == c.digest then Verified else Leaving)
    case Rename(id) =>
      var digest := s.calls[id].digest;
      var temp := w.temp(digest);
      Moved(s.(names := (s.names - {temp})[w.file(digest) := s.names[temp]]), id, Leaving)
    case Abort(id) => Moved(s, id, Leaving)
    case Leave(id) =>
      s.(names := s.names - {w.temp(s.calls[id].digest)}, calls := s.calls - {id})
    case Delete(victim) => // removes a file, or else an empty directory
      var path := w.file(victim);
      if path in s.names then s.(names := s.names - {path})
      else if Vacant(s, path) then s.(dirs := s.dirs - {path}) else s
    case Crash => s.(calls := map[])
  }

  /** The steps are possible one after the other. */
  ghost predicate Run(w: World, s: Disk, steps: seq<Step>)
    decreases |steps|
  {
    steps != [] ==> Enabled(w, s, steps[0]) && Run(w, Next(w, s, steps[0]), steps[1..])
  }

  ghost function Final(w: World, s: Disk, steps: seq<Step>): Disk
    requires Run(w, s, steps)
    decreases |steps|
  {
    if steps == [] then s else Final(w, Next(w, s, steps[0]), steps[1..])
  }

  /** What a reader of an accepted digest finds. */
  function Lookup(w: World, s: Disk, digest: string): Option<Bytes> {
    var path := w.file(digest);
    if path in s.names && s.names[path] < |s.inodes| then Some(s.inodes[s.names[path]]) else None
  }

  /** Whatever is published hashes to its name. */
  ghost predicate Sound(w: World, s: Disk) {
    forall digest | Accepted(digest) && Lookup(w, s, digest).Some? ::
      DigestOf(w.sha, Lookup(w, s, digest).value) == digest
  }

  ghost predicate Attainable(w: World, digest: string) {
    exists content :: DigestOf(w.sha, content) == digest
  }

  /** SHA-256 is printed as hexadecimal digits. */
  ghost predicate PrintsHex(sha: Sha) {
    forall content :: IsHex(sha(content))
  }

  /** Every call that overlaps another one with the same temporary file has its digest in the given set. */
  ghost predicate OverlapsWithin(w: World, overlaps: set<string>, s: Disk, steps: seq<Step>)
    requires Run(w, s, steps)
    decreases |steps|
  {
    steps != [] ==>
      && (steps[0].Open? ==> MayOpen(w, overlaps, s, steps[0].digest))
      && OverlapsWithin(w, overlaps, Next(w, s, steps[0]), steps[1..])
  }

  ghost predicate MayOpen(w: World, overlaps: set<string>, s: Disk, digest: string) {
    forall id | id in s.calls && w.temp(s.calls[id].digest) == w.temp(digest) ::
      digest in overlaps && s.calls[id].digest in overlaps
  }

  // ---------------------------------------------------------------- the invariant

  ghost predicate NamesExist(s: Disk) {
    && (forall p | p in s.names :: s.names[p] < |s.inodes|)
    && (forall id | id in s.calls :: s.calls[id].fd < |s.inodes|)
  }

  ghost predicate NoHardLinks(s: Disk) {
    forall p, q | p in s.names && q in s.names && s.names[p] == s.names[q] :: p == q
  }

  /** The only name of an open file is its own temporary name. */
  ghost predicate OpenFilesArePrivate(w: World, s: Disk) {
    forall id, p | id in s.calls && s.calls[id].phase != Leaving && p in s.names && s.names[p] == s.calls[id].fd ::
      p == w.temp(s.calls[id].digest)
  }

  /** A call outside the overlap set owns its temporary file, which holds what the hasher saw. */
  ghost predicate HasherSawFile(w: World, overlaps: set<string>, s: Disk) {
    forall id | id in s.calls && s.calls[id].phase != Leaving && s.calls[id].digest !in overlaps ::
      var c := s.calls[id];
      var temp := w.temp(c.digest);
      temp in s.names && s.names[temp] == c.fd && c.fd < |s.inodes| && s.inodes[c.fd] == c.seen
  }

  ghost predicate VerifiedMatches(w: World, s: Disk) {
    forall id | id in s.calls && s.calls[id].phase == Verified ::
      DigestOf(w.sha, s.calls[id].seen) == s.calls[id].digest
  }

  ghost predicate SharersOverlap(w: World, overlaps: set<string>, s: Disk) {
    forall i, j | i in s.calls && j in s.calls && i != j && w.temp(s.calls[i].digest) == w.temp(s.calls[j].digest) ::
      s.calls[i].digest in overlaps
  }

  ghost predicate Inv(w: World, overlaps: set<string>, s: Disk) {
    && NamesExist(s)
    && NoHardLinks(s)
    && OpenFilesArePrivate(w, s)
    && HasherSawFile(w, overlaps, s)
    && VerifiedMatches(w, s)
    && SharersOverlap(w, overlaps, s)
    && Sound(w, s)
  }

  /** The overlap set holds nothing that any content hashes to. */
  ghost predicate Harmless(w: World, overlaps: set<string>) {
    forall digest | digest in overlaps :: !Attainable(w, digest)
  }

  ghost predicate SameBlobs(w: World, s: Disk, s': Disk) {
    forall d | Accepted(d) :: Lookup(w, s', d) == Lookup(w, s, d)
  }

  lemma SameBlobsAreSound(w: World, s: Disk, s': Disk)
    requires Sound(w, s) && SameBlobs(w, s, s')
    ensures Sound(w, s')
  {
  }

  ghost predicate Opens(w: World, overlaps: set<string>, s: Disk, step: Step) {
    && step.Open? && Enabled(w, s, step) && MayOpen(w, overlaps, s, step.digest)
    && Separated(w) && Inv(w, overlaps, s)
  }

  lemma OpenKeepsNames(w: World, overlaps: set<string>, s: Disk, step: Step)
    requires Opens(w, overlaps, s, step)
    ensures var s' := Next(w, s, step); NamesExist(s') && NoHardLinks(s')
  {
  }

  lemma OpenKeepsPrivacy(w: World, overlaps: set<string>, s: Disk, step: Step)
    requires Opens(w, overlaps, s, step)
    ensures OpenFilesArePrivate(w, Next(w, s, step))
  {
  }

  lemma OpenKeepsHashers(w: World, overlaps: set<string>, s: Disk, step: Step)
    requires Opens(w, overlaps, s, step)
    ensures HasherSawFile(w, overlaps, Next(w, s, step))
  {
    forall id | id in s.calls && s.calls[id].digest !in overlaps
      ensures w.temp(s.calls[id].digest) != w.temp(step.digest)
    {
    }
  }

  lemma OpenKeepsCalls(w: World, overlaps: set<string>, s: Disk, step: Step)
    requires Opens(w, overlaps, s, step)
    ensures var s' := Next(w, s, step); VerifiedMatches(w, s') && SharersOverlap(w, overlaps, s')
  {
  }

  lemma OpenKeepsBlobs(w: World, overlaps: set<string>, s: Disk, step: Step)
    requires Opens(w, overlaps, s, step)
    ensures SameBlobs(w, s, Next(w, s, step))
  {
  }

  ghost predicate Writes(w: World, overlaps: set<string>, s: Disk, step: Step) {
    (step.Write? || step.FailWrite?) && Enabled(w, s, step) && Separated(w) && Inv(w, overlaps, s)
  }

  lemma WriteKeepsHashers(w: World, overlaps: set<string>, s: Disk, step: Step)
    requires Writes(w, overlaps, s, step)
    ensures HasherSawFile(w, overlaps, Next(w, s, step))
  {
    var c := s.calls[step.id];
    if step.Write? {
      WriteAtEnd(c.seen, step.piece);
    }
    forall id | id in s.calls && id != step.id && s.calls[id].phase != Leaving && s.calls[id].digest !in overlaps
      ensures s.calls[id].fd != c.fd
    {
      assert s.names[w.temp(s.calls[id].digest)] == s.calls[id].fd;
    }
  }

  lemma WriteKeepsRest(w: World, overlaps: set<string>, s: Disk, step: Step)
    requires Writes(w, overlaps, s, step)
    ensures var s' := Next(w, s, step);
            && NamesExist(s') && NoHardLinks(s') && OpenFilesArePrivate(w, s')
            && VerifiedMatches(w, s') && SharersOverlap(w, overlaps, s')
  {
  }

  lemma WriteKeepsBlobs(w: World, overlaps: set<string>, s: Disk, step: Step)
    requires Writes(w, overlaps, s, step)
    ensures SameBlobs(w, s, Next(w, s, step))
  {
    forall d | Accepted(d) && w.file(d) in s.names
      ensures s.names[w.file(d)] != s.calls[step.id].fd
    {
      assert w.file(d) != w.temp(s.calls[step.id].digest);
    }
  }

  ghost predicate Renames(w: World, overlaps: set<string>, s: Disk, step: Step) {
    && step.Rename? && Enabled(w, s, step)
    && Separated(w) && PrintsHex(w.sha) && Harmless(w, overlaps) && Inv(w, overlaps, s)
  }

  /** A call that renames is outside the overlap set: its content attains its digest. */
  lemma RenamerIsAlone(w: World, overlaps: set<string>, s: Disk, step: Step)
    requires Renames(w, overlaps, s, step)
    ensures var c := s.calls[step.id];
            && c.digest !in overlaps && Accepted(c.digest)
            && s.names[w.temp(c.digest)] == c.fd && s.inodes[c.fd] == c.seen
  {
    CalculatedIsAccepted(w, s.calls[step.id].seen);
    assert Attainable(w, s.calls[step.id].digest);
  }

  lemma RenameKeepsFiles(w: World, overlaps: set<string>, s: Disk, step: Step)
    requires Renames(w, overlaps, s, step)
    ensures var s' := Next(w, s, step); NamesExist(s') && NoHardLinks(s') && OpenFilesArePrivate(w, s')
  {
    RenamerIsAlone(w, overlaps, s, step);
  }

  lemma RenameKeepsCalls(w: World, overlaps: set<string>, s: Disk, step: Step)
    requires Renames(w, overlaps, s, step)
    ensures var s' := Next(w, s, step);
            HasherSawFile(w, overlaps, s') && VerifiedMatches(w, s') && SharersOverlap(w, overlaps, s')
  {
    RenamerIsAlone(w, overlaps, s, step);
  }

  /** The content that was verified is what a reader finds from now on. */
  lemma RenamePublishes(w: World, overlaps: set<string>, s: Disk, step: Step)
    requires Renames(w, overlaps, s, step)
    ensures var c := s.calls[step.id];
            && Accepted(c.digest) && DigestOf(w.sha, c.seen) == c.digest
            && forall d | Accepted(d) ::
                 Lookup(w, Next(w, s, step), d) == if d == c.digest then Some(c.seen) else Lookup(w, s, d)
  {
    RenamerIsAlone(w, overlaps, s, step);
  }

  ghost predicate SameFiles(s: Disk, s': Disk) {
    s'.names == s.names && s'.inodes == s.inodes
  }

  lemma SameFilesSameBlobs(w: World, s: Disk, s': Disk)
    requires SameFiles(s, s')
    ensures SameBlobs(w, s, s')
  {
  }

  lemma MakeDirsKeepsInv(w: World, overlaps: set<string>, s: Disk, step: Step)
    requires step.MakeDirs? && Enabled(w, s, step) && Inv(w, overlaps, s)
    ensures Inv(w, overlaps, Next(w, s, step)) && SameFiles(s, Next(w, s, step))
  {
  }

  lemma CloseKeepsInv(w: World, overlaps: set<string>, s: Disk, step: Step)
    requires step.Close? && Enabled(w, s, step) && Inv(w, overlaps, s)
    ensures Inv(w, overlaps, Next(w, s, step)) && SameFiles(s, Next(w, s, step))
  {
  }

  lemma VerifyKeepsInv(w: World, overlaps: set<string>, s: Disk, step: Step)
    requires step.Verify? && Enabled(w, s, step) && Inv(w, overlaps, s)
    ensures Inv(w, overlaps, Next(w, s, step)) && SameFiles(s, Next(w, s, step))
  {
  }

  lemma AbortKeepsInv(w: World, overlaps: set<string>, s: Disk, step: Step)
    requires step.Abort? && Enabled(w, s, step) && Inv(w, overlaps, s)
    ensures Inv(w, overlaps, Next(w, s, step)) && SameFiles(s, Next(w, s, step))
  {
  }

  lemma CrashKeepsInv(w: World, overlaps: set<string>, s: Disk, step: Step)
    requires step.Crash? && Enabled(w, s, step) && Inv(w, overlaps, s)
    ensures Inv(w, overlaps, Next(w, s, step)) && SameFiles(s, Next(w, s, step))
  {
  }

  lemma PhaseStepsKeepInv(w: World, overlaps: set<string>, s: Disk, step: Step)
    requires step.MakeDirs? || step.Close? || step.Verify? || step.Abort? || step.Crash?
    requires Enabled(w, s, step) && Inv(w, overlaps, s)
    ensures Inv(w, overlaps, Next(w, s, step)) && SameBlobs(w, s, Next(w, s, step))
  {
    match step {
      case MakeDirs(_) => MakeDirsKeepsInv(w, overlaps, s, step);
      case Close(_) => CloseKeepsInv(w, overlaps, s, step);
      case Verify(_) => VerifyKeepsInv(w, overlaps, s, step);
      case Abort(_) => AbortKeepsInv(w, overlaps, s, step);
      case Crash => CrashKeepsInv(w, overlaps, s, step);
      case _ =>
    }
    SameFilesSameBlobs(w, s, Next(w, s, step));
  }

  lemma LeaveKeepsHashers(w: World, overlaps: set<string>, s: Disk, step: Step)
    requires step.Leave? && Enabled(w, s, step) && HasherSawFile(w, overlaps, s) && SharersOverlap(w, overlaps, s)
    ensures HasherSawFile(w, overlaps, Next(w, s, step))
  {
    forall id | id in s.calls && id != step.id && s.calls[id].digest !in overlaps
      ensures w.temp(s.calls[id].digest) != w.temp(s.calls[step.id].digest)
    {
    }
  }

  lemma LeaveKeepsInv(w: World, overlaps: set<string>, s: Disk, step: Step)
    requires step.Leave? && Enabled(w, s, step) && Separated(w) && Inv(w, overlaps, s)
    ensures Inv(w, overlaps, Next(w, s, step)) && SameBlobs(w, s, Next(w, s, step))
  {
    LeaveKeepsHashers(w, overlaps, s, step);
    LeaveKeepsBlobs(w, overlaps, s, step);
    SameBlobsAreSound(w, s, Next(w, s, step));
  }

  lemma LeaveKeepsBlobs(w: World, overlaps: set<string>, s: Disk, step: Step)
    requires step.Leave? && Enabled(w, s, step) && Separated(w)
    ensures SameBlobs(w, s, Next(w, s, step))
  {
  }

  lemma DeleteKeepsHashers(w: World, overlaps: set<string>, s: Disk, step: Step)
    requires step.Delete? && Enabled(w, s, step) && Separated(w) && HasherSawFile(w, overlaps, s)
    ensures HasherSawFile(w, overlaps, Next(w, s, step))
  {
  }

  lemma DeleteRemovesOne(w: World, s: Disk, step: Step)
    requires step.Delete? && Enabled(w, s, step) && Separated(w)
    ensures forall d | Accepted(d) ::
              Lookup(w, Next(w, s, step), d) == if d == step.victim then None else Lookup(w, s, d)
  {
  }

  lemma DeleteKeepsInv(w: World, overlaps: set<string>, s: Disk, step: Step)
    requires step.Delete? && Enabled(w, s, step) && Separated(w) && Inv(w, overlaps, s)
    ensures Inv(w, overlaps, Next(w, s, step))
    ensures forall d | Accepted(d) ::
              Lookup(w, Next(w, s, step), d) == if d == step.victim then None else Lookup(w, s, d)
  {
    var s' := Next(w, s, step);
    assert s'.inodes == s.inodes && s'.calls == s.calls;
    DeleteKeepsHashers(w, overlaps, s, step);
    DeleteRemovesOne(w, s, step);
  }

  /** What a step does to what readers find. */
  ghost predicate Atomic(w: World, s: Disk, step: Step)
    requires Enabled(w, s, step)
  {
    && (forall d | Accepted(d) :: Lookup(w, Next(w, s, step), d) ==
          if step.Rename? && d == s.calls[step.id].digest then Some(s.calls[step.id].seen)
          else if step.Delete? && d == step.victim then None
          else Lookup(w, s, d))
    && (step.Rename? ==> DigestOf(w.sha, s.calls[step.id].seen) == s.calls[step.id].digest)
  }

  lemma SameBlobsAreAtomic(w: World, s: Disk, step: Step)
    requires Enabled(w, s, step) && SameBlobs(w, s, Next(w, s, step)) && !step.Rename? && !step.Delete?
    ensures Atomic(w, s, step)
  {
  }

  lemma OpenIsAtomic(w: World, overlaps: set<string>, s: Disk, step: Step)
    requires Opens(w, overlaps, s, step)
    ensures Inv(w, overlaps, Next(w, s, step)) && SameBlobs(w, s, Next(w, s, step))
  {
    OpenKeepsNames(w, overlaps, s, step);
    OpenKeepsPrivacy(w, overlaps, s, step);
    OpenKeepsHashers(w, overlaps, s, step);
    OpenKeepsCalls(w, overlaps, s, step);
    OpenKeepsBlobs(w, overlaps, s, step);
    SameBlobsAreSound(w, s, Next(w, s, step));
  }

  lemma WriteIsAtomic(w: World, overlaps: set<string>, s: Disk, step: Step)
    requires Writes(w, overlaps, s, step)
    ensures Inv(w, overlaps, Next(w, s, step)) && SameBlobs(w, s, Next(w, s, step))
  {
    WriteKeepsHashers(w, overlaps, s, step);
    WriteKeepsRest(w, overlaps, s, step);
    WriteKeepsBlobs(w, overlaps, s, step);
    SameBlobsAreSound(w, s, Next(w, s, step));
  }

  lemma RenameIsAtomic(w: World, overlaps: set<string>, s: Disk, step: Step)
    requires Renames(w, overlaps, s, step)
    ensures Inv(w, overlaps, Next(w, s, step)) && Atomic(w, s, step)
  {
    RenameKeepsFiles(w, overlaps, s, step);
    RenameKeepsCalls(w, overlaps, s, step);
    RenamePublishes(w, overlaps, s, step);
  }

  /** One step of any call either leaves every blob as it is, publishes a whole content under its own digest, or
      removes one blob: PutBlob is atomic to everyone else. */
  lemma StepIsAtomic(w: World, overlaps: set<string>, s: Disk, step: Step)
    requires Enabled(w, s, step) && Separated(w) && PrintsHex(w.sha) && Harmless(w, overlaps)
    requires Inv(w, overlaps, s)
    requires step.Open? ==> MayOpen(w, overlaps, s, step.digest)
    ensures Inv(w, overlaps, Next(w, s, step)) && Atomic(w, s, step)
  {
    if step.Rename? {
      RenameIsAtomic(w, overlaps, s, step);
    } else if step.Delete? {
      DeleteKeepsInv(w, overlaps, s, step);
    } else {
      if step.Open? {
        OpenIsAtomic(w, overlaps, s, step);
      } else if step.Write? || step.FailWrite? {
        WriteIsAtomic(w, overlaps, s, step);
      } else if step.Leave? {
        LeaveKeepsInv(w, overlaps, s, step);
      } else {
        PhaseStepsKeepInv(w, overlaps, s, step);
      }
      SameBlobsAreAtomic(w, s, step);
    }
  }

  lemma CalculatedIsAccepted(w: World, content: Bytes)
    requires PrintsHex(w.sha)
    ensures Accepted(DigestOf(w.sha, content))
  {
    var d := DigestOf(w.sha, content);
    assert d[6] == ':';
    assert d[7..] == w.sha(content);
    assert ':' !in d[..6];
    assert Text.IndexOf(d, ':') == 6;
    assert IsAlgorithm(d[..6]);
  }

  lemma {:induction false} RunsKeepInv(w: World, overlaps: set<string>, s: Disk, steps: seq<Step>)
    requires Separated(w) && PrintsHex(w.sha) && Harmless(w, overlaps) && Inv(w, overlaps, s)
    requires Run(w, s, steps) && OverlapsWithin(w, overlaps, s, steps)
    ensures Inv(w, overlaps, Final(w, s, steps))
    decreases |steps|
  {
    if steps != [] {
      StepIsAtomic(w, overlaps, s, steps[0]);
      RunsKeepInv(w, overlaps, Next(w, s, steps[0]), steps[1..]);
    }
  }

  /** No path is a file and a directory. */
  predicate NamesAreNoDirs(s: Disk) {
    forall p | p in s.names :: p !in s.dirs
  }

  lemma StepKeepsNamesApart(w: World, s: Disk, step: Step)
    requires Enabled(w, s, step) && NamesAreNoDirs(s)
    ensures NamesAreNoDirs(Next(w, s, step))
  {
  }

  /** Nobody can write to this inode any more. */
  ghost predicate Sealed(w: World, s: Disk, fd: nat) {
    && fd < |s.inodes|
    && (forall id | id in s.calls && s.calls[id].phase != Leaving :: s.calls[id].fd != fd)
    && (forall digest | w.temp(digest) in s.names :: s.names[w.temp(digest)] != fd)
  }

  lemma PublishedIsSealed(w: World, overlaps: set<string>, s: Disk, digest: string)
    requires Separated(w) && Inv(w, overlaps, s) && Accepted(digest) && w.file(digest) in s.names
    ensures Sealed(w, s, s.names[w.file(digest)])
  {
    var fd := s.names[w.file(digest)];
    forall id | id in s.calls && s.calls[id].phase != Leaving
      ensures s.calls[id].fd != fd
    {
      assert w.temp(s.calls[id].digest) != w.file(digest);
    }
    forall d | w.temp(d) in s.names
      ensures s.names[w.temp(d)] != fd
    {
      assert w.temp(d) != w.file(digest);
    }
  }

  lemma StepKeepsSealed(w: World, s: Disk, step: Step, fd: nat)
    requires Enabled(w, s, step) && Sealed(w, s, fd)
    ensures Sealed(w, Next(w, s, step), fd) && Next(w, s, step).inodes[fd] == s.inodes[fd]
  {
  }

  lemma {:induction false} RunKeepsSealed(w: World, s: Disk, steps: seq<Step>, fd: nat)
    requires Run(w, s, steps) && Sealed(w, s, fd)
    ensures fd < |Final(w, s, steps).inodes| && Final(w, s, steps).inodes[fd] == s.inodes[fd]
    decreases |steps|
  {
    if steps != [] {
      StepKeepsSealed(w, s, steps[0], fd);
      RunKeepsSealed(w, Next(w, s, steps[0]), steps[1..], fd);
    }
  }

  /** An inode that a reader of a blob has open keeps its bytes in every run, whatever the writers do, and also after
      the blob is deleted or published once more. */
  lemma PublishedBytesAreStable(w: World, overlaps: set<string>, s: Disk, steps: seq<Step>, digest: string)
    requires Separated(w) && Inv(w, overlaps, s) && Run(w, s, steps)
    requires Accepted(digest) && w.file(digest) in s.names
    ensures var fd := s.names[w.file(digest)];
            fd < |Final(w, s, steps).inodes| && Final(w, s, steps).inodes[fd] == s.inodes[fd]
  {
    PublishedIsSealed(w, overlaps, s, digest);
    RunKeepsSealed(w, s, steps, s.names[w.file(digest)]);
  }

  // ---------------------------------------------------------------- when overlapping goes wrong

  /** Two calls for one digest share a temporary file: the second empties it between the check and the rename. */
  function OverlapSchedule(digest: string, good: Bytes, bad: Bytes): seq<Step> {
    [MakeDirs(digest), Open(0, digest), Write(0, good), Close(0), Verify(0),
     MakeDirs(digest), Open(1, digest), Write(1, bad), Rename(0)]
  }

  /** The disk after each step of the schedule. */
  function OverlapStates(w: World, digest: string, good: Bytes, bad: Bytes): seq<Disk> {
    var names := map[w.temp(digest) := 0];
    var dirs := w.fixed + w.above(digest);
    var first, second := Call(digest, 0, good, Verified), Call(digest, 0, [], Copying);
    [ Empty(w),
      Disk(map[], [], map[], dirs),
      Disk(names, [[]], map[0 := second], dirs),
      Disk(names, [good], map[0 := Call(digest, 0, good, Copying)], dirs),
      Disk(names, [good], map[0 := Call(digest, 0, good, Closed)], dirs),
      Disk(names, [good], map[0 := first], dirs),
      Disk(names, [good], map[0 := first], dirs),
      Disk(names, [[]], map[0 := first, 1 := second], dirs),
      Disk(names, [bad], map[0 := first, 1 := Call(digest, 0, bad, Copying)], dirs),
      Disk(map[w.file(digest) := 0], [bad],
           map[0 := first.(phase := Leaving), 1 := Call(digest, 0, bad, Copying)], dirs)
    ]
  }

  ghost predicate Transits(w: World, digest: string, good: Bytes, bad: Bytes, k: nat)
    requires k < 9
  {
    var states, step := OverlapStates(w, digest, good, bad), OverlapSchedule(digest, good, bad)[k];
    && Enabled(w, states[k], step) && Next(w, states[k], step) == states[k + 1]
    && (step.Open? ==> MayOpen(w, {digest}, states[k], digest))
  }

  lemma FirstTransitions(w: World, digest: string, good: Bytes, bad: Bytes, k: nat)
    requires k < 3 && DigestOf(w.sha, good) == digest && Accepted(digest) && Rooted(w)
    ensures Transits(w, digest, good, bad, k)
  {
    WriteAtEnd([], good);
    assert [] + good == good;
  }

  lemma MiddleTransitions(w: World, digest: string, good: Bytes, bad: Bytes, k: nat)
    requires 3 <= k < 6 && DigestOf(w.sha, good) == digest && Accepted(digest) && Rooted(w)
    ensures Transits(w, digest, good, bad, k)
  {
    var dirs := w.fixed + w.above(digest);
    assert dirs + w.above(digest) == dirs;
  }

  lemma LastTransitions(w: World, digest: string, good: Bytes, bad: Bytes, k: nat)
    requires 6 <= k < 9 && DigestOf(w.sha, good) == digest && Accepted(digest) && Rooted(w)
    ensures Transits(w, digest, good, bad, k)
  {
    WriteAtEnd([], bad);
    assert [] + bad == bad;
  }

  lemma OverlapTransition(w: World, digest: string, good: Bytes, bad: Bytes, k: nat)
    requires k < 9 && DigestOf(w.sha, good) == digest && Accepted(digest) && Rooted(w)
    ensures Transits(w, digest, good, bad, k)
  {
    if k < 3 {
      FirstTransitions(w, digest, good, bad, k);
    } else if k < 6 {
      MiddleTransitions(w, digest, good, bad, k);
    } else {
      LastTransitions(w, digest, good, bad, k);
    }
  }

  lemma {:induction false} OverlapRun(w: World, digest: string, good: Bytes, bad: Bytes, k: nat)
    requires k <= 9 && DigestOf(w.sha, good) == digest && Accepted(digest) && Rooted(w)
    ensures var states, steps := OverlapStates(w, digest, good, bad), OverlapSchedule(digest, good, bad)[k..];
            && Run(w, states[k], steps) && OverlapsWithin(w, {digest}, states[k], steps)
            && Final(w, states[k], steps) == states[9]
    decreases 9 - k
  {
    if k < 9 {
      var steps := OverlapSchedule(digest, good, bad);
      assert steps[k..][0] == steps[k] && steps[k..][1..] == steps[k + 1..];
      OverlapTransition(w, digest, good, bad, k);
      OverlapRun(w, digest, good, bad, k + 1);
    }
  }

  lemma OverlapPublishesWrongBytes(w: World, good: Bytes, bad: Bytes)
    requires Rooted(w) && PrintsHex(w.sha) && w.sha(good) != w.sha(bad)
    ensures var digest := DigestOf(w.sha, good);
            var steps := OverlapSchedule(digest, good, bad);
            && Run(w, Empty(w), steps)
            && OverlapsWithin(w, {digest}, Empty(w), steps)
            && Lookup(w, Final(w, Empty(w), steps), digest) == Some(bad)
            && !Sound(w, Final(w, Empty(w), steps))
  {
    var digest := DigestOf(w.sha, good);
    CalculatedIsAccepted(w, good);
    var steps := OverlapSchedule(digest, good, bad);
    OverlapRun(w, digest, good, bad, 0);
    assert steps[0..] == steps;
    assert DigestOf(w.sha, bad)[7..] == w.sha(bad) && digest[7..] == w.sha(good);
  }

  ghost predicate SafeFor(w: World, overlaps: set<string>) {
    forall steps | Run(w, Empty(w), steps) && OverlapsWithin(w, overlaps, Empty(w), steps) ::
      Sound(w, Final(w, Empty(w), steps))
  }

  lemma HarmlessIsSafe(w: World, overlaps: set<string>)
    requires Separated(w) && PrintsHex(w.sha) && Harmless(w, overlaps)
    ensures SafeFor(w, overlaps)
  {
    forall steps | Run(w, Empty(w), steps) && OverlapsWithin(w, overlaps, Empty(w), steps)
      ensures Sound(w, Final(w, Empty(w), steps))
    {
      RunsKeepInv(w, overlaps, Empty(w), steps);
    }
  }

  lemma SafeIsHarmless(w: World, overlaps: set<string>, a: Bytes, b: Bytes)
    requires Rooted(w) && PrintsHex(w.sha) && w.sha(a) != w.sha(b) && SafeFor(w, overlaps)
    ensures Harmless(w, overlaps)
  {
    forall digest | digest in overlaps && Attainable(w, digest)
      ensures false
    {
      var good :| DigestOf(w.sha, good) == digest;
      var bad := if w.sha(good) != w.sha(a) then a else b;
      OverlapPublishesWrongBytes(w, good, bad);
      OverlapsWiden(w, {digest}, overlaps, Empty(w), OverlapSchedule(digest, good, bad));
    }
  }

  /** Publication is safe under every schedule, failure and crash exactly when the digests that callers may put
      concurrently with themselves are digests that no content has. With no overlap at all it is safe. */
  lemma SafeExactlyWhenOverlapsAreHarmless(sha: Sha, base: Path, outside: set<Path>, overlaps: set<string>,
                                           a: Bytes, b: Bytes)
    requires PrintsHex(sha) && sha(a) != sha(b) && IsOutside(base, outside)
    ensures var w := StoreWorld(sha, base, outside);
            (SafeFor(w, overlaps) <==> Harmless(w, overlaps)) && SafeFor(w, {})
  {
    var w := StoreWorld(sha, base, outside);
    StoreIsSeparated(sha, base, outside);
    HarmlessIsSafe(w, {});
    if Harmless(w, overlaps) {
      HarmlessIsSafe(w, overlaps);
    }
    if SafeFor(w, overlaps) {
      SafeIsHarmless(w, overlaps, a, b);
    }
  }

  lemma {:induction false} OverlapsWiden(w: World, few: set<string>, many: set<string>, s: Disk, steps: seq<Step>)
    requires few <= many && Run(w, s, steps) && OverlapsWithin(w, few, s, steps)
    ensures OverlapsWithin(w, many, s, steps)
    decreases |steps|
  {
    if steps != [] {
      OverlapsWiden(w, few, many, Next(w, s, steps[0]), steps[1..]);
    }
  }
}
