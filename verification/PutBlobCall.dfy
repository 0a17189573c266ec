/** One call of PutBlob, undisturbed by others on its temporary file, is the single action of module Blobs
    (internal/storage/filesystem/store.go). */
module PutBlobCall {
  import opened Common
  import opened Blobs
  import opened Publication
  import Placing

  function Writes(id: nat, pieces: seq<Bytes>): seq<Step> {
    if pieces == [] then [] else [Write(id, pieces[0])] + Writes(id, pieces[1..])
  }

  /** A call can create its temporary file. */
  predicate Openable(w: World, s: Disk, digest: string) {
    !Blocked(w, s, digest) && w.temp(digest) !in s.dirs
  }

  /** And it can rename it. */
  predicate Placeable(w: World, s: Disk, digest: string) {
    Openable(w, s, digest) && w.file(digest) !in s.dirs
  }

  /** The steps after the last piece: a reader that fails leaves nothing more to do than clean up, and so does a
      directory in the place of the file. */
  function Finish(sha: Sha, id: nat, digest: string, body: Body, placeable: bool): seq<Step> {
    if !body.complete then [FailWrite(id, []), Leave(id)]
    else if !Verifies(sha, digest, body) then [Close(id), Verify(id), Leave(id)]
    else [Close(id), Verify(id), if placeable then Rename(id) else Abort(id), Leave(id)]
  }

  function CallSteps(w: World, s: Disk, id: nat, digest: string, body: Body): seq<Step> {
    if !Openable(w, s, digest) then [MakeDirs(digest)]
    else [MakeDirs(digest)] + [Open(id, digest)] + Writes(id, body.pieces)
         + Finish(w.sha, id, digest, body, Placeable(w, s, digest))
  }

  ghost predicate Good(w: World, s: Disk) {
    Separated(w) && Rooted(w) && PrintsHex(w.sha) && Inv(w, {}, s)
  }

  /** The steps are possible, no call overlaps another one, and they end there. */
  ghost predicate Reaches(w: World, s: Disk, steps: seq<Step>, s': Disk) {
    Run(w, s, steps) && OverlapsWithin(w, {}, s, steps) && Final(w, s, steps) == s'
  }

  predicate CopyingFor(s: Disk, id: nat, digest: string, seen: Bytes) {
    InPhase(s, id, Copying) && s.calls[id].digest == digest && s.calls[id].seen == seen
  }

  /** Other calls are where they were. */
  predicate OthersStay(s: Disk, s': Disk, id: nat) {
    s'.calls - {id} == s.calls - {id}
  }

  /** The same paths lead to files and directories. */
  predicate SameTree(s: Disk, s': Disk) {
    s'.names.Keys == s.names.Keys && s'.dirs == s.dirs
  }

  lemma {:induction false} ReachesAppend(w: World, s: Disk, a: seq<Step>, s1: Disk, b: seq<Step>, s2: Disk)
    requires Reaches(w, s, a, s1) && Reaches(w, s1, b, s2)
    ensures Reaches(w, s, a + b, s2)
    decreases |a|
  {
    if a == [] {
      assert a + b == b;
    } else {
      assert (a + b)[1..] == a[1..] + b;
      ReachesAppend(w, Next(w, s, a[0]), a[1..], s1, b, s2);
    }
  }

  lemma OneStep(w: World, s: Disk, step: Step)
    requires Enabled(w, s, step) && (step.Open? ==> MayOpen(w, {}, s, step.digest))
    ensures Reaches(w, s, [step], Next(w, s, step))
  {
    assert [step][1..] == [];
  }

  lemma MakeDirsOnce(w: World, s: Disk, digest: string) returns (s1: Disk)
    requires Good(w, s)
    ensures Reaches(w, s, [MakeDirs(digest)], s1)
    ensures Good(w, s1) && SameBlobs(w, s, s1) && s1.calls == s.calls && s1.names == s.names
    ensures s1.dirs == if Blocked(w, s, digest) then s.dirs else s.dirs + w.above(digest)
  {
    StepIsAtomic(w, {}, s, MakeDirs(digest));
    OneStep(w, s, MakeDirs(digest));
    s1 := Next(w, s, MakeDirs(digest));
  }

  lemma OpenEffect(w: World, s: Disk, id: nat, digest: string)
    requires Enabled(w, s, Open(id, digest))
    ensures var s1 := Next(w, s, Open(id, digest));
            && OthersStay(s, s1, id) && CopyingFor(s1, id, digest, [])
            && s1.names.Keys == s.names.Keys + {w.temp(digest)} && s1.dirs == s.dirs
  {
  }

  lemma OpenOnce(w: World, s: Disk, id: nat, digest: string) returns (s1: Disk)
    requires Good(w, s) && id !in s.calls && MayOpen(w, {}, s, digest)
    requires w.above(digest) <= s.dirs && w.temp(digest) !in s.dirs
    ensures Reaches(w, s, [Open(id, digest)], s1)
    ensures Good(w, s1) && SameBlobs(w, s, s1) && OthersStay(s, s1, id) && CopyingFor(s1, id, digest, [])
    ensures s1.names.Keys == s.names.Keys + {w.temp(digest)} && s1.dirs == s.dirs
  {
    OpenEffect(w, s, id, digest);
    StepIsAtomic(w, {}, s, Open(id, digest));
    OneStep(w, s, Open(id, digest));
    s1 := Next(w, s, Open(id, digest));
  }

  lemma WriteOnce(w: World, s: Disk, id: nat, digest: string, seen: Bytes, piece: Bytes) returns (s1: Disk)
    requires Good(w, s) && CopyingFor(s, id, digest, seen)
    ensures Reaches(w, s, [Write(id, piece)], s1)
    ensures Good(w, s1) && SameBlobs(w, s, s1) && OthersStay(s, s1, id) && SameTree(s, s1)
    ensures CopyingFor(s1, id, digest, seen + piece)
  {
    StepIsAtomic(w, {}, s, Write(id, piece));
    OneStep(w, s, Write(id, piece));
    s1 := Next(w, s, Write(id, piece));
  }

  /** What a call has done between two points of its copying. */
  ghost predicate Copied(w: World, s: Disk, s': Disk, id: nat, digest: string, seen: Bytes) {
    Good(w, s') && SameBlobs(w, s, s') && OthersStay(s, s', id) && SameTree(s, s') && CopyingFor(s', id, digest, seen)
  }

  lemma CopiedOn(w: World, s: Disk, s1: Disk, s': Disk, id: nat, digest: string, seen: Bytes, seen': Bytes)
    requires Copied(w, s, s1, id, digest, seen) && Copied(w, s1, s', id, digest, seen')
    ensures Copied(w, s, s', id, digest, seen')
  {
  }

  lemma {:induction false} WriteAll(w: World, s: Disk, id: nat, digest: string, seen: Bytes, pieces: seq<Bytes>)
    returns (s': Disk)
    requires Good(w, s) && CopyingFor(s, id, digest, seen)
    ensures Reaches(w, s, Writes(id, pieces), s') && Copied(w, s, s', id, digest, seen + Flatten(pieces))
    decreases |pieces|
  {
    if pieces == [] {
      assert seen + Flatten(pieces) == seen;
      s' := s;
    } else {
      var s1 := WriteOnce(w, s, id, digest, seen, pieces[0]);
      Associative(seen, pieces[0], Flatten(pieces[1..]));
      s' := WriteAll(w, s1, id, digest, seen + pieces[0], pieces[1..]);
      CopiedOn(w, s, s1, s', id, digest, seen + pieces[0], seen + Flatten(pieces));
      ReachesAppend(w, s, [Write(id, pieces[0])], s1, Writes(id, pieces[1..]), s');
    }
  }

  lemma FailOnce(w: World, s: Disk, id: nat, digest: string, seen: Bytes) returns (s1: Disk)
    requires Good(w, s) && CopyingFor(s, id, digest, seen)
    ensures Reaches(w, s, [FailWrite(id, [])], s1)
    ensures Good(w, s1) && SameBlobs(w, s, s1) && OthersStay(s, s1, id) && SameTree(s, s1)
    ensures InPhase(s1, id, Leaving) && s1.calls[id].digest == digest
  {
    StepIsAtomic(w, {}, s, FailWrite(id, []));
    OneStep(w, s, FailWrite(id, []));
    s1 := Next(w, s, FailWrite(id, []));
  }

  lemma CloseOnce(w: World, s: Disk, id: nat, digest: string, seen: Bytes) returns (s1: Disk)
    requires Good(w, s) && CopyingFor(s, id, digest, seen)
    ensures Reaches(w, s, [Close(id)], s1)
    ensures Good(w, s1) && SameBlobs(w, s, s1) && SameTree(s, s1)
    ensures s1.calls == s.calls[id := s.calls[id].(phase := Closed)]
  {
    StepIsAtomic(w, {}, s, Close(id));
    OneStep(w, s, Close(id));
    s1 := Next(w, s, Close(id));
  }

  lemma VerifyOnce(w: World, s: Disk, id: nat) returns (s1: Disk)
    requires Good(w, s) && InPhase(s, id, Closed)
    ensures Reaches(w, s, [Verify(id)], s1)
    ensures Good(w, s1) && SameBlobs(w, s, s1) && SameTree(s, s1)
    ensures var c := s.calls[id];
            s1.calls == s.calls[id := c.(phase := if DigestOf(w.sha, c.seen) == c.digest then Verified else Leaving)]
  {
    StepIsAtomic(w, {}, s, Verify(id));
    OneStep(w, s, Verify(id));
    s1 := Next(w, s, Verify(id));
  }

  ghost predicate Publishes(w: World, s: Disk, s': Disk, digest: string, content: Bytes) {
    forall d | Paths.Accepted(d) :: Lookup(w, s', d) == if d == digest then Some(content) else Lookup(w, s, d)
  }

  lemma RenameOnce(w: World, s: Disk, id: nat) returns (s1: Disk)
    requires Good(w, s) && InPhase(s, id, Verified) && w.file(s.calls[id].digest) !in s.dirs
    ensures Reaches(w, s, [Rename(id)], s1)
    ensures Good(w, s1) && Publishes(w, s, s1, s.calls[id].digest, s.calls[id].seen)
    ensures OthersStay(s, s1, id) && InPhase(s1, id, Leaving) && s1.calls[id].digest == s.calls[id].digest
    ensures s1.names.Keys == s.names.Keys - {w.temp(s.calls[id].digest)} + {w.file(s.calls[id].digest)}
    ensures s1.dirs == s.dirs
  {
    StepIsAtomic(w, {}, s, Rename(id));
    OneStep(w, s, Rename(id));
    s1 := Next(w, s, Rename(id));
  }

  lemma AbortOnce(w: World, s: Disk, id: nat) returns (s1: Disk)
    requires Good(w, s) && InPhase(s, id, Verified)
    ensures Reaches(w, s, [Abort(id)], s1)
    ensures Good(w, s1) && SameBlobs(w, s, s1) && OthersStay(s, s1, id) && SameTree(s, s1)
    ensures InPhase(s1, id, Leaving) && s1.calls[id].digest == s.calls[id].digest
  {
    StepIsAtomic(w, {}, s, Abort(id));
    OneStep(w, s, Abort(id));
    s1 := Next(w, s, Abort(id));
  }

  lemma LeaveOnce(w: World, s: Disk, id: nat) returns (s1: Disk)
    requires Good(w, s) && InPhase(s, id, Leaving)
    ensures Reaches(w, s, [Leave(id)], s1)
    ensures Good(w, s1) && SameBlobs(w, s, s1) && s1.calls == s.calls - {id}
    ensures s1.names.Keys == s.names.Keys - {w.temp(s.calls[id].digest)} && s1.dirs == s.dirs
  {
    StepIsAtomic(w, {}, s, Leave(id));
    OneStep(w, s, Leave(id));
    s1 := Next(w, s, Leave(id));
  }

  predicate Publishing(w: World, digest: string, body: Body, placeable: bool) {
    placeable && Verifies(w.sha, digest, body)
  }

  /** What a call that has written its file makes of the disk. */
  ghost predicate Outcome(w: World, s: Disk, s': Disk, digest: string, body: Body, placeable: bool) {
    && (if Publishing(w, digest, body, placeable) then Publishes(w, s, s', digest, body.Content()) else SameBlobs(w, s, s'))
    && s'.names.Keys == (s.names.Keys - {w.temp(digest)})
                        + (if Publishing(w, digest, body, placeable) then {w.file(digest)} else {})
    && s'.dirs == s.dirs
  }

  lemma FinishFailed(w: World, s: Disk, id: nat, digest: string, body: Body, placeable: bool) returns (s': Disk)
    requires Good(w, s) && CopyingFor(s, id, digest, body.Content()) && !body.complete
    ensures Reaches(w, s, Finish(w.sha, id, digest, body, placeable), s')
    ensures Good(w, s') && Outcome(w, s, s', digest, body, placeable) && s'.calls == s.calls - {id}
  {
    var s1 := FailOnce(w, s, id, digest, body.Content());
    s' := LeaveOnce(w, s1, id);
    ReachesAppend(w, s, [FailWrite(id, [])], s1, [Leave(id)], s');
    assert [FailWrite(id, [])] + [Leave(id)] == Finish(w.sha, id, digest, body, placeable);
  }

  lemma SameTwice(w: World, s: Disk, s1: Disk, s2: Disk)
    requires SameBlobs(w, s, s1) && SameTree(s, s1) && SameBlobs(w, s1, s2) && SameTree(s1, s2)
    ensures SameBlobs(w, s, s2) && SameTree(s, s2)
  {
  }

  lemma Check(w: World, s: Disk, id: nat, digest: string, seen: Bytes) returns (s2: Disk)
    requires Good(w, s) && CopyingFor(s, id, digest, seen)
    ensures Reaches(w, s, [Close(id), Verify(id)], s2)
    ensures Good(w, s2) && SameBlobs(w, s, s2) && SameTree(s, s2)
    ensures s2.calls == s.calls[id := s.calls[id].(phase := if DigestOf(w.sha, seen) == digest then Verified else Leaving)]
  {
    var s1 := CloseOnce(w, s, id, digest, seen);
    s2 := VerifyOnce(w, s1, id);
    SameTwice(w, s, s1, s2);
    ReachesAppend(w, s, [Close(id)], s1, [Verify(id)], s2);
    assert [Close(id)] + [Verify(id)] == [Close(id), Verify(id)];
  }

  lemma RenameThenLeave(w: World, s: Disk, id: nat) returns (s': Disk)
    requires Good(w, s) && InPhase(s, id, Verified) && w.file(s.calls[id].digest) !in s.dirs
    ensures Reaches(w, s, [Rename(id)] + [Leave(id)], s') && Good(w, s') && s'.calls == s.calls - {id}
    ensures Publishes(w, s, s', s.calls[id].digest, s.calls[id].seen)
    ensures s'.names.Keys == s.names.Keys - {w.temp(s.calls[id].digest)} + {w.file(s.calls[id].digest)}
                             - {w.temp(s.calls[id].digest)}
    ensures s'.dirs == s.dirs
  {
    var s1 := RenameOnce(w, s, id);
    s' := LeaveOnce(w, s1, id);
    ReachesAppend(w, s, [Rename(id)], s1, [Leave(id)], s');
  }

  lemma FinishVerified(w: World, s: Disk, id: nat, digest: string, body: Body) returns (s': Disk)
    requires Good(w, s) && CopyingFor(s, id, digest, body.Content()) && Verifies(w.sha, digest, body)
    requires w.file(digest) !in s.dirs
    ensures Reaches(w, s, Finish(w.sha, id, digest, body, true), s')
    ensures Good(w, s') && Outcome(w, s, s', digest, body, true) && s'.calls == s.calls - {id}
  {
    var s2 := Check(w, s, id, digest, body.Content());
    s' := RenameThenLeave(w, s2, id);
    FileIsNoTemp(w, digest, body);
    OutcomeOfRename(w, s, s2, s', digest, body);
    assert s'.calls == s.calls - {id};
    ReachesAppend(w, s, [Close(id), Verify(id)], s2, [Rename(id)] + [Leave(id)], s');
    assert [Close(id), Verify(id)] + ([Rename(id)] + [Leave(id)]) == Finish(w.sha, id, digest, body, true);
  }

  lemma OutcomeOfRename(w: World, s: Disk, s2: Disk, s': Disk, digest: string, body: Body)
    requires Verifies(w.sha, digest, body) && w.temp(digest) != w.file(digest)
    requires SameBlobs(w, s, s2) && SameTree(s, s2) && Publishes(w, s2, s', digest, body.Content())
    requires s'.names.Keys == s2.names.Keys - {w.temp(digest)} + {w.file(digest)} - {w.temp(digest)} && s'.dirs == s2.dirs
    ensures Outcome(w, s, s', digest, body, true)
  {
  }

  lemma FileIsNoTemp(w: World, digest: string, body: Body)
    requires Separated(w) && PrintsHex(w.sha) && Verifies(w.sha, digest, body)
    ensures Paths.Accepted(digest) && w.temp(digest) != w.file(digest)
  {
    CalculatedIsAccepted(w, body.Content());
  }

  lemma FinishUnplaced(w: World, s: Disk, id: nat, digest: string, body: Body) returns (s': Disk)
    requires Good(w, s) && CopyingFor(s, id, digest, body.Content()) && Verifies(w.sha, digest, body)
    ensures Reaches(w, s, Finish(w.sha, id, digest, body, false), s')
    ensures Good(w, s') && Outcome(w, s, s', digest, body, false) && s'.calls == s.calls - {id}
  {
    var s2 := Check(w, s, id, digest, body.Content());
    var s3 := AbortOnce(w, s2, id);
    s' := LeaveOnce(w, s3, id);
    ReachesAppend(w, s2, [Abort(id)], s3, [Leave(id)], s');
    ReachesAppend(w, s, [Close(id), Verify(id)], s2, [Abort(id)] + [Leave(id)], s');
    assert [Close(id), Verify(id)] + ([Abort(id)] + [Leave(id)]) == Finish(w.sha, id, digest, body, false);
  }

  lemma FinishMismatch(w: World, s: Disk, id: nat, digest: string, body: Body, placeable: bool) returns (s': Disk)
    requires Good(w, s) && CopyingFor(s, id, digest, body.Content())
    requires body.complete && !Verifies(w.sha, digest, body)
    ensures Reaches(w, s, Finish(w.sha, id, digest, body, placeable), s')
    ensures Good(w, s') && Outcome(w, s, s', digest, body, placeable) && s'.calls == s.calls - {id}
  {
    var s2 := Check(w, s, id, digest, body.Content());
    s' := LeaveOnce(w, s2, id);
    ReachesAppend(w, s, [Close(id), Verify(id)], s2, [Leave(id)], s');
    assert [Close(id), Verify(id)] + [Leave(id)] == Finish(w.sha, id, digest, body, placeable);
  }

  lemma FinishAny(w: World, s: Disk, id: nat, digest: string, body: Body, placeable: bool) returns (s': Disk)
    requires Good(w, s) && CopyingFor(s, id, digest, body.Content()) && (placeable ==> w.file(digest) !in s.dirs)
    ensures Reaches(w, s, Finish(w.sha, id, digest, body, placeable), s')
    ensures Good(w, s') && Outcome(w, s, s', digest, body, placeable) && s'.calls == s.calls - {id}
  {
    if !body.complete {
      s' := FinishFailed(w, s, id, digest, body, placeable);
    } else if !Verifies(w.sha, digest, body) {
      s' := FinishMismatch(w, s, id, digest, body, placeable);
    } else if placeable {
      s' := FinishVerified(w, s, id, digest, body);
    } else {
      s' := FinishUnplaced(w, s, id, digest, body);
    }
  }

  /** A call after its temporary file is there. */
  lemma OpenedReaches(w: World, s: Disk, id: nat, digest: string, body: Body, placeable: bool) returns (s': Disk)
    requires Good(w, s) && id !in s.calls && MayOpen(w, {}, s, digest)
    requires w.above(digest) <= s.dirs && w.temp(digest) !in s.dirs && (placeable ==> w.file(digest) !in s.dirs)
    ensures Reaches(w, s, [Open(id, digest)] + Writes(id, body.pieces) + Finish(w.sha, id, digest, body, placeable), s')
    ensures Good(w, s') && Outcome(w, s, s', digest, body, placeable) && s'.calls == s.calls
  {
    var s2 := CopyReaches(w, s, id, digest, body);
    s' := FinishAny(w, s2, id, digest, body, placeable);
    ReachesAppend(w, s, [Open(id, digest)] + Writes(id, body.pieces), s2,
                  Finish(w.sha, id, digest, body, placeable), s');
    OutcomeSinceOpening(w, s, s2, s', digest, body, placeable);
    assert s'.calls == s2.calls - {id};
  }

  /** The first half of it. */
  lemma CopyReaches(w: World, s: Disk, id: nat, digest: string, body: Body) returns (s2: Disk)
    requires Good(w, s) && id !in s.calls && MayOpen(w, {}, s, digest)
    requires w.above(digest) <= s.dirs && w.temp(digest) !in s.dirs
    ensures Reaches(w, s, [Open(id, digest)] + Writes(id, body.pieces), s2)
    ensures Good(w, s2) && SameBlobs(w, s, s2) && OthersStay(s, s2, id) && CopyingFor(s2, id, digest, body.Content())
    ensures s2.names.Keys == s.names.Keys + {w.temp(digest)} && s2.dirs == s.dirs
  {
    var s1 := OpenOnce(w, s, id, digest);
    s2 := WriteAll(w, s1, id, digest, [], body.pieces);
    assert [] + body.Content() == body.Content();
    ReachesAppend(w, s, [Open(id, digest)], s1, Writes(id, body.pieces), s2);
  }

  lemma OutcomeSinceOpening(w: World, s: Disk, s2: Disk, s': Disk, digest: string, body: Body, placeable: bool)
    requires SameBlobs(w, s, s2) && s2.names.Keys == s.names.Keys + {w.temp(digest)} && s2.dirs == s.dirs
    requires Outcome(w, s2, s', digest, body, placeable)
    ensures Outcome(w, s, s', digest, body, placeable)
  {
  }

  /** What a call makes of the disk: the directories in any case, the blob if it verifies and has a place. */
  ghost predicate CallOutcome(w: World, s: Disk, s': Disk, digest: string, body: Body) {
    var published := Publishing(w, digest, body, Placeable(w, s, digest));
    && (if published then Publishes(w, s, s', digest, body.Content()) else SameBlobs(w, s, s'))
    && s'.dirs == (if Blocked(w, s, digest) then s.dirs else s.dirs + w.above(digest))
    && s'.names.Keys == (if Openable(w, s, digest) then s.names.Keys - {w.temp(digest)} else s.names.Keys)
                        + (if published then {w.file(digest)} else {})
  }

  lemma CallReaches(w: World, s: Disk, id: nat, digest: string, body: Body) returns (s': Disk)
    requires Good(w, s) && id !in s.calls && MayOpen(w, {}, s, digest)
    ensures Reaches(w, s, CallSteps(w, s, id, digest, body), s')
    ensures Good(w, s') && CallOutcome(w, s, s', digest, body) && s'.calls == s.calls
  {
    var s1 := MakeDirsOnce(w, s, digest);
    if Openable(w, s, digest) {
      var placeable := Placeable(w, s, digest);
      s' := OpenedReaches(w, s1, id, digest, body, placeable);
      var rest := [Open(id, digest)] + Writes(id, body.pieces) + Finish(w.sha, id, digest, body, placeable);
      ReachesAppend(w, s, [MakeDirs(digest)], s1, rest, s');
      assert [MakeDirs(digest)] + rest == CallSteps(w, s, id, digest, body);
    } else {
      s' := s1;
    }
  }

  /** A call does not go on where CallSteps ends it: it cannot create its file, or cannot rename it. */
  lemma NoMoreIsPossible(w: World, s: Disk, id: nat, digest: string)
    requires NamesAreNoDirs(s) && Rooted(w)
    ensures !Openable(w, s, digest) ==> !Enabled(w, Next(w, s, MakeDirs(digest)), Open(id, digest))
    ensures !Placeable(w, s, digest) ==>
              forall s2: Disk | s.dirs <= s2.dirs && InPhase(s2, id, Verified) && s2.calls[id].digest == digest ::
                Openable(w, s, digest) ==> !Enabled(w, s2, Rename(id))
  {
  }

  /** Every reader of an accepted digest finds what the map holds. */
  ghost predicate Holds(w: World, s: Disk, blobs: map<string, Bytes>) {
    forall d | Paths.Accepted(d) :: Lookup(w, s, d) == if d in blobs then Some(blobs[d]) else None
  }

  /** A call whose temporary file no other call has can be carried out from beginning to end, and then readers find
      what the single action PutBlob leaves, if the blob has a place: all of the content, or what was there before. */
  lemma CallIsPutBlob(w: World, s: Disk, id: nat, digest: string, body: Body, blobs: map<string, Bytes>)
    requires Good(w, s) && id !in s.calls && MayOpen(w, {}, s, digest) && Holds(w, s, blobs)
    ensures Run(w, s, CallSteps(w, s, id, digest, body))
    ensures var s' := Final(w, s, CallSteps(w, s, id, digest, body));
            var blobs' := if Placeable(w, s, digest) then PutBlob(w.sha, blobs, digest, body) else blobs;
            Good(w, s') && s'.calls == s.calls && Holds(w, s', blobs')
  {
    var s' := CallReaches(w, s, id, digest, body);
  }

  // ---------------------------------------------------------------- a store without other calls

  function LayoutOf(w: World): Placing.Layout {
    Placing.Layout(w.file, w.temp, w.above)
  }

  /** The disk is at rest and has exactly these blobs, under accepted digests, and these directories. */
  ghost predicate AtRest(w: World, s: Disk, f: Placing.Tree) {
    && s.calls == map[] && s.dirs == f.dirs && Holds(w, s, f.blobs)
    && (forall d | d in f.blobs :: Paths.Accepted(d))
    && NamesAreBlobs(w, s, f)
  }

  ghost predicate NamesAreBlobs(w: World, s: Disk, f: Placing.Tree) {
    forall p :: p in s.names <==> IsBlob(w, f, p)
  }

  ghost predicate IsBlob(w: World, f: Placing.Tree, p: Paths.Path) {
    exists d :: d in f.blobs && w.file(d) == p
  }

  /** One call after the other is what module Placing says of puts. */
  lemma CallIsPut(w: World, s: Disk, id: nat, digest: string, body: Body, f: Placing.Tree)
    requires Good(w, s) && AtRest(w, s, f)
    ensures Run(w, s, CallSteps(w, s, id, digest, body))
    ensures AtRest(w, Final(w, s, CallSteps(w, s, id, digest, body)), Placing.Put(w.sha, LayoutOf(w), f, digest, body))
  {
    var s' := CallReaches(w, s, id, digest, body);
    OutcomeIsPut(w, s, s', digest, body, f);
  }

  lemma OutcomeIsPut(w: World, s: Disk, s': Disk, digest: string, body: Body, f: Placing.Tree)
    requires Separated(w) && PrintsHex(w.sha)
    requires AtRest(w, s, f) && CallOutcome(w, s, s', digest, body) && s'.calls == s.calls
    ensures AtRest(w, s', Placing.Put(w.sha, LayoutOf(w), f, digest, body))
  {
    var f' := Placing.Put(w.sha, LayoutOf(w), f, digest, body);
    PutFollows(w, s, f, digest, body);
    HoldsPut(w, s, s', digest, body, f.blobs);
    NamesOfBlobs(w, s, s', f, f', digest, body);
  }

  /** The two ways of saying what a put leaves agree. */
  lemma PutFollows(w: World, s: Disk, f: Placing.Tree, digest: string, body: Body)
    requires Separated(w) && PrintsHex(w.sha) && AtRest(w, s, f)
    ensures var f' := Placing.Put(w.sha, LayoutOf(w), f, digest, body);
            && f'.blobs == (if Placeable(w, s, digest) then PutBlob(w.sha, f.blobs, digest, body) else f.blobs)
            && f'.blobs.Keys == f.blobs.Keys
                                + (if Publishing(w, digest, body, Placeable(w, s, digest)) then {digest} else {})
            && f'.dirs == (if Blocked(w, s, digest) then s.dirs else s.dirs + w.above(digest))
            && forall d | d in f'.blobs :: Paths.Accepted(d)
  {
    SamePlace(w, s, f, digest);
    if Verifies(w.sha, digest, body) {
      FileIsNoTemp(w, digest, body);
    }
  }

  lemma HoldsPut(w: World, s: Disk, s': Disk, digest: string, body: Body, blobs: map<string, Bytes>)
    requires Holds(w, s, blobs) && CallOutcome(w, s, s', digest, body)
    ensures Holds(w, s', if Placeable(w, s, digest) then PutBlob(w.sha, blobs, digest, body) else blobs)
  {
  }

  lemma SamePlace(w: World, s: Disk, f: Placing.Tree, digest: string)
    requires AtRest(w, s, f)
    ensures Blocked(w, s, digest) <==> Placing.Blocked(LayoutOf(w), f, digest)
    ensures Placeable(w, s, digest) <==> Placing.Placeable(LayoutOf(w), f, digest)
  {
  }

  lemma NamesOfBlobs(w: World, s: Disk, s': Disk, f: Placing.Tree, f': Placing.Tree, digest: string, body: Body)
    requires Separated(w) && AtRest(w, s, f) && CallOutcome(w, s, s', digest, body)
    requires f'.blobs.Keys == f.blobs.Keys
                              + if Publishing(w, digest, body, Placeable(w, s, digest)) then {digest} else {}
    ensures NamesAreBlobs(w, s', f')
  {
    forall d | d in f.blobs
      ensures w.temp(digest) != w.file(d)
    {
    }
    var published := Publishing(w, digest, body, Placeable(w, s, digest));
    forall p
      ensures p in s'.names <==> p in s.names || (published && p == w.file(digest))
    {
    }
    forall p
      ensures p in s'.names <==> IsBlob(w, f', p)
    {
      if p in s.names {
        var d :| d in f.blobs && w.file(d) == p;
        assert d in f'.blobs;
      } else if published && p == w.file(digest) {
        assert digest in f'.blobs;
      }
    }
  }

  /** Deleting an accepted digest is what module Placing says of deletions. */
  lemma DeletionIsDelete(w: World, s: Disk, digest: string, f: Placing.Tree)
    requires Separated(w) && AtRest(w, s, f) && Paths.Accepted(digest)
    ensures AtRest(w, Next(w, s, Delete(digest)), Placing.Delete(LayoutOf(w), f, digest).0)
  {
    var s', f' := Next(w, s, Delete(digest)), Placing.Delete(LayoutOf(w), f, digest).0;
    FileNamesItsBlob(w, s, digest, f);
    DeletionsAgree(w, s, digest, f);
    DeleteRemovesOne(w, s, Delete(digest));
    HoldsLess(w, s, s', digest, f.blobs);
    FewerNames(w, s, s', digest, f, f');
  }

  lemma DeletionsAgree(w: World, s: Disk, digest: string, f: Placing.Tree)
    requires AtRest(w, s, f) && Paths.Accepted(digest) && (w.file(digest) in s.names <==> digest in f.blobs)
    ensures var s', f' := Next(w, s, Delete(digest)), Placing.Delete(LayoutOf(w), f, digest).0;
            && s'.calls == map[] && s'.dirs == f'.dirs
            && s'.names.Keys == s.names.Keys - {w.file(digest)} && f'.blobs == f.blobs - {digest}
  {
    SameVacancy(w, s, w.file(digest), f);
    if digest !in f.blobs {
      assert f.blobs - {digest} == f.blobs;
    }
  }

  lemma HoldsLess(w: World, s: Disk, s': Disk, digest: string, blobs: map<string, Bytes>)
    requires Holds(w, s, blobs)
    requires forall d | Paths.Accepted(d) :: Lookup(w, s', d) == if d == digest then None else Lookup(w, s, d)
    ensures Holds(w, s', blobs - {digest})
  {
  }

  lemma FewerNames(w: World, s: Disk, s': Disk, digest: string, f: Placing.Tree, f': Placing.Tree)
    requires NamesAreBlobs(w, s, f) && forall d | d in f.blobs && d != digest :: w.file(d) != w.file(digest)
    requires s'.names.Keys == s.names.Keys - {w.file(digest)} && f'.blobs == f.blobs - {digest}
    ensures NamesAreBlobs(w, s', f')
  {
    forall p
      ensures p in s'.names <==> IsBlob(w, f', p)
    {
      if p in s'.names {
        assert IsBlob(w, f, p);
        var d :| d in f.blobs && w.file(d) == p;
        assert d in f'.blobs;
      }
      if IsBlob(w, f', p) {
        var d :| d in f'.blobs && w.file(d) == p;
        assert d in f.blobs && d != digest && IsBlob(w, f, p);
      }
    }
  }

  lemma FileNamesItsBlob(w: World, s: Disk, digest: string, f: Placing.Tree)
    requires Separated(w) && AtRest(w, s, f) && Paths.Accepted(digest)
    ensures w.file(digest) in s.names <==> digest in f.blobs
  {
    if digest in f.blobs {
      assert IsBlob(w, f, w.file(digest));
    }
  }

  lemma SameVacancy(w: World, s: Disk, dir: Paths.Path, f: Placing.Tree)
    requires AtRest(w, s, f)
    ensures Vacant(s, dir) <==> Placing.Vacant(LayoutOf(w), f, dir)
  {
    forall d | d in f.blobs
      ensures w.file(d) in s.names
    {
      assert IsBlob(w, f, w.file(d));
    }
  }
}
