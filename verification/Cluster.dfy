/** Several nodes that store, replicate, fetch, cache and delete (internal/storage/distributed/store.go,
    internal/p2p/transport/grpc.go, internal/api/handlers/manifests.go). Every node has a disk of module Publication, so
    uploads, replicas that arrive and blobs that are fetched interleave system call by system call; what a peer sends
    may be late, lost, doubled, cut or damaged, so the pieces that are written may be any. Manifests travel as messages,
    and the checks that a manifest's blobs exist are separate steps. These checks take anything at a blob's path for the
    blob, so whatever else a node has on its disk counts too: directories, manifests, uploads, temporary files. */
module Cluster {
  import opened Common
  import opened Paths
  import opened Existence
  import P = Publication
  import M = Manifests

  /** The parts of a manifest that matter here: the digests it refers to, and the digest the handler calculated, which
      is not serialised. An absent digest is empty. */
  datatype Manifest = Manifest(config: string, layers: seq<string>, digest: string)

  type Key = (string, string) // repository and reference

  /** others: the files and directories of manifests and uploads. */
  datatype Node = Node(disk: P.Disk, others: set<Path>, manifests: map<Key, Manifest>)

  datatype Message = ManifestMessage(to: string, key: Key, manifest: Manifest)

  /** A PUT of a manifest under way at a node: how many of its references were found so far. */
  datatype Push = Push(at: string, key: Key, manifest: Manifest, checked: nat)

  datatype State = State(nodes: map<string, Node>, net: set<Message>, pushes: map<nat, Push>)

  /** Where things are on the nodes' disks: blobs; a manifest, the file that is filled first, and the directories above
      it; uploads. Then which digests callers put, which keys and ids they use, and which references are claimed to
      resolve. */
  datatype Site = Site(world: P.World, manifest: Key -> Path, filled: Key -> Path, over: Key -> set<Path>,
                       upload: string -> Path,
                       may: string -> bool, mayKey: Key -> bool, mayId: string -> bool, trusted: string -> bool)

  function UploadPath(base: Path, id: string): Path {
    Join(base, ["uploads", id])
  }

  /** outside: what else there is on the nodes' machines. */
  function StoreSite(sha: Sha, base: Path, outside: set<Path>, may: string -> bool, mayKey: Key -> bool,
                     mayId: string -> bool, trusted: string -> bool): Site {
    Site(P.StoreWorld(sha, base, outside), key => M.ManifestPath(base, key), key => TempPath(M.ManifestPath(base, key)),
         key => Above(M.ManifestPath(base, key)), id => UploadPath(base, id), may, mayKey, mayId, trusted)
  }

  datatype Step =
    | OnDisk(at: string, step: P.Step)
    | StartUpload(at: string, upload: string)
    | EndUpload(at: string, upload: string)
    | FillManifest(at: string, key: Key) // a put of a manifest that gets no further than its temporary file
    | StartPush(id: nat, push: Push)
    | CheckBlob(id: nat, holder: string) // the node itself, or a peer that answers HasBlob
    | RejectPush(id: nat)
    | FinishPush(id: nat, targets: set<string>)
    | SendManifest(from: string, to: string, key: Key)
    | DeliverManifest(message: Message)
    | DeleteManifest(at: string, key: Key)
    | Lose(message: Message)

  /** verifyManifestBlobs looks at the config, then the layers, and skips what is empty. */
  function References(m: Manifest): seq<string> {
    NonEmpty([m.config] + m.layers)
  }

  function NonEmpty(digests: seq<string>): (r: seq<string>)
    ensures forall d :: d in r <==> d in digests && d != ""
  {
    if digests == [] then []
    else (if digests[0] == "" then [] else [digests[0]]) + NonEmpty(digests[1..])
  }

  /** What JSON keeps of a manifest. */
  function Serialised(m: Manifest): Manifest {
    m.(digest := "")
  }

  /** The filesystem store's PutManifest: a manifest put under a tag is stored under its digest too, when it has one. */
  function WithManifest(manifests: map<Key, Manifest>, key: Key, m: Manifest): map<Key, Manifest> {
    var stored := manifests[key := Serialised(m)];
    if !IsDigestReference(key.1) && m.digest != "" then stored[(key.0, m.digest) := Serialised(m)] else stored
  }

  /** The keys that storing a manifest uses. */
  function StoredKeys(key: Key, m: Manifest): set<Key> {
    {key} + if !IsDigestReference(key.1) && m.digest != "" then {(key.0, m.digest)} else {}
  }

  /** What is on the disk after a manifest was stored: its file, also under the digest, and their directories. */
  function OthersWith(l: Site, others: set<Path>, key: Key, m: Manifest): set<Path> {
    var keys := StoredKeys(key, m);
    (others - (set k | k in keys :: l.filled(k)))
    + (set k | k in keys :: l.manifest(k)) + (set k, p | k in keys && p in l.over(k) :: p)
  }

  /** BlobExists: whether there is anything at the path. */
  predicate SeemsToExist(l: Site, node: Node, digest: string) {
    var path := l.world.file(digest);
    path in node.disk.names || path in node.disk.dirs || path in node.others
  }

  predicate Enabled(l: Site, s: State, step: Step) {
    match step
    case OnDisk(at, call) => at in s.nodes && P.Enabled(l.world, s.nodes[at].disk, call)
    case StartUpload(at, _) => at in s.nodes
    case EndUpload(at, _) => at in s.nodes
    case FillManifest(at, _) => at in s.nodes
    case StartPush(id, push) => id !in s.pushes && push.at in s.nodes && push.checked == 0
    case CheckBlob(id, holder) =>
      && id in s.pushes && holder in s.nodes
      && s.pushes[id].checked < |References(s.pushes[id].manifest)|
      && SeemsToExist(l, s.nodes[holder], References(s.pushes[id].manifest)[s.pushes[id].checked])
    case RejectPush(id) => id in s.pushes
    case FinishPush(id, _) =>
      && id in s.pushes && s.pushes[id].at in s.nodes
      && s.pushes[id].checked == |References(s.pushes[id].manifest)|
    case SendManifest(from, to, key) => from in s.nodes && to in s.nodes && key in s.nodes[from].manifests
    case DeliverManifest(message) => message in s.net && message.to in s.nodes
    case DeleteManifest(at, _) => at in s.nodes
    case Lose(message) => message in s.net
  }

  function WithDisk(s: State, at: string, disk: P.Disk): State
    requires at in s.nodes
  {
    s.(nodes := s.nodes[at := s.nodes[at].(disk := disk)])
  }

  function WithOthers(s: State, at: string, others: set<Path>): State
    requires at in s.nodes
  {
    s.(nodes := s.nodes[at := s.nodes[at].(others := others)])
  }

  function WithManifests(s: State, at: string, manifests: map<Key, Manifest>, others: set<Path>): State
    requires at in s.nodes
  {
    s.(nodes := s.nodes[at := s.nodes[at].(manifests := manifests, others := others)])
  }

  /** A delivered message stays in the net: it may arrive again. */
  function Next(l: Site, s: State, step: Step): State
    requires Enabled(l, s, step)
  {
    match step
    case OnDisk(at, call) => WithDisk(s, at, P.Next(l.world, s.nodes[at].disk, call))
    case StartUpload(at, upload) => WithOthers(s, at, s.nodes[at].others + {l.upload(upload)})
    case EndUpload(at, upload) => WithOthers(s, at, s.nodes[at].others - {l.upload(upload)})
    case FillManifest(at, key) => WithOthers(s, at, s.nodes[at].others + l.over(key) + {l.filled(key)})
    case StartPush(id, push) => s.(pushes := s.pushes[id := push])
    case CheckBlob(id, _) => s.(pushes := s.pushes[id := s.pushes[id].(checked := s.pushes[id].checked + 1)])
    case RejectPush(id) => s.(pushes := s.pushes - {id})
    case FinishPush(id, targets) =>
      var p := s.pushes[id];
      WithManifests(s, p.at, WithManifest(s.nodes[p.at].manifests, p.key, p.manifest),
                    OthersWith(l, s.nodes[p.at].others, p.key, p.manifest))
      .(pushes := s.pushes - {id},
        net := s.net + set to | to in targets :: ManifestMessage(to, p.key, Serialised(p.manifest)))
    case SendManifest(from, to, key) =>
      s.(net := s.net + {ManifestMessage(to, key, s.nodes[from].manifests[key])})
    case DeliverManifest(message) =>
      WithManifests(s, message.to, WithManifest(s.nodes[message.to].manifests, message.key, message.manifest),
                    OthersWith(l, s.nodes[message.to].others, message.key, message.manifest))
    case DeleteManifest(at, key) =>
      WithManifests(s, at, s.nodes[at].manifests - {key}, s.nodes[at].others - {l.manifest(key)})
    case Lose(message) => s.(net := s.net - {message})
  }

  ghost predicate Run(l: Site, s: State, steps: seq<Step>)
    decreases |steps|
  {
    steps != [] ==> Enabled(l, s, steps[0]) && Run(l, Next(l, s, steps[0]), steps[1..])
  }

  ghost function Final(l: Site, s: State, steps: seq<Step>): State
    requires Run(l, s, steps)
    decreases |steps|
  {
    if steps == [] then s else Final(l, Next(l, s, steps[0]), steps[1..])
  }

  ghost predicate Initial(l: Site, s: State) {
    && s.net == {} && s.pushes == map[]
    && forall n | n in s.nodes :: s.nodes[n] == Node(P.Empty(l.world), {}, map[])
  }

  // ---------------------------------------------------------------- each node by itself

  /** What happens on one node's disk. */
  function Project(steps: seq<Step>, n: string): seq<P.Step>
    decreases |steps|
  {
    if steps == [] then []
    else (if steps[0].OnDisk? && steps[0].at == n then [steps[0].step] else []) + Project(steps[1..], n)
  }

  /** On every node, every call that overlaps another one with the same temporary file has its digest in the set. */
  ghost predicate OverlapsWithin(l: Site, overlaps: set<string>, s: State, steps: seq<Step>)
    requires Run(l, s, steps)
    decreases |steps|
  {
    steps != [] ==>
      && (steps[0].OnDisk? && steps[0].step.Open? ==>
            P.MayOpen(l.world, overlaps, s.nodes[steps[0].at].disk, steps[0].step.digest))
      && OverlapsWithin(l, overlaps, Next(l, s, steps[0]), steps[1..])
  }

  /** A run of the cluster is, at each node, a run of its disk. */
  lemma {:induction false} ProjectedRun(l: Site, s: State, steps: seq<Step>, n: string)
    requires Run(l, s, steps) && n in s.nodes
    ensures P.Run(l.world, s.nodes[n].disk, Project(steps, n))
    ensures n in Final(l, s, steps).nodes
    ensures Final(l, s, steps).nodes[n].disk == P.Final(l.world, s.nodes[n].disk, Project(steps, n))
    ensures forall overlaps | OverlapsWithin(l, overlaps, s, steps) ::
              P.OverlapsWithin(l.world, overlaps, s.nodes[n].disk, Project(steps, n))
    decreases |steps|
  {
    if steps != [] {
      var s1 := Next(l, s, steps[0]);
      ProjectedRun(l, s1, steps[1..], n);
      if steps[0].OnDisk? && steps[0].at == n {
        assert Project(steps, n)[1..] == Project(steps[1..], n);
      } else {
        assert Project(steps, n) == Project(steps[1..], n);
        assert s1.nodes[n].disk == s.nodes[n].disk;
      }
    }
  }

  function Lift(at: string, calls: seq<P.Step>): seq<Step> {
    if calls == [] then [] else [OnDisk(at, calls[0])] + Lift(at, calls[1..])
  }

  /** The state after some calls on one node. */
  ghost predicate OnlyDisk(s: State, s': State, at: string, disk: P.Disk) {
    && s'.net == s.net && s'.pushes == s.pushes && s'.nodes.Keys == s.nodes.Keys
    && at in s.nodes && s'.nodes[at] == s.nodes[at].(disk := disk)
    && forall n | n in s.nodes && n != at :: s'.nodes[n] == s.nodes[n]
  }

  /** A run of one node's disk is a run of the cluster. */
  lemma {:induction false} LiftedRun(l: Site, overlaps: set<string>, s: State, at: string, calls: seq<P.Step>)
    requires at in s.nodes && P.Run(l.world, s.nodes[at].disk, calls)
    requires P.OverlapsWithin(l.world, overlaps, s.nodes[at].disk, calls)
    ensures Run(l, s, Lift(at, calls)) && OverlapsWithin(l, overlaps, s, Lift(at, calls))
    ensures OnlyDisk(s, Final(l, s, Lift(at, calls)), at, P.Final(l.world, s.nodes[at].disk, calls))
    decreases |calls|
  {
    if calls != [] {
      var s1 := Next(l, s, OnDisk(at, calls[0]));
      LiftedRun(l, overlaps, s1, at, calls[1..]);
      assert Lift(at, calls)[1..] == Lift(at, calls[1..]);
    }
  }

  // ---------------------------------------------------------------- content addressing

  /** Whatever a reader of any node finds hashes to its digest. */
  ghost predicate ContentSafe(l: Site, s: State) {
    forall n | n in s.nodes :: P.Sound(l.world, s.nodes[n].disk)
  }

  lemma RunKeepsContentSafe(l: Site, overlaps: set<string>, s: State, steps: seq<Step>)
    requires P.Separated(l.world) && P.PrintsHex(l.world.sha) && P.Harmless(l.world, overlaps)
    requires forall n | n in s.nodes :: P.Inv(l.world, overlaps, s.nodes[n].disk)
    requires Run(l, s, steps) && OverlapsWithin(l, overlaps, s, steps)
    ensures ContentSafe(l, Final(l, s, steps))
  {
    NodesStay(l, s, steps);
    forall n | n in s.nodes
      ensures P.Sound(l.world, Final(l, s, steps).nodes[n].disk)
    {
      ProjectedRun(l, s, steps, n);
      P.RunsKeepInv(l.world, overlaps, s.nodes[n].disk, Project(steps, n));
    }
  }

  lemma {:induction false} NodesStay(l: Site, s: State, steps: seq<Step>)
    requires Run(l, s, steps)
    ensures Final(l, s, steps).nodes.Keys == s.nodes.Keys
    decreases |steps|
  {
    if steps != [] {
      NodesStay(l, Next(l, s, steps[0]), steps[1..]);
    }
  }

  ghost predicate SafeFor(l: Site, overlaps: set<string>, s: State) {
    forall steps | Run(l, s, steps) && OverlapsWithin(l, overlaps, s, steps) :: ContentSafe(l, Final(l, s, steps))
  }

  /** In a cluster of any size every run is content-addressed exactly when the digests that may be put on one node
      concurrently with themselves are digests that no content has; with no such overlap it is. */
  lemma ContentSafeExactlyWhenOverlapsAreHarmless(l: Site, overlaps: set<string>, s: State, at: string, a: Bytes, b: Bytes)
    requires P.Separated(l.world) && P.Rooted(l.world) && P.PrintsHex(l.world.sha)
    requires l.world.sha(a) != l.world.sha(b) && Initial(l, s) && at in s.nodes
    ensures (SafeFor(l, overlaps, s) <==> P.Harmless(l.world, overlaps)) && SafeFor(l, {}, s)
  {
    HarmlessIsSafe(l, {}, s);
    if P.Harmless(l.world, overlaps) {
      HarmlessIsSafe(l, overlaps, s);
    }
    if SafeFor(l, overlaps, s) {
      SafeClusterHasSafeNodes(l, overlaps, s, at);
      P.SafeIsHarmless(l.world, overlaps, a, b);
    }
  }

  lemma HarmlessIsSafe(l: Site, overlaps: set<string>, s: State)
    requires P.Separated(l.world) && P.PrintsHex(l.world.sha) && P.Harmless(l.world, overlaps) && Initial(l, s)
    ensures SafeFor(l, overlaps, s)
  {
    forall steps | Run(l, s, steps) && OverlapsWithin(l, overlaps, s, steps)
      ensures ContentSafe(l, Final(l, s, steps))
    {
      RunKeepsContentSafe(l, overlaps, s, steps);
    }
  }

  lemma SafeClusterHasSafeNodes(l: Site, overlaps: set<string>, s: State, at: string)
    requires SafeFor(l, overlaps, s) && Initial(l, s) && at in s.nodes
    ensures P.SafeFor(l.world, overlaps)
  {
    forall calls | P.Run(l.world, P.Empty(l.world), calls) && P.OverlapsWithin(l.world, overlaps, P.Empty(l.world), calls)
      ensures P.Sound(l.world, P.Final(l.world, P.Empty(l.world), calls))
    {
      LiftedRun(l, overlaps, s, at, calls);
      assert ContentSafe(l, Final(l, s, Lift(at, calls)));
    }
  }

  /** What a reader finds on a node. */
  function Found(l: Site, s: State, n: string, digest: string): Option<Bytes>
    requires n in s.nodes
  {
    P.Lookup(l.world, s.nodes[n].disk, digest)
  }

  /** In every run without harmful overlaps, whatever readers of two nodes find under a digest hashes to it; and it is
      the same, unless these two contents are a collision of the hash. */
  lemma HoldersAgree(l: Site, overlaps: set<string>, s: State, steps: seq<Step>, m: string, n: string, digest: string)
    requires P.Separated(l.world) && P.PrintsHex(l.world.sha) && P.Harmless(l.world, overlaps)
    requires Initial(l, s) && Run(l, s, steps) && OverlapsWithin(l, overlaps, s, steps)
    requires m in Final(l, s, steps).nodes && n in Final(l, s, steps).nodes && Accepted(digest)
    requires Found(l, Final(l, s, steps), m, digest).Some? && Found(l, Final(l, s, steps), n, digest).Some?
    ensures var s' := Final(l, s, steps);
            var a, b := Found(l, s', m, digest).value, Found(l, s', n, digest).value;
            && DigestOf(l.world.sha, a) == digest && DigestOf(l.world.sha, b) == digest
            && (CollisionFree(l.world.sha, {a, b}) ==> a == b)
  {
    RunKeepsContentSafe(l, overlaps, s, steps);
    var s' := Final(l, s, steps);
    var a, b := Found(l, s', m, digest).value, Found(l, s', n, digest).value;
    assert l.world.sha(a) == DigestOf(l.world.sha, a)[7..] && l.world.sha(b) == DigestOf(l.world.sha, b)[7..];
  }

  // ---------------------------------------------------------------- referential integrity

  ghost predicate Held(l: Site, s: State, digest: string) {
    exists n :: n in s.nodes && Found(l, s, n, digest).Some?
  }

  predicate Refers(l: Site, m: Manifest, digest: string) {
    digest in References(m) && l.trusted(digest)
  }

  ghost predicate Resolved(l: Site, s: State, m: Manifest) {
    forall d | Refers(l, m, d) :: Held(l, s, d)
  }

  /** Whatever a stored manifest refers to, as far as it is trusted, is held somewhere. */
  ghost predicate Integrity(l: Site, s: State) {
    forall n, key | n in s.nodes && key in s.nodes[n].manifests :: Resolved(l, s, s.nodes[n].manifests[key])
  }

  ghost predicate TravellersResolve(l: Site, s: State) {
    forall m | m in s.net :: Resolved(l, s, m.manifest)
  }

  /** The references of a push that were found so far. */
  predicate Checked(p: Push, digest: string) {
    p.checked <= |References(p.manifest)| && digest in References(p.manifest)[..p.checked]
  }

  ghost predicate PushHolds(l: Site, s: State, p: Push) {
    p.checked <= |References(p.manifest)| && forall d | Checked(p, d) && l.trusted(d) :: Held(l, s, d)
  }

  ghost predicate ChecksHold(l: Site, s: State) {
    forall id | id in s.pushes :: PushHolds(l, s, s.pushes[id])
  }

  /** Trusted references have a path where nothing is from the beginning, and where no put of a blob or manifest and no
      upload leaves anything. */
  ghost predicate Guarded(l: Site) {
    && (forall r | l.trusted(r) :: l.world.file(r) !in l.world.fixed)
    && (forall r, d | l.trusted(r) && l.may(d) :: l.world.file(r) !in l.world.above(d) && l.world.temp(d) != l.world.file(r))
    && (forall r, k | l.trusted(r) && l.mayKey(k) ::
          l.world.file(r) !in l.over(k) && l.manifest(k) != l.world.file(r) && l.filled(k) != l.world.file(r))
    && (forall r, id | l.trusted(r) && l.mayId(id) :: l.upload(id) != l.world.file(r))
  }

  ghost predicate NodeOk(l: Site, node: Node) {
    && P.NamesExist(node.disk)
    && (forall id | id in node.disk.calls :: l.may(node.disk.calls[id].digest))
    && (forall r | l.trusted(r) :: l.world.file(r) !in node.disk.dirs && l.world.file(r) !in node.others)
  }

  ghost predicate NodesOk(l: Site, s: State) {
    forall n | n in s.nodes :: NodeOk(l, s.nodes[n])
  }

  /** Integrity of what is stored, of what travels, and of the part of each push that was checked. */
  ghost predicate IntegrityInv(l: Site, s: State) {
    Integrity(l, s) && TravellersResolve(l, s) && ChecksHold(l, s)
  }

  lemma DiskStepKeepsNames(w: P.World, disk: P.Disk, call: P.Step)
    requires P.Enabled(w, disk, call) && P.NamesExist(disk)
    ensures P.NamesExist(P.Next(w, disk, call))
  {
  }

  /** Only a deletion takes a file from its readers that is nobody's temporary file, overlapping writers or not. */
  lemma DiskStepKeepsBlobs(w: P.World, disk: P.Disk, call: P.Step, digest: string)
    requires P.Enabled(w, disk, call) && P.NamesExist(disk) && P.Lookup(w, disk, digest).Some?
    requires forall id | id in disk.calls :: w.temp(disk.calls[id].digest) != w.file(digest)
    requires call.Delete? ==> w.file(call.victim) != w.file(digest)
    ensures P.Lookup(w, P.Next(w, disk, call), digest).Some?
  {
    DiskStepKeepsNames(w, disk, call);
  }

  /** The step names what callers may put or use. */
  predicate Named(l: Site, s: State, step: Step)
    requires Enabled(l, s, step)
  {
    match step
    case OnDisk(_, call) => (call.MakeDirs? || call.Open?) ==> l.may(call.digest)
    case StartUpload(_, upload) => l.mayId(upload)
    case FillManifest(_, key) => l.mayKey(key)
    case FinishPush(id, _) => forall k | k in StoredKeys(s.pushes[id].key, s.pushes[id].manifest) :: l.mayKey(k)
    case DeliverManifest(message) => forall k | k in StoredKeys(message.key, message.manifest) :: l.mayKey(k)
    case _ => true
  }

  lemma DiskStepKeepsDirs(w: P.World, disk: P.Disk, call: P.Step, path: Path)
    requires P.Enabled(w, disk, call) && path !in disk.dirs
    requires call.MakeDirs? ==> path !in w.above(call.digest)
    ensures path !in P.Next(w, disk, call).dirs
  {
  }

  lemma DiskKeepsNodeOk(l: Site, node: Node, call: P.Step)
    requires P.Enabled(l.world, node.disk, call) && Guarded(l) && NodeOk(l, node)
    requires (call.MakeDirs? || call.Open?) ==> l.may(call.digest)
    ensures NodeOk(l, node.(disk := P.Next(l.world, node.disk, call)))
  {
    DiskStepKeepsNames(l.world, node.disk, call);
    forall r | l.trusted(r)
      ensures l.world.file(r) !in P.Next(l.world, node.disk, call).dirs
    {
      DiskStepKeepsDirs(l.world, node.disk, call, l.world.file(r));
    }
  }

  lemma StoringKeepsOthers(l: Site, others: set<Path>, key: Key, m: Manifest)
    requires Guarded(l) && forall k | k in StoredKeys(key, m) :: l.mayKey(k)
    ensures forall r | l.trusted(r) && l.world.file(r) in OthersWith(l, others, key, m) :: l.world.file(r) in others
  {
  }

  lemma StoringKeepsNodesOk(l: Site, s: State, step: Step)
    requires Enabled(l, s, step) && Guarded(l) && NodesOk(l, s) && Named(l, s, step)
    requires step.FinishPush? || step.DeliverManifest?
    ensures NodesOk(l, Next(l, s, step))
  {
    if step.FinishPush? {
      var p := s.pushes[step.id];
      StoringKeepsOthers(l, s.nodes[p.at].others, p.key, p.manifest);
    } else {
      var m := step.message;
      StoringKeepsOthers(l, s.nodes[m.to].others, m.key, m.manifest);
    }
  }

  lemma StepKeepsNodesOk(l: Site, s: State, step: Step)
    requires Enabled(l, s, step) && Guarded(l) && NodesOk(l, s) && Named(l, s, step)
    ensures NodesOk(l, Next(l, s, step))
  {
    if step.OnDisk? {
      DiskKeepsNodeOk(l, s.nodes[step.at], step.step);
    } else if step.FinishPush? || step.DeliverManifest? {
      StoringKeepsNodesOk(l, s, step);
    }
  }

  /** No stored manifest needs the digest, none that travels, and no push that has found it already. */
  ghost predicate Unneeded(l: Site, s: State, digest: string) {
    && (forall n, key | n in s.nodes && key in s.nodes[n].manifests :: !Refers(l, s.nodes[n].manifests[key], digest))
    && (forall m | m in s.net :: !Refers(l, m.manifest, digest))
    && (forall id | id in s.pushes :: !(Checked(s.pushes[id], digest) && l.trusted(digest)))
  }

  ghost predicate HeldBesides(l: Site, s: State, at: string, digest: string) {
    exists n :: n in s.nodes && n != at && Found(l, s, n, digest).Some?
  }

  /** Every trusted reference to the victim's file is held by some other node, or needed by nothing. Among accepted
      digests only the victim itself leads to its file. */
  ghost predicate MayDelete(l: Site, s: State, at: string, victim: string) {
    forall r | l.trusted(r) && l.world.file(r) == l.world.file(victim) ::
      HeldBesides(l, s, at, r) || Unneeded(l, s, r)
  }

  /** What is held stays held, unless it is deleted. */
  lemma StepKeepsHeld(l: Site, s: State, step: Step, digest: string)
    requires Enabled(l, s, step) && Guarded(l) && NodesOk(l, s) && l.trusted(digest) && Held(l, s, digest)
    requires !(step.OnDisk? && step.step.Delete?)
    ensures Held(l, Next(l, s, step), digest)
  {
    var s' := Next(l, s, step);
    var n :| n in s.nodes && Found(l, s, n, digest).Some?;
    if step.OnDisk? && step.at == n {
      assert NodeOk(l, s.nodes[n]);
      DiskStepKeepsBlobs(l.world, s.nodes[n].disk, step.step, digest);
    }
    assert n in s'.nodes && Found(l, s', n, digest).Some?;
  }

  ghost predicate NothingIsForgotten(l: Site, s: State, s': State) {
    forall d | l.trusted(d) && Held(l, s, d) :: Held(l, s', d)
  }

  lemma StepForgetsNothing(l: Site, s: State, step: Step)
    requires Enabled(l, s, step) && Guarded(l) && NodesOk(l, s) && !(step.OnDisk? && step.step.Delete?)
    ensures NothingIsForgotten(l, s, Next(l, s, step))
  {
    forall d | l.trusted(d) && Held(l, s, d)
      ensures Held(l, Next(l, s, step), d)
    {
      StepKeepsHeld(l, s, step, d);
    }
  }

  lemma ReferencesSurviveSerialising(m: Manifest)
    ensures References(Serialised(m)) == References(m)
  {
  }

  lemma SerialisedResolves(l: Site, s: State, m: Manifest)
    requires Resolved(l, s, m)
    ensures Resolved(l, s, Serialised(m))
  {
    ReferencesSurviveSerialising(m);
    forall d | Refers(l, Serialised(m), d)
      ensures Held(l, s, d)
    {
      assert Refers(l, m, d);
    }
  }

  /** A trusted reference that seems to exist is held. */
  lemma SeemingIsHolding(l: Site, s: State, holder: string, digest: string)
    requires NodesOk(l, s) && l.trusted(digest) && holder in s.nodes && SeemsToExist(l, s.nodes[holder], digest)
    ensures Held(l, s, digest)
  {
    assert NodeOk(l, s.nodes[holder]);
    assert Found(l, s, holder, digest).Some?;
  }

  /** A push that is finished was checked to the end. */
  lemma FinishedResolves(l: Site, s: State, p: Push)
    requires PushHolds(l, s, p) && p.checked == |References(p.manifest)|
    ensures Resolved(l, s, p.manifest) && Resolved(l, s, Serialised(p.manifest))
  {
    assert References(p.manifest)[..p.checked] == References(p.manifest);
    forall d | Refers(l, p.manifest, d)
      ensures Held(l, s, d)
    {
      assert Checked(p, d);
    }
    SerialisedResolves(l, s, p.manifest);
  }

  ghost predicate Moves(l: Site, s: State, step: Step) {
    && Enabled(l, s, step) && Guarded(l) && NodesOk(l, s) && IntegrityInv(l, s)
    && !(step.OnDisk? && step.step.Delete?)
  }

  /** What resolves goes on resolving. */
  lemma ResolvedStays(l: Site, s: State, s': State, m: Manifest)
    requires Resolved(l, s, m) && NothingIsForgotten(l, s, s')
    ensures Resolved(l, s', m)
  {
  }

  lemma FinishStoresResolved(l: Site, s: State, step: Step, n: string, key: Key)
    requires Moves(l, s, step) && step.FinishPush? && n in s.nodes && key in Next(l, s, step).nodes[n].manifests
    ensures Resolved(l, s, Next(l, s, step).nodes[n].manifests[key])
  {
    FinishedResolves(l, s, s.pushes[step.id]);
  }

  lemma DeliveryStoresResolved(l: Site, s: State, step: Step, n: string, key: Key)
    requires Moves(l, s, step) && step.DeliverManifest? && n in s.nodes && key in Next(l, s, step).nodes[n].manifests
    ensures Resolved(l, s, Next(l, s, step).nodes[n].manifests[key])
  {
    SerialisedResolves(l, s, step.message.manifest);
  }

  /** Every manifest that a step stores was stored, was travelling, or belonged to a push that is finished. */
  lemma StoredManifestsResolved(l: Site, s: State, step: Step, n: string, key: Key)
    requires Moves(l, s, step) && n in s.nodes && key in Next(l, s, step).nodes[n].manifests
    ensures Resolved(l, s, Next(l, s, step).nodes[n].manifests[key])
  {
    if step.FinishPush? {
      FinishStoresResolved(l, s, step, n, key);
    } else if step.DeliverManifest? {
      DeliveryStoresResolved(l, s, step, n, key);
    }
  }

  ghost predicate StoredResolve(l: Site, s: State, s': State) {
    forall n, key | n in s'.nodes && key in s'.nodes[n].manifests :: Resolved(l, s, s'.nodes[n].manifests[key])
  }

  lemma NewStoresResolve(l: Site, s: State, step: Step)
    requires Moves(l, s, step)
    ensures StoredResolve(l, s, Next(l, s, step))
  {
    var s' := Next(l, s, step);
    forall n, key | n in s'.nodes && key in s'.nodes[n].manifests
      ensures Resolved(l, s, s'.nodes[n].manifests[key])
    {
      StoredManifestsResolved(l, s, step, n, key);
    }
  }

  lemma StoredStayResolved(l: Site, s: State, s': State)
    requires StoredResolve(l, s, s') && NothingIsForgotten(l, s, s')
    ensures Integrity(l, s')
  {
    forall n, key | n in s'.nodes && key in s'.nodes[n].manifests
      ensures Resolved(l, s', s'.nodes[n].manifests[key])
    {
      ResolvedStays(l, s, s', s'.nodes[n].manifests[key]);
    }
  }

  lemma StepKeepsStored(l: Site, s: State, step: Step)
    requires Moves(l, s, step)
    ensures Integrity(l, Next(l, s, step))
  {
    StepForgetsNothing(l, s, step);
    NewStoresResolve(l, s, step);
    StoredStayResolved(l, s, Next(l, s, step));
  }

  lemma StepKeepsTravellers(l: Site, s: State, step: Step)
    requires Moves(l, s, step)
    ensures TravellersResolve(l, Next(l, s, step))
  {
    var s' := Next(l, s, step);
    StepForgetsNothing(l, s, step);
    if step.FinishPush? {
      FinishedResolves(l, s, s.pushes[step.id]);
    }
    forall m | m in s'.net
      ensures Resolved(l, s', m.manifest)
    {
      assert Resolved(l, s, m.manifest);
      ResolvedStays(l, s, s', m.manifest);
    }
  }

  /** One more reference of a push was found. */
  lemma CheckedHeld(l: Site, s: State, p: Push, holder: string)
    requires NodesOk(l, s) && PushHolds(l, s, p) && p.checked < |References(p.manifest)|
    requires holder in s.nodes && SeemsToExist(l, s.nodes[holder], References(p.manifest)[p.checked])
    ensures PushHolds(l, s, p.(checked := p.checked + 1))
  {
    var p' := p.(checked := p.checked + 1);
    forall d | Checked(p', d) && l.trusted(d)
      ensures Held(l, s, d)
    {
      if !Checked(p, d) {
        SeemingIsHolding(l, s, holder, d);
      }
    }
  }

  lemma PushesHeld(l: Site, s: State, step: Step, id: nat)
    requires Moves(l, s, step) && id in Next(l, s, step).pushes
    ensures PushHolds(l, s, Next(l, s, step).pushes[id])
  {
    if step.CheckBlob? && step.id == id {
      CheckedHeld(l, s, s.pushes[id], step.holder);
    }
  }

  lemma StepKeepsChecks(l: Site, s: State, step: Step)
    requires Moves(l, s, step)
    ensures ChecksHold(l, Next(l, s, step))
  {
    var s' := Next(l, s, step);
    StepForgetsNothing(l, s, step);
    forall id | id in s'.pushes
      ensures PushHolds(l, s', s'.pushes[id])
    {
      PushesHeld(l, s, step, id);
    }
  }

  lemma StepKeepsIntegrity(l: Site, s: State, step: Step)
    requires Moves(l, s, step)
    ensures IntegrityInv(l, Next(l, s, step))
  {
    StepKeepsStored(l, s, step);
    StepKeepsTravellers(l, s, step);
    StepKeepsChecks(l, s, step);
  }

  lemma LookupAfterDeletion(w: P.World, disk: P.Disk, victim: string, digest: string)
    requires P.NamesExist(disk) && Accepted(victim)
    ensures P.Lookup(w, P.Next(w, disk, P.Delete(victim)), digest) ==
            if w.file(digest) == w.file(victim) then None else P.Lookup(w, disk, digest)
  {
  }

  lemma HeldAfterDeletion(l: Site, s: State, at: string, victim: string, digest: string)
    requires NodesOk(l, s) && Enabled(l, s, OnDisk(at, P.Delete(victim)))
    ensures Held(l, Next(l, s, OnDisk(at, P.Delete(victim))), digest) <==>
            || (l.world.file(digest) != l.world.file(victim) && Found(l, s, at, digest).Some?)
            || HeldBesides(l, s, at, digest)
  {
    var s' := Next(l, s, OnDisk(at, P.Delete(victim)));
    LookupAfterDeletion(l.world, s.nodes[at].disk, victim, digest);
    assert forall n | n in s.nodes && n != at :: Found(l, s', n, digest) == Found(l, s, n, digest);
    if n :| n in s.nodes && n != at && Found(l, s, n, digest).Some? {
      assert Found(l, s', n, digest).Some?;
    } else if Found(l, s', at, digest).Some? {
      assert Held(l, s', digest);
    }
  }

  /** What a deletion of a blob does to what is held. */
  lemma DeletionForgetsOneFile(l: Site, s: State, at: string, victim: string)
    requires NodesOk(l, s) && Enabled(l, s, OnDisk(at, P.Delete(victim)))
    ensures var s' := Next(l, s, OnDisk(at, P.Delete(victim)));
            && (forall d | l.world.file(d) != l.world.file(victim) :: Held(l, s', d) <==> Held(l, s, d))
            && (forall d | l.world.file(d) == l.world.file(victim) :: Held(l, s', d) <==> HeldBesides(l, s, at, d))
            && s'.net == s.net && s'.pushes == s.pushes && s'.nodes.Keys == s.nodes.Keys
            && forall n | n in s.nodes :: s'.nodes[n].manifests == s.nodes[n].manifests
  {
    var s' := Next(l, s, OnDisk(at, P.Delete(victim)));
    forall d
      ensures Held(l, s', d) <==>
              if l.world.file(d) == l.world.file(victim) then HeldBesides(l, s, at, d) else Held(l, s, d)
    {
      HeldAfterDeletion(l, s, at, victim, d);
      HeldHereOrBesides(l, s, at, d);
    }
  }

  lemma HeldHereOrBesides(l: Site, s: State, at: string, digest: string)
    requires at in s.nodes
    ensures Held(l, s, digest) <==> Found(l, s, at, digest).Some? || HeldBesides(l, s, at, digest)
  {
  }

  /** A deletion keeps integrity, now and for what is still under way, exactly when another node holds the blob or
      nothing needs it: no stored manifest, none that travels, and no push that has found it. */
  lemma DeletionKeepsIntegrityExactlyWhen(l: Site, s: State, at: string, digest: string)
    requires Guarded(l) && NodesOk(l, s) && IntegrityInv(l, s) && Enabled(l, s, OnDisk(at, P.Delete(digest)))
    ensures IntegrityInv(l, Next(l, s, OnDisk(at, P.Delete(digest)))) <==> MayDelete(l, s, at, digest)
  {
    if MayDelete(l, s, at, digest) {
      GuardedDeletionKeeps(l, s, at, digest);
    } else {
      UnguardedDeletionBreaks(l, s, at, digest);
    }
  }

  lemma GuardedDeletionKeeps(l: Site, s: State, at: string, digest: string)
    requires Guarded(l) && NodesOk(l, s) && IntegrityInv(l, s) && Enabled(l, s, OnDisk(at, P.Delete(digest)))
    requires MayDelete(l, s, at, digest)
    ensures IntegrityInv(l, Next(l, s, OnDisk(at, P.Delete(digest))))
  {
    DeletionForgetsOneFile(l, s, at, digest);
    var s' := Next(l, s, OnDisk(at, P.Delete(digest)));
    forall d | l.trusted(d) && Held(l, s, d) && !Unneeded(l, s, d)
      ensures Held(l, s', d)
    {
    }
    forall n, key | n in s'.nodes && key in s'.nodes[n].manifests
      ensures Resolved(l, s', s'.nodes[n].manifests[key])
    {
      assert Resolved(l, s, s.nodes[n].manifests[key]);
    }
    forall m | m in s'.net
      ensures Resolved(l, s', m.manifest)
    {
      assert Resolved(l, s, m.manifest);
    }
    forall id | id in s'.pushes
      ensures PushHolds(l, s', s'.pushes[id])
    {
      assert PushHolds(l, s, s.pushes[id]);
    }
  }

  lemma UnguardedDeletionBreaks(l: Site, s: State, at: string, digest: string)
    requires NodesOk(l, s) && Enabled(l, s, OnDisk(at, P.Delete(digest)))
    requires !MayDelete(l, s, at, digest)
    ensures !IntegrityInv(l, Next(l, s, OnDisk(at, P.Delete(digest))))
  {
    DeletionForgetsOneFile(l, s, at, digest);
    var s' := Next(l, s, OnDisk(at, P.Delete(digest)));
    var r :| l.trusted(r) && l.world.file(r) == l.world.file(digest) && !HeldBesides(l, s, at, r) && !Unneeded(l, s, r);
    if n, key :| n in s.nodes && key in s.nodes[n].manifests && Refers(l, s.nodes[n].manifests[key], r) {
      assert !Resolved(l, s', s'.nodes[n].manifests[key]);
    } else if m :| m in s.net && Refers(l, m.manifest, r) {
      assert !Resolved(l, s', m.manifest);
    } else {
      var id :| id in s.pushes && Checked(s.pushes[id], r) && l.trusted(r);
      assert !PushHolds(l, s', s'.pushes[id]);
    }
  }

  /** Every step names what callers may put or use, and every deletion meets its guard at its moment. */
  ghost predicate Careful(l: Site, s: State, steps: seq<Step>)
    requires Run(l, s, steps)
    decreases |steps|
  {
    steps != [] ==>
      && Named(l, s, steps[0])
      && (steps[0].OnDisk? && steps[0].step.Delete? ==> MayDelete(l, s, steps[0].at, steps[0].step.victim))
      && Careful(l, Next(l, s, steps[0]), steps[1..])
  }

  lemma {:induction false} RunKeepsIntegrity(l: Site, s: State, steps: seq<Step>)
    requires Guarded(l) && NodesOk(l, s) && IntegrityInv(l, s) && Run(l, s, steps) && Careful(l, s, steps)
    ensures NodesOk(l, Final(l, s, steps)) && IntegrityInv(l, Final(l, s, steps))
    decreases |steps|
  {
    if steps != [] {
      var step := steps[0];
      StepKeepsNodesOk(l, s, step);
      if step.OnDisk? && step.step.Delete? {
        GuardedDeletionKeeps(l, s, step.at, step.step.victim);
      } else {
        StepKeepsIntegrity(l, s, step);
      }
      RunKeepsIntegrity(l, Next(l, s, step), steps[1..]);
    }
  }

  lemma InitiallyIntact(l: Site, s: State)
    requires Guarded(l) && Initial(l, s)
    ensures NodesOk(l, s) && IntegrityInv(l, s)
  {
  }

  /** In every careful run, every trusted digest that is the config or a layer of a manifest on any node has a reader who
      finds it: pushed, replicated and cached manifests alike, although each reference was checked at another moment,
      and although the check cannot tell a blob from a directory. */
  lemma EveryReferenceResolves(l: Site, s: State, steps: seq<Step>)
    requires Guarded(l) && Initial(l, s) && Run(l, s, steps) && Careful(l, s, steps)
    ensures var s' := Final(l, s, steps);
            && Integrity(l, s')
            && forall n, key, d | n in s'.nodes && key in s'.nodes[n].manifests && l.trusted(d) && d != "" ::
                 var m := s'.nodes[n].manifests[key];
                 d == m.config || d in m.layers ==>
                   exists holder :: holder in s'.nodes && P.Lookup(l.world, s'.nodes[holder].disk, d).Some?
  {
    InitiallyIntact(l, s);
    RunKeepsIntegrity(l, s, steps);
    var s' := Final(l, s, steps);
    forall n, key, d | n in s'.nodes && key in s'.nodes[n].manifests && l.trusted(d) && d != ""
      ensures var m := s'.nodes[n].manifests[key];
              d == m.config || d in m.layers ==>
                exists holder :: holder in s'.nodes && P.Lookup(l.world, s'.nodes[holder].disk, d).Some?
    {
      var m := s'.nodes[n].manifests[key];
      assert Resolved(l, s', m);
      if d == m.config || d in m.layers {
        assert Refers(l, m, d);
        var holder :| holder in s'.nodes && Found(l, s', holder, d).Some?;
      }
    }
  }

  // ---------------------------------------------------------------- what a push checks and stores

  /** In no state of the run is there anything at the digest's path, on any node. */
  ghost predicate NowhereThroughout(l: Site, s: State, steps: seq<Step>, digest: string)
    requires Run(l, s, steps)
    decreases |steps|
  {
    && (forall n | n in s.nodes ::
          var path := l.world.file(digest);
          path !in s.nodes[n].disk.names && path !in s.nodes[n].disk.dirs && path !in s.nodes[n].others)
    && (steps != [] ==> NowhereThroughout(l, Next(l, s, steps[0]), steps[1..], digest))
  }

  /** A push that has not got past one of its references. */
  ghost predicate Stuck(s: State, id: nat, k: nat, m: Manifest, digest: string) {
    && id in s.pushes && s.pushes[id].manifest == m && s.pushes[id].checked <= k < |References(m)|
    && References(m)[k] == digest
  }

  lemma {:induction false} StuckPushNeverFinishes(l: Site, s: State, steps: seq<Step>, id: nat, k: nat, m: Manifest,
                                                  digest: string, j: nat)
    requires Run(l, s, steps) && NowhereThroughout(l, s, steps, digest) && Stuck(s, id, k, m, digest)
    requires j < |steps| && steps[j].FinishPush? && steps[j].id == id
    ensures exists i :: 0 <= i < j && steps[i] == RejectPush(id)
    decreases |steps|
  {
    var step := steps[0];
    if step == RejectPush(id) {
      if j == 0 {
        assert false;
      }
    } else {
      assert Stuck(Next(l, s, step), id, k, m, digest);
      if j > 0 {
        StuckPushNeverFinishes(l, Next(l, s, step), steps[1..], id, k, m, digest, j - 1);
        var i :| 0 <= i < j - 1 && steps[1..][i] == RejectPush(id);
        assert steps[i + 1] == RejectPush(id);
      }
    }
  }

  lemma EveryDigestIsAReference(m: Manifest, digest: string) returns (k: nat)
    requires digest != "" && (digest == m.config || digest in m.layers)
    ensures k < |References(m)| && References(m)[k] == digest
  {
    assert digest in References(m);
    k :| 0 <= k < |References(m)| && References(m)[k] == digest;
  }

  /** A push whose config or some layer is nowhere to be found while it is under way never finishes: it is rejected
      first. */
  lemma UnfoundPushNeverFinishes(l: Site, s: State, steps: seq<Step>, id: nat, push: Push, digest: string, j: nat)
    requires Run(l, s, [StartPush(id, push)] + steps) && digest != ""
    requires digest == push.manifest.config || digest in push.manifest.layers
    requires Run(l, Next(l, s, StartPush(id, push)), steps)
             && NowhereThroughout(l, Next(l, s, StartPush(id, push)), steps, digest)
    requires j < |steps| && steps[j].FinishPush? && steps[j].id == id
    ensures exists i :: 0 <= i < j && steps[i] == RejectPush(id)
  {
    assert ([StartPush(id, push)] + steps)[0] == StartPush(id, push);
    var k := EveryDigestIsAReference(push.manifest, digest);
    StuckPushNeverFinishes(l, Next(l, s, StartPush(id, push)), steps, id, k, push.manifest, digest, j);
  }

  // ---------------------------------------------------------------- pushes that can finish

  /** Something is at the digest's path on some node. */
  ghost predicate SeemsSomewhere(l: Site, s: State, digest: string) {
    exists holder :: holder in s.nodes && SeemsToExist(l, s.nodes[holder], digest)
  }

  ghost predicate StoredAndSent(s: State, push: Push, targets: set<string>) {
    var serialised := Manifest(push.manifest.config, push.manifest.layers, "");
    && push.at in s.nodes && push.key in s.nodes[push.at].manifests
    && s.nodes[push.at].manifests[push.key] == serialised
    && forall to | to in targets :: ManifestMessage(to, push.key, serialised) in s.net
  }

  lemma {:induction false} CheckedPushCanFinish(l: Site, s: State, id: nat, push: Push, targets: set<string>)
    returns (steps: seq<Step>)
    requires id in s.pushes && s.pushes[id] == push && push.at in s.nodes && push.checked <= |References(push.manifest)|
    requires forall d | d in References(push.manifest) :: SeemsSomewhere(l, s, d)
    ensures Run(l, s, steps) && steps != [] && steps[|steps| - 1] == FinishPush(id, targets)
    ensures StoredAndSent(Final(l, s, steps), push, targets)
    decreases |References(push.manifest)| - push.checked
  {
    var refs := References(push.manifest);
    if push.checked == |refs| {
      steps := [FinishPush(id, targets)];
      var s' := FinishedPushIsStored(l, s, id, targets);
      assert Run(l, s', []) && steps[1..] == [];
      OneMoreStep(l, s, steps[0], []);
    } else {
      assert refs[push.checked] in refs;
      var holder :| holder in s.nodes && SeemsToExist(l, s.nodes[holder], refs[push.checked]);
      var step := CheckBlob(id, holder);
      var s' := Next(l, s, step);
      forall d | d in refs
        ensures SeemsSomewhere(l, s', d)
      {
        assert SeemsSomewhere(l, s, d) && s'.nodes == s.nodes;
      }
      var later := CheckedPushCanFinish(l, s', id, push.(checked := push.checked + 1), targets);
      OneMoreStep(l, s, step, later);
      steps := [step] + later;
    }
  }

  lemma OneMoreStep(l: Site, s: State, step: Step, later: seq<Step>)
    requires Enabled(l, s, step) && Run(l, Next(l, s, step), later)
    ensures Run(l, s, [step] + later) && Final(l, s, [step] + later) == Final(l, Next(l, s, step), later)
  {
    assert ([step] + later)[0] == step && ([step] + later)[1..] == later;
  }

  lemma FinishedPushIsStored(l: Site, s: State, id: nat, targets: set<string>) returns (s': State)
    requires Enabled(l, s, FinishPush(id, targets))
    ensures s' == Next(l, s, FinishPush(id, targets)) && StoredAndSent(s', s.pushes[id], targets)
  {
    s' := Next(l, s, FinishPush(id, targets));
  }

  /** A push whose config and layers are all found can finish: the manifest is stored, and sent to its targets. */
  lemma FoundPushCanFinish(l: Site, s: State, id: nat, push: Push, targets: set<string>) returns (steps: seq<Step>)
    requires id !in s.pushes && push.at in s.nodes && push.checked == 0
    requires forall d | d != "" && (d == push.manifest.config || d in push.manifest.layers) :: SeemsSomewhere(l, s, d)
    ensures Run(l, s, steps) && |steps| > 1 && steps[0] == StartPush(id, push)
            && steps[|steps| - 1] == FinishPush(id, targets)
    ensures StoredAndSent(Final(l, s, steps), push, targets)
  {
    var step := StartPush(id, push);
    var s' := Next(l, s, step);
    forall d | d in References(push.manifest)
      ensures SeemsSomewhere(l, s', d)
    {
      assert d != "" && (d == push.manifest.config || d in push.manifest.layers);
      assert SeemsSomewhere(l, s, d) && s'.nodes == s.nodes;
    }
    var later := CheckedPushCanFinish(l, s', id, push, targets);
    OneMoreStep(l, s, step, later);
    steps := [step] + later;
  }

  /** A manifest on any node can be sent to any other and stored there under its key, as what its file holds. */
  lemma ManifestsTravel(l: Site, s: State, from: string, to: string, key: Key) returns (steps: seq<Step>)
    requires from in s.nodes && to in s.nodes && key in s.nodes[from].manifests
    ensures |steps| == 2 && steps[0] == SendManifest(from, to, key) && steps[1].DeliverManifest?
    ensures Run(l, s, steps)
    ensures var m, s' := s.nodes[from].manifests[key], Final(l, s, steps);
            to in s'.nodes && key in s'.nodes[to].manifests && s'.nodes[to].manifests[key] == Manifest(m.config, m.layers, "")
  {
    var m := s.nodes[from].manifests[key];
    var send, deliver := SendManifest(from, to, key), DeliverManifest(ManifestMessage(to, key, m));
    var s1 := Next(l, s, send);
    assert Enabled(l, s1, deliver);
    OneMoreStep(l, s1, deliver, []);
    OneMoreStep(l, s, send, [deliver] + []);
    steps := [send] + ([deliver] + []);
  }

  /** A push that finishes, and a manifest that arrives, are stored under their key, and under their digest too if the
      key is a tag and the digest is known; nothing else changes among the manifests, and none keeps its digest. A push
      sends the manifest to its targets. */
  lemma ManifestsAreStored(l: Site, s: State, step: Step)
    requires Enabled(l, s, step) && (step.FinishPush? || step.DeliverManifest?)
    ensures var s' := Next(l, s, step);
            var at := if step.FinishPush? then s.pushes[step.id].at else step.message.to;
            var key := if step.FinishPush? then s.pushes[step.id].key else step.message.key;
            var m := if step.FinishPush? then s.pushes[step.id].manifest else step.message.manifest;
            var alias := !(|key.1| >= 7 && key.1[..7] == "sha256:") && m.digest != "";
            && s'.nodes.Keys == s.nodes.Keys
            && (forall n | n in s.nodes && n != at :: s'.nodes[n] == s.nodes[n])
            && (forall k :: k in s'.nodes[at].manifests <==>
                  k in s.nodes[at].manifests || k == key || (alias && k == (key.0, m.digest)))
            && (forall k | k in s'.nodes[at].manifests :: s'.nodes[at].manifests[k] ==
                  if k == key || (alias && k == (key.0, m.digest)) then Manifest(m.config, m.layers, "")
                  else s.nodes[at].manifests[k])
            && (step.FinishPush? ==> forall to | to in step.targets ::
                  ManifestMessage(to, key, Manifest(m.config, m.layers, "")) in s'.net)
  {
  }

  /** What that leaves on the node's disk: the manifest's file, also under the digest, with the directories above, and no
      temporary file of it; no other node's disk changes. */
  lemma ManifestsAreOnDisk(l: Site, s: State, step: Step)
    requires Enabled(l, s, step) && (step.FinishPush? || step.DeliverManifest?)
    ensures var at := if step.FinishPush? then s.pushes[step.id].at else step.message.to;
            var key := if step.FinishPush? then s.pushes[step.id].key else step.message.key;
            var m := if step.FinishPush? then s.pushes[step.id].manifest else step.message.manifest;
            var alias := if !(|key.1| >= 7 && key.1[..7] == "sha256:") && m.digest != "" then (key.0, m.digest) else key;
            forall p :: p in Next(l, s, step).nodes[at].others <==>
              || p == l.manifest(key) || p == l.manifest(alias) || p in l.over(key) || p in l.over(alias)
              || (p in s.nodes[at].others && p != l.filled(key) && p != l.filled(alias))
  {
  }
}
