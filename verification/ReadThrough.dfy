/** Reading a blob through the peers (internal/storage/distributed/store.go): GetBlob, BlobExists and GetBlobSize of a
    node whose peers answer as they please. Like its peers, the node takes a directory at a blob's path for the blob. */
module ReadThrough {
  import opened Common
  import opened Blobs
  import opened Paths
  import opened Existence
  import opened Placing
  import SG = ScatterGather

  /** What the peers do during one call: has answers HasBlob, reply is the stream that RequestBlob gets. */
  datatype Network = Network(has: string -> bool, reply: string -> Option<Body>)

  /** Unreadable: a reader that fails, because it reads a directory. */
  datatype Result = Found(content: Bytes) | Unreadable | BlobNotFound

  /** How the gathering went: the peers in the order their answers come in, and how many come before the timeout. */
  datatype Gathering = Gathering(arrivals: seq<string>, deadline: Option<nat>)

  predicate Timely(g: Gathering) {
    g.deadline.None? || g.deadline.value >= |g.arrivals|
  }

  /** Every known peer is asked once. */
  predicate Asks(g: Gathering, peers: seq<string>) {
    multiset(g.arrivals) == multiset(peers)
  }

  function Gathered(g: Gathering, net: Network): seq<string> {
    if Timely(g) then SG.Positives(g.arrivals, net.has) else []
  }

  /** A run of the scattered calls that ends without a timeout is such a gathering. */
  lemma FinishedRunIsAGathering(peers: seq<string>, net: Network, steps: seq<SG.Step>)
    requires SG.Run(SG.Initial(peers), |peers|, net.has, steps)
    requires SG.Final(SG.Initial(peers), |peers|, net.has, steps).status == SG.Finished
    ensures var s := SG.Final(SG.Initial(peers), |peers|, net.has, steps);
            var g := Gathering(s.received, None);
            Timely(g) && Asks(g, peers) && Gathered(g, net) == s.found
  {
    SG.GathersExactly(peers, net.has, steps);
    SG.InitialInv(peers, net.has);
    SG.RunKeepsInv(SG.Initial(peers), peers, net.has, steps);
  }

  predicate Delivers(sha: Sha, net: Network, peer: string, digest: string) {
    net.reply(peer).Some? && Verifies(sha, digest, net.reply(peer).value)
  }

  /** The peers one after the other, until one delivers; each attempt to cache creates the directories. */
  function Fetch(sha: Sha, l: Layout, f: Tree, net: Network, peers: seq<string>, digest: string): (Result, Tree)
    decreases |peers|
  {
    if peers == [] then (BlobNotFound, f)
    else
      match net.reply(peers[0])
      case None => Fetch(sha, l, f, net, peers[1..], digest)
      case Some(body) =>
        var tried := Put(sha, l, f, digest, body);
        if Puts(sha, l, f, digest, body) then (Found(body.Content()), tried)
        else Fetch(sha, l, tried, net, peers[1..], digest)
  }

  /** Fetching succeeds exactly when nothing is in the way of the blob and some peer in the list delivers bytes with the
      digest, and caches exactly these. */
  lemma {:induction false} FetchSucceedsExactlyWhen(sha: Sha, l: Layout, f: Tree, net: Network, peers: seq<string>,
                                                    digest: string)
    requires Level(l)
    ensures var (result, f') := Fetch(sha, l, f, net, peers, digest);
            && (result.Found? <==> Placeable(l, f, digest) && exists p :: p in peers && Delivers(sha, net, p, digest))
            && (result.Found? ==> DigestOf(sha, result.content) == digest
                                  && f'.blobs == f.blobs[digest := result.content])
            && (!result.Found? ==> result == BlobNotFound && f'.blobs == f.blobs)
            && f.dirs <= f'.dirs <= f.dirs + l.above(digest)
    decreases |peers|
  {
    if peers != [] {
      assert forall p | p in peers :: p == peers[0] || p in peers[1..];
      match net.reply(peers[0])
      case None => FetchSucceedsExactlyWhen(sha, l, f, net, peers[1..], digest);
      case Some(body) =>
        if Puts(sha, l, f, digest, body) {
          assert Delivers(sha, net, peers[0], digest);
        } else {
          FailedPutLeaves(sha, l, f, digest, body);
          FetchSucceedsExactlyWhen(sha, l, Put(sha, l, f, digest, body), net, peers[1..], digest);
        }
    }
  }

  /** A put that fails leaves directories only, and what is in the way of the blob. */
  lemma FailedPutLeaves(sha: Sha, l: Layout, f: Tree, digest: string, body: Body)
    requires Level(l) && !Puts(sha, l, f, digest, body)
    ensures var f' := Put(sha, l, f, digest, body);
            && f'.blobs == f.blobs && f.dirs <= f'.dirs <= f.dirs + l.above(digest)
            && (Placeable(l, f', digest) <==> Placeable(l, f, digest))
  {
  }

  class DistributedStore {
    const sha: Sha
    const layout: Layout
    const dirSize: nat // what Stat says of a directory
    var tree: Tree

    constructor (sha: Sha, layout: Layout, dirSize: nat, tree: Tree)
      ensures this.sha == sha && this.layout == layout && this.dirSize == dirSize && this.tree == tree
    {
      this.sha, this.layout, this.dirSize, this.tree := sha, layout, dirSize, tree;
    }

    method FindPeersWithBlob(g: Gathering, net: Network) returns (found: seq<string>, timedOut: bool)
      ensures timedOut <==> g.deadline.Some? && g.deadline.value < |g.arrivals|
      ensures found == SG.Positives(g.arrivals[..if timedOut then g.deadline.value else |g.arrivals|], net.has)
    {
      found, timedOut := [], false;
      var i := 0;
      while i < |g.arrivals|
        invariant 0 <= i <= |g.arrivals|
        invariant found == SG.Positives(g.arrivals[..i], net.has)
        invariant g.deadline.Some? ==> i <= g.deadline.value
      {
        if g.deadline == Some(i) {
          return found, true;
        }
        var upTo := g.arrivals[..i + 1];
        assert upTo[..i] == g.arrivals[..i];
        if net.has(g.arrivals[i]) {
          found := found + [g.arrivals[i]];
        }
        i := i + 1;
      }
    }

    /** The store's own PutBlob of what a stream delivers: the directories come first. */
    method PutLocal(digest: string, body: Body) returns (ok: bool)
      modifies this`tree
      ensures tree == Put(sha, layout, old(tree), digest, body)
      ensures ok == Puts(sha, layout, old(tree), digest, body)
    {
      var before := tree;
      if Blocked(layout, before, digest) {
        return false;
      }
      tree := tree.(dirs := tree.dirs + layout.above(digest));
      ok := && layout.temp(digest) !in before.dirs
            && body.complete && DigestOf(sha, body.Content()) == digest
            && layout.file(digest) !in before.dirs;
      if ok {
        tree := tree.(blobs := tree.blobs[digest := body.Content()]);
      }
    }

    method GetBlobFromPeers(digest: string, g: Gathering, net: Network) returns (result: Result)
      modifies this`tree
      ensures (result, tree) == Fetch(sha, layout, old(tree), net, Gathered(g, net), digest)
    {
      var peers, timedOut := FindPeersWithBlob(g, net);
      if timedOut {
        return BlobNotFound;
      }
      assert g.arrivals[..|g.arrivals|] == g.arrivals;
      var i := 0;
      assert peers[0..] == peers;
      while i < |peers|
        invariant 0 <= i <= |peers|
        invariant Fetch(sha, layout, tree, net, peers[i..], digest) == Fetch(sha, layout, old(tree), net, peers, digest)
      {
        assert peers[i..][0] == peers[i] && peers[i..][1..] == peers[i + 1..];
        var reply := net.reply(peers[i]);
        if reply.Some? {
          var cached := PutLocal(digest, reply.value);
          if cached {
            return Found(tree.blobs[digest]);
          }
        }
        i := i + 1;
      }
      result := BlobNotFound;
    }

    /** The log lines cut the digest to twelve characters, which fails on a shorter one. */
    method GetBlob(digest: string, g: Gathering, net: Network) returns (result: Result)
      requires |digest| >= 12
      modifies this`tree
      ensures (result, tree) == Read(sha, layout, old(tree), digest, g, net)
    {
      if digest in tree.blobs {
        return Found(tree.blobs[digest]);
      }
      if layout.file(digest) in tree.dirs {
        return Unreadable;
      }
      result := GetBlobFromPeers(digest, g, net);
    }

    method BlobExists(digest: string, g: Gathering, net: Network) returns (exists_: bool)
      requires Seems(layout, tree, digest) || Timely(g) || |digest| >= 12 // only a timeout is logged
      ensures exists_ == Exists(layout, tree, digest, g, net)
    {
      if digest in tree.blobs || layout.file(digest) in tree.dirs {
        return true;
      }
      var peers, timedOut := FindPeersWithBlob(g, net);
      assert g.arrivals[..|g.arrivals|] == g.arrivals;
      exists_ := !timedOut && |peers| > 0;
    }

    method GetBlobSize(digest: string) returns (size: Option<nat>)
      ensures size == if digest in tree.blobs then Some(|tree.blobs[digest]|)
                      else if layout.file(digest) in tree.dirs then Some(dirSize) else None
    {
      if digest in tree.blobs {
        size := Some(|tree.blobs[digest]|);
      } else {
        size := if layout.file(digest) in tree.dirs then Some(dirSize) else None;
      }
    }
  }

  function Read(sha: Sha, l: Layout, f: Tree, digest: string, g: Gathering, net: Network): (Result, Tree) {
    if digest in f.blobs then (Found(f.blobs[digest]), f)
    else if l.file(digest) in f.dirs then (Unreadable, f)
    else Fetch(sha, l, f, net, Gathered(g, net), digest)
  }

  predicate Exists(l: Layout, f: Tree, digest: string, g: Gathering, net: Network) {
    Seems(l, f, digest) || Gathered(g, net) != []
  }

  /** A read succeeds exactly when the blob is here, or nothing is in its way, all answers came in time and a peer that
      said yes delivers bytes with its digest; what it returns has the digest and is here from then on. */
  lemma ReadSucceedsExactlyWhen(sha: Sha, l: Layout, f: Tree, digest: string, g: Gathering, net: Network)
    requires Level(l)
    ensures Read(sha, l, f, digest, g, net).0.Found? <==>
            || digest in f.blobs
            || (&& Placeable(l, f, digest) && Timely(g)
                && exists p :: p in g.arrivals && net.has(p) && Delivers(sha, net, p, digest))
    ensures var (result, f') := Read(sha, l, f, digest, g, net);
            && (result.Found? ==> digest in f'.blobs && f'.blobs[digest] == result.content)
            && (ContentAddressed(sha, f.blobs) ==> ContentAddressed(sha, f'.blobs))
            && (forall d | d != digest :: d in f'.blobs <==> d in f.blobs)
            && (forall d | d in f.blobs :: d in f'.blobs && f'.blobs[d] == f.blobs[d])
            && (result == Unreadable <==> digest !in f.blobs && l.file(digest) in f.dirs)
            && (!result.Found? ==> f'.blobs == f.blobs)
  {
    FetchSucceedsExactlyWhen(sha, l, f, net, Gathered(g, net), digest);
    PositivesMembers(g.arrivals, net.has);
  }

  lemma {:induction false} PositivesMembers(peers: seq<string>, has: string -> bool)
    ensures forall p :: p in SG.Positives(peers, has) <==> p in peers && has(p)
  {
    if peers != [] {
      PositivesMembers(peers[..|peers| - 1], has);
      assert peers == peers[..|peers| - 1] + [peers[|peers| - 1]];
    }
  }

  /** Peers that answer as their disks do and deliver what they hold; a stream that reads a directory breaks off. */
  ghost predicate Reliable(l: Layout, net: Network, nodes: map<string, Tree>, digest: string) {
    forall p ::
      && (net.has(p) <==> p in nodes && Seems(l, nodes[p], digest))
      && (net.has(p) ==> net.reply(p) ==
                         Some(if digest in nodes[p].blobs then Body([nodes[p].blobs[digest]], true) else Body([], false)))
  }

  ghost predicate InUnion(f: Tree, nodes: map<string, Tree>, peers: seq<string>, digest: string) {
    digest in f.blobs || exists p :: p in peers && p in nodes && digest in nodes[p].blobs
  }

  /** A directory in the place of the blob, here or at a known peer. */
  ghost predicate Mistaken(l: Layout, f: Tree, nodes: map<string, Tree>, peers: seq<string>, digest: string) {
    l.file(digest) in f.dirs || exists p :: p in peers && p in nodes && l.file(digest) in nodes[p].dirs
  }

  /** With reliable peers and no timeout a node reads the union of its own blobs and those of all known peers, unless
      something is in the way of the blob; BlobExists says yes exactly when the blob is in the union or something is
      mistaken for it. */
  lemma ReliableReadIsLookupInUnion(sha: Sha, l: Layout, f: Tree, digest: string, g: Gathering, net: Network,
                                    nodes: map<string, Tree>, peers: seq<string>)
    requires Level(l) && Timely(g) && Asks(g, peers) && Reliable(l, net, nodes, digest)
    requires forall p | p in nodes :: ContentAddressed(sha, nodes[p].blobs)
    ensures Read(sha, l, f, digest, g, net).0.Found? <==>
            digest in f.blobs || (Placeable(l, f, digest) && InUnion(f, nodes, peers, digest))
    ensures Exists(l, f, digest, g, net) <==> InUnion(f, nodes, peers, digest) || Mistaken(l, f, nodes, peers, digest)
  {
    SamePeers(g, peers);
    PositivesMembers(g.arrivals, net.has);
    forall p | net.has(p)
      ensures Delivers(sha, net, p, digest) <==> digest in nodes[p].blobs
    {
      if digest in nodes[p].blobs {
        ContentOfOnePiece(nodes[p].blobs[digest], true);
      }
    }
    ReadSucceedsExactlyWhen(sha, l, f, digest, g, net);
    if p :| p in peers && net.has(p) {
      assert p in Gathered(g, net);
    }
    assert Gathered(g, net) != [] ==> Gathered(g, net)[0] in Gathered(g, net);
  }

  lemma SamePeers(g: Gathering, peers: seq<string>)
    requires Asks(g, peers)
    ensures forall p :: p in g.arrivals <==> p in peers
  {
    forall p
      ensures p in g.arrivals <==> p in peers
    {
      assert p in g.arrivals <==> p in multiset(g.arrivals);
      assert p in peers <==> p in multiset(peers);
    }
  }

  /** What is read is what every holder has, unless the hash collides. */
  lemma ReadAgreesWithHolders(sha: Sha, l: Layout, f: Tree, digest: string, g: Gathering, net: Network, held: Bytes)
    requires Level(l) && ContentAddressed(sha, f.blobs) && DigestOf(sha, held) == digest
    requires Read(sha, l, f, digest, g, net).0.Found?
    ensures var content := Read(sha, l, f, digest, g, net).0.content;
            CollisionFree(sha, {content, held}) ==> content == held
  {
    FetchSucceedsExactlyWhen(sha, l, f, net, Gathered(g, net), digest);
    var content := Read(sha, l, f, digest, g, net).0.content;
    assert DigestOf(sha, content) == digest;
    assert DigestOf(sha, content)[7..] == sha(content) && DigestOf(sha, held)[7..] == sha(held);
  }

  /** For unmistakable digests reading and existence are the same lookup in the union, on nodes that put only accepted
      digests; and reading keeps it so. */
  lemma UnmistakableReadIsLookupInUnion(sha: Sha, base: Path, f: Tree, digest: string, g: Gathering, net: Network,
                                        nodes: map<string, Tree>, peers: seq<string>)
    requires Timely(g) && Asks(g, peers) && Reliable(StoreLayout(base), net, nodes, digest)
    requires forall p | p in nodes :: ContentAddressed(sha, nodes[p].blobs) && Clear(base, nodes[p])
    requires Clear(base, f) && Unmistakable(digest)
    ensures var l := StoreLayout(base);
            && (Read(sha, l, f, digest, g, net).0.Found? <==> InUnion(f, nodes, peers, digest))
            && (Exists(l, f, digest, g, net) <==> InUnion(f, nodes, peers, digest))
            && Clear(base, Read(sha, l, f, digest, g, net).1)
  {
    var l := StoreLayout(base);
    StoreIsLevel(base);
    ClearIsPlaceable(base, f, digest);
    ReliableReadIsLookupInUnion(sha, l, f, digest, g, net, nodes, peers);
    FetchSucceedsExactlyWhen(sha, l, f, net, Gathered(g, net), digest);
    AboveIsClear(base, digest);
  }
}
