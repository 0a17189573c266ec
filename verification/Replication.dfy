/** Replicating blobs (internal/storage/distributed/store.go): which peers get them, what their arrival does, and how
    many nodes hold a blob afterwards. */
module Replication {
  import opened Common
  import opened Blobs
  import PM = PeerManager

  /** The blobs of every node. */
  type Stores = map<string, map<string, Bytes>>

  /** A blob as it arrives at a node. */
  datatype Transfer = Transfer(to: string, digest: string, data: Bytes)

  predicate Valid(sha: Sha, t: Transfer) {
    DigestOf(sha, t.data) == t.digest
  }

  /** The receiving PutBlob. */
  function Deliver(sha: Sha, stores: Stores, t: Transfer): Stores {
    if t.to in stores then stores[t.to := PutBlob(sha, stores[t.to], t.digest, Body([t.data], true))] else stores
  }

  function DeliverAll(sha: Sha, stores: Stores, ts: seq<Transfer>): Stores {
    if ts == [] then stores else Deliver(sha, DeliverAll(sha, stores, ts[..|ts| - 1]), ts[|ts| - 1])
  }

  function ValidOnes(sha: Sha, ts: seq<Transfer>): set<Transfer> {
    set t | t in ts && Valid(sha, t)
  }

  /** No two transfers bring different bytes for one digest to one of these nodes. */
  ghost predicate Agree(stores: Stores, ts: set<Transfer>) {
    forall t, u | t in ts && u in ts && t.to == u.to && t.digest == u.digest && t.to in stores :: t.data == u.data
  }

  ghost predicate Brings(ts: set<Transfer>, n: string, digest: string) {
    exists t :: t in ts && t.to == n && t.digest == digest
  }

  lemma DeliverValid(sha: Sha, stores: Stores, t: Transfer)
    ensures Deliver(sha, stores, t) ==
            if t.to in stores && Valid(sha, t) then stores[t.to := stores[t.to][t.digest := t.data]] else stores
  {
    ContentOfOnePiece(t.data, true);
  }

  /** What a node holds in the end: of each digest that came, bytes that came with it; of the others, what it had. */
  lemma {:induction false} DeliveredBlobs(sha: Sha, stores: Stores, ts: seq<Transfer>, n: string, digest: string)
    requires n in stores
    ensures var stores' := DeliverAll(sha, stores, ts);
            && n in stores'
            && (if Brings(ValidOnes(sha, ts), n, digest)
                then digest in stores'[n] && Transfer(n, digest, stores'[n][digest]) in ValidOnes(sha, ts)
                else (digest in stores'[n] <==> digest in stores[n])
                     && (digest in stores[n] ==> stores'[n][digest] == stores[n][digest]))
  {
    if ts != [] {
      var before, last := ts[..|ts| - 1], ts[|ts| - 1];
      DeliveredBlobs(sha, stores, before, n, digest);
      DeliverValid(sha, DeliverAll(sha, stores, before), last);
      assert ts == before + [last];
      assert ValidOnes(sha, ts) == ValidOnes(sha, before) + if Valid(sha, last) then {last} else {};
      assert forall t | t in ValidOnes(sha, ts) && t != last :: t in ValidOnes(sha, before);
      if Brings(ValidOnes(sha, before), n, digest) {
        var t :| t in ValidOnes(sha, before) && t.to == n && t.digest == digest;
        assert t in ValidOnes(sha, ts);
      }
    }
  }

  lemma {:induction false} NoNewNodes(sha: Sha, stores: Stores, ts: seq<Transfer>)
    ensures DeliverAll(sha, stores, ts).Keys == stores.Keys
  {
    if ts != [] {
      NoNewNodes(sha, stores, ts[..|ts| - 1]);
    }
  }

  /** Two orders of the same valid transfers, with duplicates and damaged ones in between, lead to the same blobs. */
  lemma AgreeingOrdersMeet(sha: Sha, stores: Stores, xs: seq<Transfer>, ys: seq<Transfer>)
    requires ValidOnes(sha, xs) == ValidOnes(sha, ys) && Agree(stores, ValidOnes(sha, xs))
    ensures DeliverAll(sha, stores, xs) == DeliverAll(sha, stores, ys)
  {
    var a, b := DeliverAll(sha, stores, xs), DeliverAll(sha, stores, ys);
    NoNewNodes(sha, stores, xs);
    NoNewNodes(sha, stores, ys);
    forall n | n in stores
      ensures a[n] == b[n]
    {
      forall digest
        ensures digest in a[n] <==> digest in b[n]
        ensures digest in a[n] ==> a[n][digest] == b[n][digest]
      {
        DeliveredBlobs(sha, stores, xs, n, digest);
        DeliveredBlobs(sha, stores, ys, n, digest);
      }
    }
  }

  lemma {:induction false} InSomeOrder(ts: set<Transfer>) returns (order: seq<Transfer>)
    ensures forall t :: t in order <==> t in ts
  {
    if ts == {} {
      order := [];
    } else {
      var t :| t in ts;
      var rest := InSomeOrder(ts - {t});
      order := rest + [t];
    }
  }

  ghost predicate Confluent(sha: Sha, stores: Stores, ts: set<Transfer>) {
    forall xs, ys | ValidOnes(sha, xs) == ts && ValidOnes(sha, ys) == ts ::
      DeliverAll(sha, stores, xs) == DeliverAll(sha, stores, ys)
  }

  lemma LastOneWins(sha: Sha, stores: Stores, ts: seq<Transfer>, t: Transfer)
    requires t.to in stores && Valid(sha, t)
    ensures var stores' := DeliverAll(sha, stores, ts + [t]);
            t.to in stores' && t.digest in stores'[t.to] && stores'[t.to][t.digest] == t.data
  {
    NoNewNodes(sha, stores, ts);
    DeliverValid(sha, DeliverAll(sha, stores, ts), t);
    assert (ts + [t])[..|ts|] == ts;
  }

  /** Replication is confluent and idempotent exactly when no two valid transfers are a collision of the hash. */
  lemma ConfluentExactlyWhenAgreeing(sha: Sha, stores: Stores, ts: set<Transfer>)
    requires forall t | t in ts :: Valid(sha, t)
    ensures Confluent(sha, stores, ts) <==> Agree(stores, ts)
    ensures CollisionFree(sha, set t | t in ts :: t.data) ==> Agree(stores, ts)
  {
    if Agree(stores, ts) {
      forall xs, ys | ValidOnes(sha, xs) == ts && ValidOnes(sha, ys) == ts
        ensures DeliverAll(sha, stores, xs) == DeliverAll(sha, stores, ys)
      {
        AgreeingOrdersMeet(sha, stores, xs, ys);
      }
    }
    if Confluent(sha, stores, ts) {
      forall t, u | t in ts && u in ts && t.to == u.to && t.digest == u.digest && t.to in stores
        ensures t.data == u.data
      {
        var order := InSomeOrder(ts);
        assert ValidOnes(sha, order + [t]) == ts && ValidOnes(sha, order + [u]) == ts;
        LastOneWins(sha, stores, order, t);
        LastOneWins(sha, stores, order, u);
      }
    }
    forall t, u | t in ts && u in ts && t.digest == u.digest
      ensures sha(t.data) == sha(u.data)
    {
      assert Valid(sha, t) && Valid(sha, u);
      assert DigestOf(sha, t.data)[7..] == sha(t.data) && DigestOf(sha, u.data)[7..] == sha(u.data);
    }
  }

  // ---------------------------------------------------------------- choosing the targets

  datatype HealthStatus = HealthUnknown | HealthHealthy | HealthDegraded | HealthUnhealthy

  function Healthy(peers: seq<string>, health: map<string, HealthStatus>): seq<string> {
    if peers == [] then []
    else
      (if peers[0] in health && health[peers[0]] == HealthHealthy then [peers[0]] else [])
      + Healthy(peers[1..], health)
  }

  lemma HealthyStep(peers: seq<string>, health: map<string, HealthStatus>, i: nat)
    requires i < |peers|
    ensures Healthy(peers[i..], health) ==
            if peers[i] in health && health[peers[i]] == HealthHealthy then [peers[i]] + Healthy(peers[i + 1..], health)
            else Healthy(peers[i + 1..], health)
  {
    assert peers[i..][0] == peers[i] && peers[i..][1..] == peers[i + 1..];
  }

  method FilterHealthyPeers(peers: seq<string>, health: map<string, HealthStatus>) returns (healthy: seq<string>)
    ensures healthy == Healthy(peers, health)
  {
    healthy := [];
    var i := 0;
    assert peers[0..] == peers;
    while i < |peers|
      invariant 0 <= i <= |peers|
      invariant Healthy(peers, health) == healthy + Healthy(peers[i..], health)
    {
      HealthyStep(peers, health, i);
      if peers[i] in health && health[peers[i]] == HealthHealthy {
        Regroup(healthy, peers[i], Healthy(peers[i + 1..], health));
        healthy := healthy + [peers[i]];
      }
      i := i + 1;
    }
  }

  method SelectReplicationTargets(peers: seq<string>, factor: int) returns (selected: array<string>)
    ensures fresh(selected) && selected.Length <= |peers| && selected[..] == peers[..selected.Length]
    ensures 1 <= factor <= |peers| ==> selected.Length == factor
    ensures factor > |peers| ==> selected.Length == |peers|
    ensures factor <= 0 ==> selected.Length == if peers == [] then 0 else 1
  {
    var count := factor;
    if count <= 0 {
      count := 1;
    }
    if count > |peers| {
      count := |peers|;
    }
    selected := new string[count](_ => "");
    var i := 0;
    while i < count
      invariant 0 <= i <= count
      invariant selected[..i] == peers[..i]
    {
      selected[i] := peers[i];
      i := i + 1;
    }
  }

  lemma {:induction false} HealthyAre(peers: seq<string>, health: map<string, HealthStatus>, p: string)
    ensures p in Healthy(peers, health) <==> p in peers && p in health && health[p] == HealthHealthy
  {
    if peers != [] {
      assert peers == [peers[0]] + peers[1..];
      HealthyAre(peers[1..], health, p);
    }
  }

  lemma {:induction false} HealthyInOrder(peers: seq<string>, health: map<string, HealthStatus>, a: nat, b: nat)
    requires a < b < |Healthy(peers, health)|
    ensures Before(peers, Healthy(peers, health)[a], Healthy(peers, health)[b])
  {
    var rest := peers[1..];
    var all, later := Healthy(peers, health), Healthy(rest, health);
    if all == later || a > 0 {
      var shift := |all| - |later|;
      assert all[a] == later[a - shift] && all[b] == later[b - shift];
      HealthyInOrder(rest, health, a - shift, b - shift);
      BeforeInLonger(peers, all[a], all[b]);
    } else {
      assert all[b] == later[b - 1] && all[b] in later;
      HealthyAre(rest, health, all[b]);
      var j :| 0 <= j < |rest| && rest[j] == all[b];
      assert peers[0] == all[a] && peers[j + 1] == all[b];
    }
  }

  /** The healthy peers are those with a healthy row, each once and in the order given. */
  lemma HealthyKeepsOrder(peers: seq<string>, health: map<string, HealthStatus>)
    requires Distinct(peers)
    ensures Distinct(Healthy(peers, health))
    ensures forall p :: p in Healthy(peers, health) <==> p in peers && p in health && health[p] == HealthHealthy
    ensures forall a, b | 0 <= a < b < |Healthy(peers, health)| ::
              Before(peers, Healthy(peers, health)[a], Healthy(peers, health)[b])
  {
    forall p
      ensures p in Healthy(peers, health) <==> p in peers && p in health && health[p] == HealthHealthy
    {
      HealthyAre(peers, health, p);
    }
    forall a, b | 0 <= a < b < |Healthy(peers, health)|
      ensures Before(peers, Healthy(peers, health)[a], Healthy(peers, health)[b])
    {
      HealthyInOrder(peers, health, a, b);
    }
  }

  ghost predicate Before(peers: seq<string>, p: string, q: string) {
    exists i, j :: 0 <= i < j < |peers| && peers[i] == p && peers[j] == q
  }

  lemma BeforeInLonger(peers: seq<string>, p: string, q: string)
    requires peers != [] && Before(peers[1..], p, q)
    ensures Before(peers, p, q)
  {
    var i, j :| 0 <= i < j < |peers[1..]| && peers[1..][i] == p && peers[1..][j] == q;
    assert peers[i + 1] == p && peers[j + 1] == q;
  }

  // ---------------------------------------------------------------- replicating

  /** What becomes of one send: the bytes that reach the peer, and whether its answer comes back. */
  datatype Fate = Fate(arrived: Body, answered: bool)

  function Holders(stores: Stores, digest: string): set<string> {
    set n | n in stores && digest in stores[n]
  }

  function SendTo(sha: Sha, stores: Stores, peer: string, digest: string, fate: Fate): Stores {
    if peer in stores then stores[peer := PutBlob(sha, stores[peer], digest, fate.arrived)] else stores
  }

  predicate Acknowledged(sha: Sha, stores: Stores, peer: string, digest: string, fate: Fate) {
    peer in stores && Verifies(sha, digest, fate.arrived) && fate.answered
  }

  ghost function AckedBy(sha: Sha, stores: Stores, targets: seq<string>, digest: string, fates: string -> Fate): set<string> {
    set p | p in targets && Acknowledged(sha, stores, p, digest, fates(p))
  }

  /** Only the targets are touched, and each of them by its own send. */
  ghost predicate Sent(sha: Sha, stores: Stores, stores': Stores, targets: seq<string>, digest: string, fates: string -> Fate) {
    && stores'.Keys == stores.Keys
    && forall n | n in stores :: stores'[n] ==
         if n in targets then PutBlob(sha, stores[n], digest, fates(n).arrived) else stores[n]
  }

  lemma OneMoreTarget(sha: Sha, stores: Stores, targets: seq<string>, p: string, digest: string, fates: string -> Fate)
    requires p !in targets
    ensures |AckedBy(sha, stores, targets + [p], digest, fates)| ==
            |AckedBy(sha, stores, targets, digest, fates)|
            + if Acknowledged(sha, stores, p, digest, fates(p)) then 1 else 0
  {
    var more, fewer := AckedBy(sha, stores, targets + [p], digest, fates), AckedBy(sha, stores, targets, digest, fates);
    assert more == fewer + if Acknowledged(sha, stores, p, digest, fates(p)) then {p} else {};
  }

  /** The sends run side by side; their targets differ, so the order does not matter. */
  method SendToAll(sha: Sha, stores: Stores, digest: string, targets: seq<string>, fates: string -> Fate)
    returns (stores': Stores, successCount: nat)
    requires Distinct(targets)
    ensures Sent(sha, stores, stores', targets, digest, fates)
    ensures successCount == |AckedBy(sha, stores, targets, digest, fates)|
    ensures successCount == |set p | p in targets && p in stores && fates(p).answered && fates(p).arrived.complete
                                     && DigestOf(sha, fates(p).arrived.Content()) == digest|
  {
    stores', successCount := stores, 0;
    var i := 0;
    while i < |targets|
      invariant 0 <= i <= |targets|
      invariant Sent(sha, stores, stores', targets[..i], digest, fates)
      invariant successCount == |AckedBy(sha, stores, targets[..i], digest, fates)|
    {
      var p := targets[i];
      assert targets[..i + 1] == targets[..i] + [p] && p !in targets[..i];
      OneMoreTarget(sha, stores, targets[..i], p, digest, fates);
      stores' := SendTo(sha, stores', p, digest, fates(p));
      if Acknowledged(sha, stores, p, digest, fates(p)) {
        successCount := successCount + 1;
      }
      i := i + 1;
    }
    assert targets[..i] == targets;
    assert AckedBy(sha, stores, targets, digest, fates)
           == set p | p in targets && p in stores && fates(p).answered && fates(p).arrived.complete
                      && DigestOf(sha, fates(p).arrived.Content()) == digest;
  }

  lemma AckedAreHolders(sha: Sha, stores: Stores, stores': Stores, self: string, targets: seq<string>, digest: string,
                        fates: string -> Fate)
    requires Sent(sha, stores, stores', targets, digest, fates)
    requires self in stores && digest in stores[self] && self !in targets
    ensures |Holders(stores', digest)| >= 1 + |AckedBy(sha, stores, targets, digest, fates)|
  {
    var acked, holders := AckedBy(sha, stores, targets, digest, fates), Holders(stores', digest);
    assert stores'[self] == stores[self];
    assert acked + {self} <= holders;
    assert holders == (acked + {self}) + (holders - (acked + {self}));
    assert |acked + {self}| == |acked| + 1;
  }

  /** What GetPeers gives in any state that the peer manager can reach meets what replication asks of its peers. */
  lemma ReachablePeersQualify(cfg: PM.Config, steps: seq<PM.Step>, peers: seq<string>)
    requires PM.Run(cfg, PM.INITIAL, steps)
    requires multiset(peers) == multiset(PM.Final(cfg, PM.INITIAL, steps).peers.Keys)
    ensures cfg.self !in peers && Distinct(peers)
  {
    PM.ReachableStates(cfg, steps);
    ElementsOfASetAreDistinct(peers, PM.Final(cfg, PM.INITIAL, steps).peers.Keys);
  }

  /** replicateBlobToPeers: if it counts s successes, at least 1 + s nodes hold the blob; nobody but its targets is
      touched, and they are the first healthy peers, each once, and never the node itself. */
  method ReplicateBlobToPeers(sha: Sha, stores: Stores, self: string, digest: string, peers: seq<string>,
                              health: map<string, HealthStatus>, factor: int, fates: string -> Fate)
    returns (stores': Stores, successCount: nat, targets: seq<string>)
    requires self in stores && self !in peers && Distinct(peers)
    ensures digest !in stores[self] ==> stores' == stores && successCount == 0
    ensures digest in stores[self] ==> |Holders(stores', digest)| >= 1 + successCount
    ensures digest in stores[self] ==>
              var healthy := Healthy(peers, health);
              && |targets| <= |healthy| && targets == healthy[..|targets|]
              && (1 <= factor <= |healthy| ==> |targets| == factor)
              && (factor > |healthy| ==> |targets| == |healthy|)
              && (factor <= 0 ==> |targets| == if healthy == [] then 0 else 1)
    ensures Distinct(targets) && self !in targets
    ensures forall p | p in targets :: p in peers && p in health && health[p] == HealthHealthy
    ensures Sent(sha, stores, stores', targets, digest, fates)
    ensures successCount == |AckedBy(sha, stores, targets, digest, fates)|
  {
    targets := [];
    if digest in stores[self] {
      var healthy := FilterHealthyPeers(peers, health);
      HealthyKeepsOrder(peers, health);
      var selected := SelectReplicationTargets(healthy, factor);
      targets := selected[..];
      assert forall p | p in targets :: p in healthy;
    }
    stores', successCount := SendToAll(sha, stores, digest, targets, fates);
    if digest in stores[self] {
      AckedAreHolders(sha, stores, stores', self, targets, digest, fates);
    }
  }

  /** The sends are deliveries of transfers: what this does to the nodes is what the confluence theorem is about. */
  lemma SendIsDelivery(sha: Sha, stores: Stores, peer: string, digest: string, fate: Fate)
    requires fate.arrived.complete
    ensures SendTo(sha, stores, peer, digest, fate)
            == Deliver(sha, stores, Transfer(peer, digest, fate.arrived.Content()))
  {
    ContentOfOnePiece(fate.arrived.Content(), true);
  }
}
