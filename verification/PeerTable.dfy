/** The tables of the peer manager, changed in place under its locks (internal/p2p/manager.go). What each method
    computes is a function of module PeerManager, where the interleavings are. */
module PeerTable {
  import opened Common
  import opened PeerManager

  class Table {
    const self: string
    var peers: map<string, int>
    var health: map<string, bool>

    constructor (self: string)
      ensures this.self == self && peers == map[] && health == map[]
    {
      this.self := self;
      peers, health := map[], map[];
    }

    /** discoverPeers, between Lock and Unlock. */
    method DiscoverPeers(found: seq<string>, now: int)
      modifies this`peers
      ensures peers == AddPeers(self, old(peers), found, now)
      ensures forall id :: id in peers <==> id in old(peers) || (id in found && id != self)
      ensures forall id | id in peers :: peers[id] == if id in found && id != self then now else old(peers)[id]
    {
      FoundPeersAreSeenNow(self, peers, found, now);
      var i := 0;
      while i < |found|
        invariant 0 <= i <= |found|
        invariant AddPeers(self, peers, found[i..], now) == AddPeers(self, old(peers), found, now)
      {
        if found[i] != self {
          peers := peers[found[i] := now];
        }
        i := i + 1;
      }
    }

    /** removeStaleTimers: first the peers that were not seen lately, then the health of peers no longer known. */
    method RemoveStale(threshold: int)
      modifies this
      ensures peers == WithoutStale(old(peers), threshold)
      ensures health == WithoutOrphans(old(health), peers)
      ensures forall id :: id in peers <==> id in old(peers) && old(peers)[id] >= threshold
      ensures forall id | id in peers :: peers[id] == old(peers)[id]
      ensures forall id :: id in health <==> id in old(health) && id in peers
      ensures forall id | id in health :: health[id] == old(health)[id]
    {
      var ids := peers.Keys;
      while ids != {}
        invariant ids <= peers.Keys <= old(peers).Keys
        invariant forall id | id in peers :: peers[id] == old(peers)[id]
        invariant forall id | id in old(peers) && id !in ids :: id in peers <==> old(peers)[id] >= threshold
        invariant health == old(health)
        decreases ids
      {
        var id :| id in ids;
        ids := ids - {id};
        if peers[id] < threshold {
          peers := peers - {id};
        }
      }
      var rows := health.Keys;
      while rows != {}
        invariant rows <= health.Keys <= old(health).Keys
        invariant forall id | id in health :: health[id] == old(health)[id]
        invariant forall id | id in old(health) && id !in rows :: id in health <==> id in peers
        invariant peers == WithoutStale(old(peers), threshold)
        decreases rows
      {
        var id :| id in rows;
        rows := rows - {id};
        if id !in peers {
          health := health - {id};
        }
      }
    }

    /** The gathering loop of checkPeerHealth over the results in the order they arrive. */
    method CollectHealth(results: seq<(string, bool)>)
      modifies this`health
      ensures health == Recorded(old(health), results)
    {
      var i := 0;
      while i < |results|
        invariant 0 <= i <= |results|
        invariant Recorded(health, results[i..]) == Recorded(old(health), results)
      {
        health := health[results[i].0 := results[i].1];
        i := i + 1;
      }
    }

    /** GetPeers: every known peer once, in whatever order the map is walked. */
    method GetPeers() returns (list: seq<string>)
      ensures multiset(list) == multiset(peers.Keys)
    {
      list := [];
      var ids := peers.Keys;
      while ids != {}
        invariant ids <= peers.Keys
        invariant multiset(list) == multiset(peers.Keys - ids)
        decreases ids
      {
        var id :| id in ids;
        ids := ids - {id};
        list := list + [id];
        assert peers.Keys - ids == (peers.Keys - ids - {id}) + {id};
      }
      assert peers.Keys - ids == peers.Keys;
    }
  }

  function Recorded(health: map<string, bool>, results: seq<(string, bool)>): map<string, bool>
    decreases |results|
  {
    if results == [] then health else Recorded(health[results[0].0 := results[0].1], results[1..])
  }

  lemma {:induction false} RecordedElsewhere(health: map<string, bool>, results: seq<(string, bool)>, id: string)
    requires forall i | 0 <= i < |results| :: results[i].0 != id
    ensures id in Recorded(health, results) <==> id in health
    ensures id in health ==> Recorded(health, results)[id] == health[id]
    decreases |results|
  {
    if results != [] {
      RecordedElsewhere(health[results[0].0 := results[0].1], results[1..], id);
    }
  }

  /** With one result per checker the order of arrival does not matter: a peer's row is the answer it gave. */
  lemma {:induction false} RowIsTheAnswer(health: map<string, bool>, results: seq<(string, bool)>, i: nat)
    requires i < |results| && forall j | 0 <= j < |results| && j != i :: results[j].0 != results[i].0
    ensures results[i].0 in Recorded(health, results)
    ensures Recorded(health, results)[results[i].0] == results[i].1
    decreases |results|
  {
    var health' := health[results[0].0 := results[0].1];
    if i == 0 {
      RecordedElsewhere(health', results[1..], results[0].0);
    } else {
      RowIsTheAnswer(health', results[1..], i - 1);
    }
  }
}
