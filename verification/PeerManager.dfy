/** The peer manager's threads, locks, worker pool and channels (internal/p2p/manager.go).
    A thread is the list of operations it has still to do; the locks are Go's sync.RWMutex, where a writer first
    announces itself, which turns new readers away, and then waits for the readers inside to leave. */
module PeerManager {
  import opened Common
  import opened Sums

  datatype LockName = Peers | Health

  datatype Lock = Lock(owner: Option<nat>, readers: set<nat>)

  datatype Locks = Locks(peers: Lock, health: Lock) {
    function Of(l: LockName): Lock {
      if l == Peers then peers else health
    }

    function With(l: LockName, lock: Lock): Locks {
      if l == Peers then this.(peers := lock) else this.(health := lock)
    }
  }

  datatype Op =
    | RLock(l: LockName)
    | RUnlock(l: LockName)
    | Announce(l: LockName)
    | Acquire(l: LockName)
    | Unlock(l: LockName)
    | Snapshot // copy the peers into a slice
    | Spawn // start one checker per copied peer
    | Gather // receive one result per checker
    | Merge(found: seq<string>, now: int) // add the discovered peers
    | DropStale(threshold: int)
    | DropOrphans // forget the health of unknown peers
    | CloseStop
    | WaitLoops

  datatype Todo = End | Do(op: Op, rest: Todo)

  /** How far a health checker has come; it holds the semaphore from Holding to Sent. */
  datatype Stage = Waiting | Holding | Answered(ok: bool) | Sent | Panicked | Done

  datatype Checker = Checker(id: string, stage: Stage)

  /** One run of checkPeerHealth: its checkers, the channel of capacity |checkers|, and the results taken from it. */
  datatype Round = Round(checkers: seq<Checker>, channel: seq<(string, bool)>, taken: nat)

  datatype Config = Config(self: string, workers: nat)

  datatype Manager = Manager(
    threads: seq<Todo>,
    exited: set<nat>,
    locks: Locks,
    peers: map<string, int>, // last seen
    health: map<string, bool>,
    copied: seq<string>,
    rounds: seq<Round>,
    stopping: bool) // the stop channel is closed or the context cancelled

  const DISCOVERY := 0
  const HEALTH := 1
  const MAINTENANCE := 2
  const STOPPER := 3

  // ---------------------------------------------------------------- the programs of the threads

  function DiscoverPeers(found: seq<string>, now: int): Todo {
    Do(Announce(Peers), Do(Acquire(Peers), Do(Merge(found, now), Do(Unlock(Peers), End))))
  }

  function CheckPeerHealth(): Todo {
    Do(RLock(Peers), Do(Snapshot, Do(RUnlock(Peers), Do(Spawn, CollectHealth()))))
  }

  function CollectHealth(): Todo {
    Do(Announce(Health), Do(Acquire(Health), Do(Gather, Do(Unlock(Health), End))))
  }

  /** removeStaleTimers, then logClusterStatus. */
  function PerformMaintenance(threshold: int): Todo {
    Do(Announce(Peers), Do(Acquire(Peers), Do(DropStale(threshold), CleanHealth())))
  }

  function CleanHealth(): Todo {
    Do(Announce(Health), Do(Acquire(Health), Do(DropOrphans, Do(Unlock(Health), Do(Unlock(Peers), LogStatus())))))
  }

  function LogStatus(): Todo {
    Do(RLock(Peers), Do(RUnlock(Peers), Read(Health)))
  }

  /** GetPeers, GetPeerHealth, and the locked part of FindPeersWithBlob. */
  function Read(l: LockName): Todo {
    Do(RLock(l), Do(RUnlock(l), End))
  }

  function Stop(): Todo {
    Do(CloseStop, Do(WaitLoops, End))
  }

  /** The operations of a program that are not about locks. */
  function Deeds(todo: Todo): seq<Op> {
    if todo.End? then []
    else if todo.op.RLock? || todo.op.RUnlock? || todo.op.Announce? || todo.op.Acquire? || todo.op.Unlock?
    then Deeds(todo.rest)
    else [todo.op] + Deeds(todo.rest)
  }

  ghost predicate ProgramOf(t: nat, program: Todo) {
    if t == DISCOVERY then exists found, now :: program == DiscoverPeers(found, now)
    else if t == HEALTH then program == CheckPeerHealth()
    else if t == MAINTENANCE then exists threshold :: program == PerformMaintenance(threshold)
    else if t == STOPPER then program == Stop()
    else exists l :: program == Read(l)
  }

  /** What the programs do: a discovery merges; a health check copies the peers, starts its checkers and gathers;
      maintenance drops stale peers and then orphaned rows; Stop closes the channel and waits. */
  lemma ProgramsDoTheirWork(found: seq<string>, now: int, threshold: int, l: LockName)
    ensures Deeds(DiscoverPeers(found, now)) == [Merge(found, now)]
    ensures Deeds(CheckPeerHealth()) == [Snapshot, Spawn, Gather]
    ensures Deeds(PerformMaintenance(threshold)) == [DropStale(threshold), DropOrphans]
    ensures Deeds(Stop()) == [CloseStop, WaitLoops]
    ensures Deeds(Read(l)) == []
  {
    var last := Do(Unlock(Health), Do(Unlock(Peers), LogStatus()));
    assert Deeds(Read(Health)) == [] && Deeds(LogStatus()) == [] && Deeds(last) == [];
    assert Deeds(CleanHealth()) == [DropOrphans];
    assert Deeds(CollectHealth()) == [Gather];
    assert Deeds(Do(RUnlock(Peers), Do(Spawn, CollectHealth()))) == [Spawn, Gather];
    assert Deeds(Do(Merge(found, now), Do(Unlock(Peers), End))) == [Merge(found, now)];
    assert Deeds(Do(Acquire(Peers), Do(DropStale(threshold), CleanHealth()))) == [DropStale(threshold), DropOrphans];
  }

  // ---------------------------------------------------------------- what a thread holds, read off its remaining operations

  predicate Owns(todo: Todo, l: LockName) {
    todo.Do? && todo.op != Announce(l) && (todo.op == Unlock(l) || Owns(todo.rest, l))
  }

  predicate Inside(todo: Todo, l: LockName) {
    todo.Do? && todo.op != Acquire(l) && (todo.op == Unlock(l) || Inside(todo.rest, l))
  }

  predicate Reads(todo: Todo, l: LockName) {
    todo.Do? && todo.op != RLock(l) && (todo.op == RUnlock(l) || Reads(todo.rest, l))
  }

  predicate Free(todo: Todo, l: LockName) {
    !Owns(todo, l) && !Reads(todo, l) && !Inside(todo, l)
  }

  predicate HoldsNothing(todo: Todo) {
    Free(todo, Peers) && Free(todo, Health)
  }

  predicate LeavesHealthInsidePeers(todo: Todo) {
    todo.Do? && todo.op == Unlock(Health) && Inside(todo, Peers)
  }

  predicate SameHold(a: Todo, b: Todo, l: LockName) {
    Owns(a, l) == Owns(b, l) && Inside(a, l) == Inside(b, l) && Reads(a, l) == Reads(b, l)
  }

  /** The locking discipline: balanced, the peer lock before the health lock, and data touched only under its lock. */
  predicate Disciplined(todo: Todo) {
    todo.End? ||
    var Do(op, rest) := todo;
    && Disciplined(rest)
    && (LeavesHealthInsidePeers(rest) ==> op == DropOrphans)
    && match op
       case RLock(l) => Reads(rest, l) && !Owns(rest, l) && !Inside(rest, l) && (l == Peers ==> Free(rest, Health))
       case RUnlock(l) => Free(rest, l)
       case Announce(l) =>
         && rest.Do? && rest.op == Acquire(l)
         && Owns(rest, l) && !Reads(rest, l) && (l == Peers ==> Free(rest, Health))
       case Acquire(l) => Owns(rest, l) && Inside(rest, l) && !Reads(rest, l) && (l == Peers ==> Free(rest, Health))
       case Unlock(l) => Free(rest, l)
       case Snapshot => Reads(rest, Peers)
       case Spawn => HoldsNothing(rest)
       case Gather => Inside(rest, Health) && !Inside(rest, Peers)
       case Merge(_, _) => Inside(rest, Peers)
       case DropStale(_) => Inside(rest, Peers)
       case DropOrphans => Inside(rest, Peers) && Inside(rest, Health)
       case CloseStop => HoldsNothing(rest)
       case WaitLoops => HoldsNothing(rest)
  }

  lemma ReadIsDisciplined(l: LockName)
    ensures Disciplined(Read(l)) && HoldsNothing(Read(l))
  {
    var last := Do(RUnlock(l), End);
    forall k: LockName
      ensures !Owns(last, k) && !Inside(last, k) && (Reads(last, k) <==> k == l)
    {
      assert Free(End, k);
    }
    assert Disciplined(End) && Disciplined(last);
  }

  lemma LockIsDisciplined(l: LockName, body: Todo)
    requires Disciplined(body) && Owns(body, l) && Inside(body, l) && !Reads(body, l)
    requires l == Peers ==> Free(body, Health)
    requires !LeavesHealthInsidePeers(body)
    ensures var todo := Do(Announce(l), Do(Acquire(l), body));
            && Disciplined(todo) && Free(todo, l)
            && forall k | k != l :: SameHold(todo, body, k)
  {
    var acquiring := Do(Acquire(l), body);
    HeldSame(Acquire(l), body, l);
    assert Owns(acquiring, l) && !Inside(acquiring, l) && !Reads(acquiring, l);
    assert !LeavesHealthInsidePeers(acquiring) && Disciplined(acquiring);
    var todo := Do(Announce(l), acquiring);
    HeldSame(Announce(l), acquiring, l);
    assert Free(todo, l) && Disciplined(todo);
    forall k | k != l
      ensures SameHold(todo, body, k)
    {
      assert SameHold(acquiring, body, k) && SameHold(todo, acquiring, k);
    }
  }

  /** Taking one lock does not change what is held of the other. */
  lemma HeldSame(op: Op, rest: Todo, l: LockName)
    requires op == Acquire(l) || op == Announce(l)
    ensures forall k | k != l :: SameHold(Do(op, rest), rest, k)
  {
  }

  lemma DiscoveryIsDisciplined(found: seq<string>, now: int)
    ensures Disciplined(DiscoverPeers(found, now)) && HoldsNothing(DiscoverPeers(found, now))
  {
    var last := Do(Unlock(Peers), End);
    assert Disciplined(last) && Free(last, Health);
    LockIsDisciplined(Peers, Do(Merge(found, now), last));
  }

  lemma HealthCheckIsDisciplined()
    ensures Disciplined(CheckPeerHealth()) && HoldsNothing(CheckPeerHealth())
  {
    var last := Do(Unlock(Health), End);
    assert Disciplined(last) && Free(last, Peers);
    LockIsDisciplined(Health, Do(Gather, last));
    assert Disciplined(Do(RUnlock(Peers), Do(Spawn, CollectHealth())));
  }

  lemma LogStatusIsDisciplined()
    ensures Disciplined(LogStatus()) && HoldsNothing(LogStatus())
  {
    ReadIsDisciplined(Health);
    assert Disciplined(Do(RUnlock(Peers), Read(Health)));
  }

  lemma CleaningIsDisciplined()
    ensures var todo := CleanHealth();
            && Disciplined(todo) && Owns(todo, Peers) && Inside(todo, Peers) && !Reads(todo, Peers)
            && Free(todo, Health) && !LeavesHealthInsidePeers(todo)
  {
    LogStatusIsDisciplined();
    var outer := Do(Unlock(Peers), LogStatus());
    assert Disciplined(outer) && Inside(outer, Peers) && Owns(outer, Peers) && !Reads(outer, Peers) && Free(outer, Health);
    var last := Do(Unlock(Health), outer);
    assert Disciplined(last) && Inside(last, Peers) && Owns(last, Peers) && !Reads(last, Peers);
    LockIsDisciplined(Health, Do(DropOrphans, last));
  }

  lemma MaintenanceIsDisciplined(threshold: int)
    ensures Disciplined(PerformMaintenance(threshold)) && HoldsNothing(PerformMaintenance(threshold))
  {
    CleaningIsDisciplined();
    LockIsDisciplined(Peers, Do(DropStale(threshold), CleanHealth()));
  }

  lemma ProgramsAreDisciplined(t: nat, program: Todo)
    requires ProgramOf(t, program)
    ensures Disciplined(program) && HoldsNothing(program)
  {
    if t == DISCOVERY {
      var found, now :| program == DiscoverPeers(found, now);
      DiscoveryIsDisciplined(found, now);
    } else if t == HEALTH {
      HealthCheckIsDisciplined();
    } else if t == MAINTENANCE {
      var threshold :| program == PerformMaintenance(threshold);
      MaintenanceIsDisciplined(threshold);
    } else if t != STOPPER {
      var l :| program == Read(l);
      ReadIsDisciplined(l);
    }
  }

  /** Only the health loop copies, spawns and gathers, and only Stop waits for the loops. */
  predicate Suits(t: nat, todo: Todo) {
    todo.Do? ==>
      && (todo.op in {Snapshot, Spawn, Gather} ==> t == HEALTH)
      && (todo.op == WaitLoops ==> t == STOPPER)
      && Suits(t, todo.rest)
  }

  lemma ProgramsSuit(t: nat, program: Todo)
    requires ProgramOf(t, program)
    ensures Suits(t, program)
    ensures t == HEALTH ==> !NeedsRound(program)
    ensures t == STOPPER ==> !NeedsStop(program)
  {
    if t == DISCOVERY {
      var found, now :| program == DiscoverPeers(found, now);
      assert Suits(t, Do(Merge(found, now), Do(Unlock(Peers), End)));
    } else if t == HEALTH {
      HealthCheckSuits();
    } else if t == MAINTENANCE {
      var threshold :| program == PerformMaintenance(threshold);
      MaintenanceSuits(t, threshold);
    } else if t != STOPPER {
      var l :| program == Read(l);
    }
  }

  lemma HealthCheckSuits()
    ensures Suits(HEALTH, CheckPeerHealth()) && !NeedsRound(CheckPeerHealth())
  {
    assert Suits(HEALTH, Do(Gather, Do(Unlock(Health), End)));
    assert Suits(HEALTH, CollectHealth());
    assert Suits(HEALTH, Do(RUnlock(Peers), Do(Spawn, CollectHealth())));
    assert !NeedsRound(Do(RUnlock(Peers), Do(Spawn, CollectHealth())));
  }

  lemma MaintenanceSuits(t: nat, threshold: int)
    ensures Suits(t, PerformMaintenance(threshold))
  {
    CleaningSuits(t);
    assert Suits(t, Do(Acquire(Peers), Do(DropStale(threshold), CleanHealth())));
  }

  lemma CleaningSuits(t: nat)
    ensures Suits(t, CleanHealth())
  {
    assert Suits(t, Read(Health)) && Suits(t, Do(RUnlock(Peers), Read(Health)));
    assert Suits(t, LogStatus()) && Suits(t, Do(Unlock(Peers), LogStatus()));
    var last := Do(Unlock(Health), Do(Unlock(Peers), LogStatus()));
    assert Suits(t, last) && Suits(t, Do(DropOrphans, last)) && Suits(t, Do(Acquire(Health), Do(DropOrphans, last)));
  }

  /** A gather comes up before any spawn: its round is already there. */
  predicate NeedsRound(todo: Todo) {
    todo.Do? && todo.op != Spawn && (todo.op == Gather || NeedsRound(todo.rest))
  }

  predicate NeedsStop(todo: Todo) {
    todo.Do? && todo.op != CloseStop && (todo.op == WaitLoops || NeedsStop(todo.rest))
  }

  // ---------------------------------------------------------------- steps

  datatype Action = TakePermit | Answer(ok: bool) | Panic | Send | Release

  datatype Step =
    | Start(t: nat, program: Todo) // a ticker fires, or a request comes in
    | Exec(t: nat, order: seq<string>) // the next operation; order is the map iteration of a snapshot
    | GiveUp(t: nat) // gathering ends early because of the stop
    | Exit(t: nat) // an idle loop sees the stop
    | Check(round: nat, i: nat, action: Action)
    | Cancel

  function UnsentWeight(c: Checker): nat {
    if c.stage in {Sent, Done} then 0 else 1
  }

  function PermitWeight(c: Checker): nat {
    if c.stage.Holding? || c.stage.Answered? || c.stage.Sent? then 1 else 0
  }

  function Permits(r: Round): nat {
    Sum(r.checkers, PermitWeight)
  }

  function Unsent(r: Round): nat {
    Sum(r.checkers, UnsentWeight)
  }

  predicate ActionEnabled(cfg: Config, r: Round, i: nat, action: Action) {
    && i < |r.checkers|
    && var stage := r.checkers[i].stage;
       match action
       case TakePermit => stage == Waiting && Permits(r) < cfg.workers
       case Answer(_) => stage == Holding
       case Panic => stage == Holding
       case Send => (stage.Answered? || stage == Panicked) && |r.channel| < |r.checkers|
       case Release => stage == Sent
  }

  function Acted(r: Round, i: nat, action: Action): Round
    requires i < |r.checkers|
    requires action == Send ==> r.checkers[i].stage.Answered? || r.checkers[i].stage == Panicked
  {
    var c := r.checkers[i];
    var stage :=
      match action
      case TakePermit => Holding
      case Answer(ok) => Answered(ok)
      case Panic => Panicked // the deferred release runs before the recovery sends
      case Send => if c.stage == Panicked then Done else Sent
      case Release => Done;
    r.(checkers := r.checkers[i := c.(stage := stage)],
       channel := if action == Send then r.channel + [(c.id, c.stage.Answered? && c.stage.ok)] else r.channel)
  }

  predicate OpEnabled(m: Manager, t: nat, op: Op, order: seq<string>) {
    match op
    case RLock(l) => m.locks.Of(l).owner.None?
    case Announce(l) => m.locks.Of(l).owner.None?
    case Acquire(l) => m.locks.Of(l).readers == {}
    case Snapshot => multiset(order) == multiset(m.peers.Keys)
    case Gather => m.rounds != [] && (var r := m.rounds[|m.rounds| - 1]; r.taken == |r.checkers| || r.channel != [])
    case WaitLoops => {DISCOVERY, HEALTH, MAINTENANCE} <= m.exited
    case _ => true
  }

  ghost predicate Enabled(cfg: Config, m: Manager, step: Step) {
    match step
    case Start(t, program) =>
      && t <= |m.threads| && t !in m.exited && (t < |m.threads| ==> m.threads[t] == End)
      && ProgramOf(t, program)
    case Exec(t, order) => t < |m.threads| && m.threads[t].Do? && OpEnabled(m, t, m.threads[t].op, order)
    case GiveUp(t) => t < |m.threads| && m.threads[t].Do? && m.threads[t].op == Gather && m.stopping
    case Exit(t) => t < STOPPER && t < |m.threads| && m.threads[t] == End && m.stopping && t !in m.exited
    case Check(r, i, action) => r < |m.rounds| && ActionEnabled(cfg, m.rounds[r], i, action)
    case Cancel => true
  }

  function LocksAfter(locks: Locks, t: nat, op: Op): Locks {
    match op
    case RLock(l) => locks.With(l, locks.Of(l).(readers := locks.Of(l).readers + {t}))
    case RUnlock(l) => locks.With(l, locks.Of(l).(readers := locks.Of(l).readers - {t}))
    case Announce(l) => locks.With(l, locks.Of(l).(owner := Some(t)))
    case Unlock(l) => locks.With(l, locks.Of(l).(owner := None))
    case _ => locks
  }

  /** The loop of discoverPeers: every discovered peer but the node itself is seen now. */
  function AddPeers(self: string, peers: map<string, int>, found: seq<string>, now: int): map<string, int>
    decreases |found|
  {
    if found == [] then peers
    else AddPeers(self, if found[0] == self then peers else peers[found[0] := now], found[1..], now)
  }

  /** Who was found, and is not the node itself, is known afterwards and seen now; the others are as they were. */
  lemma {:induction false} FoundPeersAreSeenNow(self: string, peers: map<string, int>, found: seq<string>, now: int)
    ensures var peers' := AddPeers(self, peers, found, now);
            && (forall id :: id in peers' <==> id in peers || (id in found && id != self))
            && (forall id | id in peers' :: peers'[id] == if id in found && id != self then now else peers[id])
    decreases |found|
  {
    if found != [] {
      var peers1 := if found[0] == self then peers else peers[found[0] := now];
      FoundPeersAreSeenNow(self, peers1, found[1..], now);
      assert AddPeers(self, peers, found, now) == AddPeers(self, peers1, found[1..], now);
      assert found == [found[0]] + found[1..];
    }
  }

  function WithoutStale(peers: map<string, int>, threshold: int): map<string, int> {
    map id | id in peers && peers[id] >= threshold :: peers[id]
  }

  function WithoutOrphans(health: map<string, bool>, peers: map<string, int>): map<string, bool> {
    map id | id in health && id in peers :: health[id]
  }

  function NewRound(copied: seq<string>): Round {
    Round(seq(|copied|, i requires 0 <= i < |copied| => Checker(copied[i], Waiting)), [], 0)
  }

  /** What an operation does besides locking. */
  function DataAfter(cfg: Config, m: Manager, op: Op, order: seq<string>): Manager {
    match op
    case Snapshot => m.(copied := order)
    case Spawn => m.(rounds := m.rounds + [NewRound(m.copied)])
    case Merge(found, now) => m.(peers := AddPeers(cfg.self, m.peers, found, now))
    case DropStale(threshold) => m.(peers := WithoutStale(m.peers, threshold))
    case DropOrphans => m.(health := WithoutOrphans(m.health, m.peers))
    case CloseStop => m.(stopping := true)
    case _ => m
  }

  /** Gather receives one result at a time, and leaves when it has them all. */
  predicate Receives(m: Manager, op: Op) {
    op == Gather && m.rounds != [] && (var r := m.rounds[|m.rounds| - 1]; r.taken != |r.checkers| && r.channel != [])
  }

  function Received(m: Manager): Manager
    requires Receives(m, Gather)
  {
    var r := m.rounds[|m.rounds| - 1];
    m.(health := m.health[r.channel[0].0 := r.channel[0].1],
       rounds := m.rounds[|m.rounds| - 1 := r.(channel := r.channel[1..], taken := r.taken + 1)])
  }

  ghost function Next(cfg: Config, m: Manager, step: Step): Manager
    requires Enabled(cfg, m, step)
  {
    match step
    case Start(t, program) =>
      m.(threads := if t < |m.threads| then m.threads[t := program] else m.threads + [program])
    case Exec(t, order) =>
      var Do(op, rest) := m.threads[t];
      if Receives(m, op) then Received(m)
      else DataAfter(cfg, m, op, order).(threads := m.threads[t := rest], locks := LocksAfter(m.locks, t, op))
    case GiveUp(t) => m.(threads := m.threads[t := m.threads[t].rest])
    case Exit(t) => m.(exited := m.exited + {t})
    case Check(r, i, action) => m.(rounds := m.rounds[r := Acted(m.rounds[r], i, action)])
    case Cancel => m.(stopping := true)
  }

  /** What the operations do to the tables, and that no others change them. */
  lemma OperationsDoTheirWork(cfg: Config, m: Manager, t: nat, order: seq<string>)
    requires Enabled(cfg, m, Exec(t, order)) && !Receives(m, m.threads[t].op)
    ensures var m', op := Next(cfg, m, Exec(t, order)), m.threads[t].op;
            && (op.DropStale? ==> forall id ::
                  (id in m'.peers <==> id in m.peers && m.peers[id] >= op.threshold)
                  && (id in m'.peers ==> m'.peers[id] == m.peers[id]))
            && (op == DropOrphans ==> forall id ::
                  (id in m'.health <==> id in m.health && id in m.peers)
                  && (id in m'.health ==> m'.health[id] == m.health[id]))
            && (op.Merge? ==> forall id ::
                  (id in m'.peers <==> id in m.peers || (id in op.found && id != cfg.self))
                  && (id in m'.peers ==> m'.peers[id] == if id in op.found && id != cfg.self then op.now else m.peers[id]))
            && (op == CloseStop ==> m'.stopping)
            && (!op.Merge? && !op.DropStale? ==> m'.peers == m.peers)
            && (op != DropOrphans ==> m'.health == m.health)
  {
    var op := m.threads[t].op;
    if op.Merge? {
      FoundPeersAreSeenNow(cfg.self, m.peers, op.found, op.now);
    }
  }

  const FREE := Lock(None, {})

  const INITIAL := Manager([End, End, End, End], {}, Locks(FREE, FREE), map[], map[], [], [], false)

  // ---------------------------------------------------------------- the invariant

  /** A lock knows its owner and its readers. */
  ghost predicate KnowsHolder(threads: seq<Todo>, locks: Locks, l: LockName, t: nat) {
    && (locks.Of(l).owner == Some(t) <==> t < |threads| && Owns(threads[t], l))
    && (t in locks.Of(l).readers <==> t < |threads| && Reads(threads[t], l))
  }

  /** Whoever got past Acquire is alone. */
  ghost predicate AloneInside(threads: seq<Todo>, locks: Locks, l: LockName, t: nat) {
    t < |threads| && Inside(threads[t], l) ==> Owns(threads[t], l) && locks.Of(l).readers == {}
  }

  ghost predicate LocksMatch(threads: seq<Todo>, locks: Locks) {
    forall l: LockName, t: nat :: KnowsHolder(threads, locks, l, t)
  }

  ghost predicate Exclusive(threads: seq<Todo>, locks: Locks) {
    forall l: LockName, t: nat :: AloneInside(threads, locks, l, t)
  }

  ghost predicate ThreadsOk(m: Manager) {
    && |m.threads| > STOPPER
    && (forall t: nat | t < |m.threads| :: Disciplined(m.threads[t]) && Suits(t, m.threads[t]))
    && (NeedsRound(m.threads[HEALTH]) ==> m.rounds != [])
    && (NeedsStop(m.threads[STOPPER]) ==> m.stopping)
  }

  ghost predicate RoundOk(cfg: Config, r: Round) {
    && |r.channel| + r.taken + Unsent(r) == |r.checkers|
    && Permits(r) <= cfg.workers
    && (forall c | c in r.checkers :: c.id != cfg.self)
    && (forall result | result in r.channel :: result.0 != cfg.self)
  }

  ghost predicate RoundsOk(cfg: Config, m: Manager) {
    forall r | r in m.rounds :: RoundOk(cfg, r)
  }

  ghost predicate NeverSelf(cfg: Config, m: Manager) {
    cfg.self !in m.peers && cfg.self !in m.copied && cfg.self !in m.health
  }

  /** When maintenance lets go of the health lock, every health row belongs to a known peer. */
  ghost predicate CleanedUp(m: Manager) {
    forall t: nat | t < |m.threads| && LeavesHealthInsidePeers(m.threads[t]) :: m.health.Keys <= m.peers.Keys
  }

  ghost predicate Inv(cfg: Config, m: Manager) {
    && ThreadsOk(m)
    && LocksMatch(m.threads, m.locks)
    && Exclusive(m.threads, m.locks)
    && RoundsOk(cfg, m)
    && NeverSelf(cfg, m)
    && CleanedUp(m)
  }

  lemma InitialInv(cfg: Config)
    ensures Inv(cfg, INITIAL)
  {
    forall l: LockName, t: nat
      ensures KnowsHolder(INITIAL.threads, INITIAL.locks, l, t) && AloneInside(INITIAL.threads, INITIAL.locks, l, t)
    {
      assert Free(End, l);
    }
  }

  ghost predicate LockFree(threads: seq<Todo>, locks: Locks, t: nat) {
    && t < |threads| && threads[t].Do? && Disciplined(threads[t])
    && LocksMatch(threads, locks) && Exclusive(threads, locks)
    && match threads[t].op
       case RLock(l) => locks.Of(l).owner.None?
       case Announce(l) => locks.Of(l).owner.None?
       case Acquire(l) => locks.Of(l).readers == {}
       case _ => true
  }

  /** Locks follow what the threads still have to do. */
  lemma LocksFollow(threads: seq<Todo>, locks: Locks, t: nat)
    requires LockFree(threads, locks, t)
    ensures LocksMatch(threads[t := threads[t].rest], LocksAfter(locks, t, threads[t].op))
  {
    var todo := threads[t];
    var threads', locks' := threads[t := todo.rest], LocksAfter(locks, t, todo.op);
    forall l: LockName, u: nat
      ensures KnowsHolder(threads', locks', l, u)
    {
      assert KnowsHolder(threads, locks, l, u);
      assert KnowsHolder(threads, locks, l, t);
    }
  }

  lemma ExclusionFollows(threads: seq<Todo>, locks: Locks, t: nat)
    requires LockFree(threads, locks, t)
    ensures Exclusive(threads[t := threads[t].rest], LocksAfter(locks, t, threads[t].op))
  {
    var todo := threads[t];
    var threads', locks' := threads[t := todo.rest], LocksAfter(locks, t, todo.op);
    forall l: LockName, u: nat
      ensures AloneInside(threads', locks', l, u)
    {
      assert AloneInside(threads, locks, l, u);
      assert KnowsHolder(threads, locks, l, u);
      assert KnowsHolder(threads, locks, l, t);
    }
  }

  // ---------------------------------------------------------------- preservation

  lemma ActionKeepsRound(cfg: Config, r: Round, i: nat, action: Action)
    requires RoundOk(cfg, r) && ActionEnabled(cfg, r, i, action)
    ensures RoundOk(cfg, Acted(r, i, action))
  {
    var c := Acted(r, i, action).checkers[i];
    SumUpdate(r.checkers, i, c, UnsentWeight);
    SumUpdate(r.checkers, i, c, PermitWeight);
    assert r.checkers[i] in r.checkers;
  }

  lemma NewRoundOk(cfg: Config, copied: seq<string>)
    requires cfg.self !in copied
    ensures RoundOk(cfg, NewRound(copied))
  {
    var r := NewRound(copied);
    SumOfEquals(r.checkers, UnsentWeight, 1);
    SumOfZeros(r.checkers, PermitWeight);
  }

  lemma {:induction false} AddPeersNeverSelf(self: string, peers: map<string, int>, found: seq<string>, now: int)
    requires self !in peers
    ensures self !in AddPeers(self, peers, found, now)
    ensures forall id :: id in AddPeers(self, peers, found, now) <==> id in peers || (id in found && id != self)
    ensures forall id | id in AddPeers(self, peers, found, now) ::
              AddPeers(self, peers, found, now)[id] == if id in found then now else peers[id]
    decreases |found|
  {
    if found != [] {
      AddPeersNeverSelf(self, if found[0] == self then peers else peers[found[0] := now], found[1..], now);
    }
  }

  ghost predicate ExecReady(cfg: Config, m: Manager, t: nat, order: seq<string>) {
    Inv(cfg, m) && Enabled(cfg, m, Exec(t, order))
  }

  lemma ExecKeepsLocks(cfg: Config, m: Manager, t: nat, order: seq<string>)
    requires ExecReady(cfg, m, t, order)
    ensures var m' := Next(cfg, m, Exec(t, order));
            LocksMatch(m'.threads, m'.locks) && Exclusive(m'.threads, m'.locks)
  {
    LocksFollow(m.threads, m.locks, t);
    ExclusionFollows(m.threads, m.locks, t);
  }

  lemma ExecKeepsThreads(cfg: Config, m: Manager, t: nat, order: seq<string>)
    requires ExecReady(cfg, m, t, order)
    ensures ThreadsOk(Next(cfg, m, Exec(t, order)))
  {
  }

  lemma ExecKeepsRounds(cfg: Config, m: Manager, t: nat, order: seq<string>)
    requires ExecReady(cfg, m, t, order)
    ensures RoundsOk(cfg, Next(cfg, m, Exec(t, order)))
  {
    var op := m.threads[t].op;
    if op == Spawn {
      NewRoundOk(cfg, m.copied);
    } else if Receives(m, op) {
      var last := m.rounds[|m.rounds| - 1];
      assert last in m.rounds;
      assert forall result | result in last.channel[1..] :: result in last.channel;
    }
  }

  lemma ExecNeverSelf(cfg: Config, m: Manager, t: nat, order: seq<string>)
    requires ExecReady(cfg, m, t, order)
    ensures NeverSelf(cfg, Next(cfg, m, Exec(t, order)))
  {
    var op := m.threads[t].op;
    if op.Merge? {
      AddPeersNeverSelf(cfg.self, m.peers, op.found, op.now);
    } else if op == Snapshot {
      assert forall id :: id in order <==> id in multiset(order);
    } else if Receives(m, op) {
      var last := m.rounds[|m.rounds| - 1];
      assert last in m.rounds && last.channel[0] in last.channel;
    }
  }

  /** Two threads are never inside the same lock. */
  lemma OneInside(m: Manager, l: LockName, t: nat, u: nat)
    requires LocksMatch(m.threads, m.locks) && Exclusive(m.threads, m.locks)
    requires t < |m.threads| && u < |m.threads| && Inside(m.threads[t], l)
    requires Inside(m.threads[u], l) || Owns(m.threads[u], l) || Reads(m.threads[u], l)
    ensures t == u
  {
    assert AloneInside(m.threads, m.locks, l, t) && AloneInside(m.threads, m.locks, l, u);
    assert KnowsHolder(m.threads, m.locks, l, t) && KnowsHolder(m.threads, m.locks, l, u);
  }

  lemma ExecKeepsClean(cfg: Config, m: Manager, t: nat, order: seq<string>)
    requires ExecReady(cfg, m, t, order)
    ensures CleanedUp(Next(cfg, m, Exec(t, order)))
  {
    var m' := Next(cfg, m, Exec(t, order));
    var op := m.threads[t].op;
    forall u: nat | u < |m'.threads| && LeavesHealthInsidePeers(m'.threads[u])
      ensures m'.health.Keys <= m'.peers.Keys
    {
      if u != t || Receives(m, op) {
        if op.Merge? || op.DropStale? {
          OneInside(m, Peers, u, t);
        } else if op == Gather || op == DropOrphans {
          OneInside(m, Health, t, u);
        }
      }
    }
  }

  lemma OtherStepKeepsInv(cfg: Config, m: Manager, step: Step)
    requires !step.Exec? && Enabled(cfg, m, step) && Inv(cfg, m)
    ensures Inv(cfg, Next(cfg, m, step))
  {
    var m' := Next(cfg, m, step);
    match step
    case Start(t, program) =>
      ProgramsAreDisciplined(t, program);
      ProgramsSuit(t, program);
      forall l: LockName, u: nat
        ensures KnowsHolder(m'.threads, m'.locks, l, u) && AloneInside(m'.threads, m'.locks, l, u)
      {
        assert KnowsHolder(m.threads, m.locks, l, u) && AloneInside(m.threads, m.locks, l, u);
        assert Free(program, l) && Free(End, l);
      }
    case GiveUp(t) =>
      LocksFollow(m.threads, m.locks, t);
      ExclusionFollows(m.threads, m.locks, t);
    case Check(r, i, action) =>
      ActionKeepsRound(cfg, m.rounds[r], i, action);
    case _ =>
  }

  /** Every interleaving of discovery, health checks, maintenance, readers, checkers and a stop keeps the invariant. */
  lemma StepKeepsInv(cfg: Config, m: Manager, step: Step)
    requires Enabled(cfg, m, step) && Inv(cfg, m)
    ensures Inv(cfg, Next(cfg, m, step))
  {
    if step.Exec? {
      ExecKeepsLocks(cfg, m, step.t, step.order);
      ExecKeepsThreads(cfg, m, step.t, step.order);
      ExecKeepsRounds(cfg, m, step.t, step.order);
      ExecNeverSelf(cfg, m, step.t, step.order);
      ExecKeepsClean(cfg, m, step.t, step.order);
    } else {
      OtherStepKeepsInv(cfg, m, step);
    }
  }

  ghost predicate Run(cfg: Config, m: Manager, steps: seq<Step>)
    decreases |steps|
  {
    steps != [] ==> Enabled(cfg, m, steps[0]) && Run(cfg, Next(cfg, m, steps[0]), steps[1..])
  }

  ghost function Final(cfg: Config, m: Manager, steps: seq<Step>): Manager
    requires Run(cfg, m, steps)
    decreases |steps|
  {
    if steps == [] then m else Final(cfg, Next(cfg, m, steps[0]), steps[1..])
  }

  lemma {:induction false} RunKeepsInv(cfg: Config, m: Manager, steps: seq<Step>)
    requires Inv(cfg, m) && Run(cfg, m, steps)
    ensures Inv(cfg, Final(cfg, m, steps))
    decreases |steps|
  {
    if steps != [] {
      StepKeepsInv(cfg, m, steps[0]);
      RunKeepsInv(cfg, Next(cfg, m, steps[0]), steps[1..]);
    }
  }

  /** The checkers that hold a permit of the semaphore: they ask, or they have their answer and did not let go yet. */
  function Holders(r: Round): set<int> {
    set i | 0 <= i < |r.checkers| &&
            (r.checkers[i].stage == Holding || r.checkers[i].stage.Answered? || r.checkers[i].stage == Sent)
  }

  lemma PermitsAreHeld(r: Round)
    ensures Permits(r) == |Holders(r)|
  {
    SumCountsOnes(r.checkers, PermitWeight);
    assert Holders(r) == Ones(r.checkers, PermitWeight);
  }

  /** What holds in every state the manager can reach. */
  lemma ReachableStates(cfg: Config, steps: seq<Step>)
    requires Run(cfg, INITIAL, steps)
    ensures var m := Final(cfg, INITIAL, steps);
            && (forall r | r in m.rounds :: |Holders(r)| <= cfg.workers && |r.channel| <= |r.checkers|)
            && cfg.self !in m.peers && cfg.self !in m.health
            && (forall t: nat | t < |m.threads| && LeavesHealthInsidePeers(m.threads[t]) ::
                  m.health.Keys <= m.peers.Keys)
  {
    InitialInv(cfg);
    RunKeepsInv(cfg, INITIAL, steps);
    forall r | r in Final(cfg, INITIAL, steps).rounds
      ensures |Holders(r)| <= cfg.workers
    {
      PermitsAreHeld(r);
    }
  }

  // ---------------------------------------------------------------- threads run their programs

  function Ops(todo: Todo): seq<Op> {
    if todo.End? then [] else [todo.op] + Ops(todo.rest)
  }

  /** What a thread still has to do. */
  function ToDo(m: Manager, t: nat): seq<Op> {
    if t < |m.threads| then Ops(m.threads[t]) else []
  }

  /** The operations of all programs that were started in a thread. */
  function Started(steps: seq<Step>, t: nat): seq<Op> {
    if steps == [] then []
    else (if steps[0].Start? && steps[0].t == t then Ops(steps[0].program) else []) + Started(steps[1..], t)
  }

  /** The operations that a thread completes in a run: a gathering is complete when it has all results, or gives up. */
  ghost function Performed(cfg: Config, m: Manager, steps: seq<Step>, t: nat): seq<Op>
    requires Run(cfg, m, steps)
    decreases |steps|
  {
    if steps == [] then []
    else
      var later := Performed(cfg, Next(cfg, m, steps[0]), steps[1..], t);
      match steps[0]
      case Exec(u, _) => if u == t && !Receives(m, m.threads[t].op) then [m.threads[t].op] + later else later
      case GiveUp(u) => if u == t then [Gather] + later else later
      case _ => later
  }

  /** Over any run, what a thread had to do and what was started in it is what it has performed and has still to do, in
      this order: no operation is skipped, repeated or swapped. */
  lemma {:induction false} ThreadsRunTheirPrograms(cfg: Config, m: Manager, steps: seq<Step>, t: nat)
    requires Run(cfg, m, steps)
    ensures ToDo(m, t) + Started(steps, t) == Performed(cfg, m, steps, t) + ToDo(Final(cfg, m, steps), t)
    decreases |steps|
  {
    if steps != [] {
      var m' := Next(cfg, m, steps[0]);
      ThreadsRunTheirPrograms(cfg, m', steps[1..], t);
      var begun := if steps[0].Start? && steps[0].t == t then Ops(steps[0].program) else [];
      var done := StepPerforms(cfg, m, steps, t);
      Chain(ToDo(m, t), begun, Started(steps[1..], t), done, ToDo(m', t), Performed(cfg, m', steps[1..], t),
            ToDo(Final(cfg, m', steps[1..]), t));
    }
  }

  lemma Chain<T>(todo: seq<T>, begun: seq<T>, later: seq<T>, done: seq<T>, todo': seq<T>, performed: seq<T>, end: seq<T>)
    requires todo + begun == done + todo' && todo' + later == performed + end
    ensures todo + (begun + later) == done + performed + end
  {
    assert todo + (begun + later) == todo + begun + later;
    assert done + todo' + later == done + (todo' + later);
    assert done + (performed + end) == done + performed + end;
  }

  lemma StepPerforms(cfg: Config, m: Manager, steps: seq<Step>, t: nat) returns (done: seq<Op>)
    requires Run(cfg, m, steps) && steps != []
    ensures var m' := Next(cfg, m, steps[0]);
            && ToDo(m, t) + (if steps[0].Start? && steps[0].t == t then Ops(steps[0].program) else []) == done + ToDo(m', t)
            && Performed(cfg, m, steps, t) == done + Performed(cfg, m', steps[1..], t)
  {
    var step := steps[0];
    done := if step.Exec? && step.t == t && !Receives(m, m.threads[t].op) then [m.threads[t].op]
            else if step.GiveUp? && step.t == t then [Gather] else [];
  }

  /** A checker that has a result can send it at once: the channel never fills up. */
  lemma NoSenderBlocks(cfg: Config, m: Manager, r: nat, i: nat)
    requires Inv(cfg, m) && r < |m.rounds| && i < |m.rounds[r].checkers|
    requires m.rounds[r].checkers[i].stage.Answered? || m.rounds[r].checkers[i].stage == Panicked
    ensures Enabled(cfg, m, Check(r, i, Send))
  {
    assert m.rounds[r] in m.rounds;
    SumAtLeast(m.rounds[r].checkers, i, UnsentWeight);
  }

  predicate TouchesPeers(op: Op) {
    op == Snapshot || op.Merge? || op.DropStale? || op == DropOrphans
  }

  /** While a thread is about to change the peers, no other thread is about to look at them or inside their lock. */
  lemma PeersAreWrittenAlone(cfg: Config, m: Manager, t: nat, u: nat)
    requires Inv(cfg, m) && t < |m.threads| && u < |m.threads| && t != u
    requires m.threads[t].Do? && (m.threads[t].op.Merge? || m.threads[t].op.DropStale?)
    ensures !Inside(m.threads[u], Peers) && !Reads(m.threads[u], Peers)
    ensures m.threads[u].Do? ==> !TouchesPeers(m.threads[u].op)
  {
    if Inside(m.threads[u], Peers) || Reads(m.threads[u], Peers) {
      OneInside(m, Peers, t, u);
    }
  }

  // ---------------------------------------------------------------- no deadlock

  /** Steps that carry on what was started: nothing new begins, and no checker panics. */
  predicate Continues(step: Step) {
    !step.Start? && !step.Cancel? && (step.Check? ==> step.action != Panic)
  }

  ghost predicate CanContinue(cfg: Config, m: Manager) {
    exists step :: Continues(step) && Enabled(cfg, m, step)
  }

  /** Nothing is under way: every operation has returned, every checker has ended, and after a stop every loop is gone. */
  ghost predicate Quiet(m: Manager) {
    && (forall t: nat | t < |m.threads| :: m.threads[t] == End)
    && (forall r | r in m.rounds :: forall c | c in r.checkers :: c.stage == Done)
    && (m.stopping ==> forall t: nat | t < STOPPER && t < |m.threads| :: t in m.exited)
  }

  lemma CheckersContinue(cfg: Config, m: Manager, r: nat, i: nat)
    requires Inv(cfg, m) && cfg.workers >= 1
    requires r < |m.rounds| && i < |m.rounds[r].checkers| && m.rounds[r].checkers[i].stage != Done
    ensures CanContinue(cfg, m)
  {
    var round := m.rounds[r];
    if j: nat :| j < |round.checkers| && round.checkers[j].stage !in {Waiting, Done} {
      var stage := round.checkers[j].stage;
      if stage.Answered? || stage == Panicked {
        NoSenderBlocks(cfg, m, r, j);
      }
      var action := if stage == Holding then Answer(true) else if stage == Sent then Release else Send;
      assert Enabled(cfg, m, Check(r, j, action));
    } else {
      SumOfZeros(round.checkers, PermitWeight);
      assert Enabled(cfg, m, Check(r, i, TakePermit));
    }
  }

  ghost predicate CheckersDone(m: Manager) {
    forall r | r in m.rounds :: forall c | c in r.checkers :: c.stage == Done
  }

  /** With the checkers done, a thread inside a lock can go on, unless it needs the other lock. */
  lemma InsiderContinues(cfg: Config, m: Manager, t: nat)
    requires Inv(cfg, m) && CheckersDone(m)
    requires t < |m.threads| && m.threads[t].Do?
    requires m.threads[t].op !in {RLock(Peers), RLock(Health), Announce(Peers), Announce(Health),
                                  Acquire(Peers), Acquire(Health), WaitLoops}
    ensures CanContinue(cfg, m)
  {
    var op := m.threads[t].op;
    var order := [];
    if op == Snapshot {
      order := SeqOfSet(m.peers.Keys);
    } else if op == Gather {
      assert t == HEALTH;
      var last := m.rounds[|m.rounds| - 1];
      assert last in m.rounds;
      SumOfZeros(last.checkers, UnsentWeight);
    }
    assert Enabled(cfg, m, Exec(t, order));
  }

  lemma {:induction false} SeqOfSet(ids: set<string>) returns (order: seq<string>)
    ensures multiset(order) == multiset(ids)
  {
    if ids == {} {
      order := [];
    } else {
      var id :| id in ids;
      var rest := SeqOfSet(ids - {id});
      order := rest + [id];
      assert ids == (ids - {id}) + {id};
    }
  }

  /** A thread that holds a lock goes on, unless it still waits for that lock's readers. */
  lemma HolderContinues(cfg: Config, m: Manager, l: LockName, t: nat)
    requires Inv(cfg, m) && CheckersDone(m)
    requires t < |m.threads| && (Owns(m.threads[t], l) || Reads(m.threads[t], l))
    requires m.threads[t].op == Acquire(l) ==> m.locks.Of(l).readers == {}
    requires l == Peers ==> m.locks.Of(Health) == FREE
    ensures CanContinue(cfg, m)
  {
    var todo := m.threads[t];
    assert KnowsHolder(m.threads, m.locks, Health, t);
    if todo.op.Acquire? || todo.op.Announce? || todo.op.RLock? {
      assert l == Health ==> todo.op == Acquire(Health);
      assert Enabled(cfg, m, Exec(t, []));
    } else {
      assert todo.op != WaitLoops;
      InsiderContinues(cfg, m, t);
    }
  }

  lemma LockedContinues(cfg: Config, m: Manager, l: LockName, t: nat)
    requires Inv(cfg, m) && CheckersDone(m)
    requires t < |m.threads| && (Owns(m.threads[t], l) || Reads(m.threads[t], l))
    requires l == Peers ==> m.locks.Of(Health) == FREE
    ensures CanContinue(cfg, m)
  {
    if m.threads[t].op == Acquire(l) && m.locks.Of(l).readers != {} {
      var u :| u in m.locks.Of(l).readers;
      assert KnowsHolder(m.threads, m.locks, l, u);
      assert Disciplined(m.threads[u]) && m.threads[u].op != Acquire(l);
      HolderContinues(cfg, m, l, u);
    } else {
      HolderContinues(cfg, m, l, t);
    }
  }

  /** In every reachable state that is not quiet, somebody can go on: no interleaving of the loops, the readers, the
      checkers and a stop deadlocks. It takes one worker and pings that return. */
  lemma NoDeadlock(cfg: Config, m: Manager)
    requires Inv(cfg, m) && cfg.workers >= 1 && !Quiet(m)
    ensures CanContinue(cfg, m)
  {
    if r: nat, i: nat :| r < |m.rounds| && i < |m.rounds[r].checkers| && m.rounds[r].checkers[i].stage != Done {
      CheckersContinue(cfg, m, r, i);
    } else if t: nat :| t < |m.threads| && (Owns(m.threads[t], Health) || Reads(m.threads[t], Health)) {
      LockedContinues(cfg, m, Health, t);
    } else if t: nat :| t < |m.threads| && (Owns(m.threads[t], Peers) || Reads(m.threads[t], Peers)) {
      NobodyHolds(m, Health);
      LockedContinues(cfg, m, Peers, t);
    } else {
      NobodyHolds(m, Health);
      NobodyHolds(m, Peers);
      UnlockedContinues(cfg, m);
    }
  }

  lemma NobodyHolds(m: Manager, l: LockName)
    requires LocksMatch(m.threads, m.locks)
    requires forall t: nat | t < |m.threads| :: !Owns(m.threads[t], l) && !Reads(m.threads[t], l)
    ensures m.locks.Of(l) == FREE
  {
    forall t: nat
      ensures m.locks.Of(l).owner != Some(t) && t !in m.locks.Of(l).readers
    {
      assert KnowsHolder(m.threads, m.locks, l, t);
    }
    assert m.locks.Of(l).readers == {};
    match m.locks.Of(l).owner
    case None =>
    case Some(t) => assert false;
  }

  lemma UnlockedContinues(cfg: Config, m: Manager)
    requires Inv(cfg, m) && CheckersDone(m) && !Quiet(m)
    requires m.locks.Of(Peers) == FREE && m.locks.Of(Health) == FREE
    ensures CanContinue(cfg, m)
  {
    if t: nat :| t < |m.threads| && m.threads[t].Do? && m.threads[t].op != WaitLoops {
      if m.threads[t].op.RLock? || m.threads[t].op.Announce? || m.threads[t].op.Acquire? {
        assert Enabled(cfg, m, Exec(t, []));
      } else {
        InsiderContinues(cfg, m, t);
      }
    } else if {DISCOVERY, HEALTH, MAINTENANCE} <= m.exited {
      assert Enabled(cfg, m, Exec(STOPPER, []));
    } else {
      var t: nat :| t < STOPPER && t !in m.exited;
      assert Enabled(cfg, m, Exit(t));
    }
  }

  // ---------------------------------------------------------------- no livelock

  function Length(todo: Todo): nat {
    if todo.End? then 0 else 1 + Length(todo.rest)
  }

  function SpawnCount(todo: Todo): nat {
    if todo.End? then 0 else (if todo.op == Spawn then 1 else 0) + SpawnCount(todo.rest)
  }

  function CheckerWork(c: Checker): nat {
    match c.stage
    case Waiting => 5
    case Holding => 4
    case Answered(_) => 3
    case Panicked => 2
    case Sent => 1
    case Done => 0
  }

  function RoundWork(r: Round): nat {
    Sum(r.checkers, CheckerWork) + |r.channel|
  }

  function LoopWork(m: Manager, t: nat): nat {
    if t in m.exited then 0 else 1
  }

  /** Pending spawns come first: each brings new work, of a size not known before. */
  function PendingSpawns(m: Manager): nat {
    Sum(m.threads, SpawnCount)
  }

  function Work(m: Manager): nat {
    Sum(m.threads, Length) + Sum(m.rounds, RoundWork)
    + LoopWork(m, DISCOVERY) + LoopWork(m, HEALTH) + LoopWork(m, MAINTENANCE)
  }

  lemma ActionIsProgress(cfg: Config, r: Round, i: nat, action: Action)
    requires ActionEnabled(cfg, r, i, action)
    ensures RoundWork(Acted(r, i, action)) < RoundWork(r)
  {
    SumUpdate(r.checkers, i, Acted(r, i, action).checkers[i], CheckerWork);
  }

  lemma AdvanceIsProgress(threads: seq<Todo>, t: nat)
    requires t < |threads| && threads[t].Do?
    ensures var threads' := threads[t := threads[t].rest];
            && Sum(threads', Length) + 1 == Sum(threads, Length)
            && Sum(threads', SpawnCount) + (if threads[t].op == Spawn then 1 else 0) == Sum(threads, SpawnCount)
  {
    SumUpdate(threads, t, threads[t].rest, SpawnCount);
    SumUpdate(threads, t, threads[t].rest, Length);
  }

  lemma ReceivingIsProgress(cfg: Config, m: Manager, t: nat, order: seq<string>)
    requires Enabled(cfg, m, Exec(t, order)) && Receives(m, m.threads[t].op)
    ensures var m' := Next(cfg, m, Exec(t, order)); PendingSpawns(m') == PendingSpawns(m) && Work(m') < Work(m)
  {
    var m' := Next(cfg, m, Exec(t, order));
    var last := |m.rounds| - 1;
    SumUpdate(m.rounds, last, m'.rounds[last], RoundWork);
  }

  lemma ExecIsProgress(cfg: Config, m: Manager, t: nat, order: seq<string>)
    requires Enabled(cfg, m, Exec(t, order))
    ensures var m' := Next(cfg, m, Exec(t, order));
            || PendingSpawns(m') < PendingSpawns(m)
            || (PendingSpawns(m') == PendingSpawns(m) && Work(m') < Work(m))
  {
    if Receives(m, m.threads[t].op) {
      ReceivingIsProgress(cfg, m, t, order);
    } else {
      AdvanceIsProgress(m.threads, t);
      assert m.threads[t].op != Spawn ==> Next(cfg, m, Exec(t, order)).rounds == m.rounds;
    }
  }

  /** Every step but a new beginning brings the manager closer to rest, panics included. */
  lemma StepIsProgress(cfg: Config, m: Manager, step: Step)
    requires Enabled(cfg, m, step) && !step.Start? && !step.Cancel?
    ensures var m' := Next(cfg, m, step);
            || PendingSpawns(m') < PendingSpawns(m)
            || (PendingSpawns(m') == PendingSpawns(m) && Work(m') < Work(m))
  {
    var m' := Next(cfg, m, step);
    match step
    case Exec(t, order) => ExecIsProgress(cfg, m, t, order);
    case GiveUp(t) => AdvanceIsProgress(m.threads, t);
    case Check(r, i, action) =>
      ActionIsProgress(cfg, m.rounds[r], i, action);
      SumUpdate(m.rounds, r, m'.rounds[r], RoundWork);
    case _ =>
  }

  /** From every reachable state the manager comes to rest by carrying on; after a stop this means that all three
      loops have ended and Stop has returned. */
  lemma {:induction false} ComesToRest(cfg: Config, m: Manager) returns (steps: seq<Step>)
    requires Inv(cfg, m) && cfg.workers >= 1
    ensures Run(cfg, m, steps) && (forall step | step in steps :: Continues(step))
    ensures Quiet(Final(cfg, m, steps))
    decreases PendingSpawns(m), Work(m)
  {
    if Quiet(m) {
      steps := [];
    } else {
      NoDeadlock(cfg, m);
      var step :| Continues(step) && Enabled(cfg, m, step);
      StepKeepsInv(cfg, m, step);
      StepIsProgress(cfg, m, step);
      var rest := ComesToRest(cfg, Next(cfg, m, step));
      steps := [step] + rest;
      assert steps[1..] == rest;
    }
  }
}
