/** Asking all peers at once (findPeersWithBlobDirect and findPeersWithManifest in
    internal/storage/distributed/store.go): one goroutine per peer sends its answer into a channel as large as the list
    of peers, and the caller receives until it has all of them or its time is up. */
module ScatterGather {
  import opened Common

  datatype Status = Collecting | Finished | TimedOut

  datatype State = State(asked: seq<string>, channel: seq<string>, received: seq<string>, found: seq<string>, status: Status)

  datatype Step =
    | Answer(i: nat) // a goroutine sends
    | Receive
    | Finish
    | Timeout

  /** The capacity is the number of peers; has is what each peer answers, false when the call fails. */
  predicate Enabled(s: State, capacity: nat, step: Step) {
    match step
    case Answer(i) => i < |s.asked| && |s.channel| < capacity
    case Receive => s.status == Collecting && s.channel != [] && |s.received| < capacity
    case Finish => s.status == Collecting && |s.received| == capacity
    case Timeout => s.status == Collecting && |s.received| < capacity
  }

  function Next(s: State, capacity: nat, has: string -> bool, step: Step): State
    requires Enabled(s, capacity, step)
  {
    match step
    case Answer(i) => s.(asked := s.asked[..i] + s.asked[i + 1..], channel := s.channel + [s.asked[i]])
    case Receive =>
      var peer := s.channel[0];
      s.(channel := s.channel[1..], received := s.received + [peer],
         found := if has(peer) then s.found + [peer] else s.found)
    case Finish => s.(status := Finished)
    case Timeout => s.(status := TimedOut)
  }

  function Initial(peers: seq<string>): State {
    State(peers, [], [], [], Collecting)
  }

  ghost predicate Run(s: State, capacity: nat, has: string -> bool, steps: seq<Step>)
    decreases |steps|
  {
    steps != [] ==> Enabled(s, capacity, steps[0]) && Run(Next(s, capacity, has, steps[0]), capacity, has, steps[1..])
  }

  ghost function Final(s: State, capacity: nat, has: string -> bool, steps: seq<Step>): State
    requires Run(s, capacity, has, steps)
    decreases |steps|
  {
    if steps == [] then s else Final(Next(s, capacity, has, steps[0]), capacity, has, steps[1..])
  }

  /** The peers that say yes, in the order given. */
  function Positives(peers: seq<string>, has: string -> bool): seq<string> {
    if peers == [] then []
    else
      var before := Positives(peers[..|peers| - 1], has);
      if has(peers[|peers| - 1]) then before + [peers[|peers| - 1]] else before
  }

  /** Every peer is in exactly one place: still asked, in the channel, or received. */
  ghost predicate Inv(s: State, peers: seq<string>, has: string -> bool) {
    && multiset(s.asked) + multiset(s.channel) + multiset(s.received) == multiset(peers)
    && s.found == Positives(s.received, has)
    && (s.status == Finished ==> |s.received| == |peers|)
    && (s.status == TimedOut ==> |s.received| < |peers|)
  }

  lemma InitialInv(peers: seq<string>, has: string -> bool)
    ensures Inv(Initial(peers), peers, has)
  {
    assert multiset(peers) + multiset{} + multiset{} == multiset(peers);
  }

  lemma AnswerKeepsInv(s: State, peers: seq<string>, has: string -> bool, i: nat)
    requires Inv(s, peers, has) && Enabled(s, |peers|, Answer(i))
    ensures Inv(Next(s, |peers|, has, Answer(i)), peers, has)
  {
    assert s.asked == s.asked[..i] + [s.asked[i]] + s.asked[i + 1..];
  }

  lemma ReceiveKeepsInv(s: State, peers: seq<string>, has: string -> bool)
    requires Inv(s, peers, has) && Enabled(s, |peers|, Receive)
    ensures Inv(Next(s, |peers|, has, Receive), peers, has)
  {
    assert s.channel == [s.channel[0]] + s.channel[1..];
    var received := s.received + [s.channel[0]];
    assert received[..|received| - 1] == s.received;
  }

  lemma StepKeepsInv(s: State, peers: seq<string>, has: string -> bool, step: Step)
    requires Inv(s, peers, has) && Enabled(s, |peers|, step)
    ensures Inv(Next(s, |peers|, has, step), peers, has)
  {
    if step.Answer? {
      AnswerKeepsInv(s, peers, has, step.i);
    } else if step.Receive? {
      ReceiveKeepsInv(s, peers, has);
    }
  }

  lemma {:induction false} RunKeepsInv(s: State, peers: seq<string>, has: string -> bool, steps: seq<Step>)
    requires Inv(s, peers, has) && Run(s, |peers|, has, steps)
    ensures Inv(Final(s, |peers|, has, steps), peers, has)
    decreases |steps|
  {
    if steps != [] {
      StepKeepsInv(s, peers, has, steps[0]);
      RunKeepsInv(Next(s, |peers|, has, steps[0]), peers, has, steps[1..]);
    }
  }

  lemma Sizes(s: State, peers: seq<string>, has: string -> bool)
    requires Inv(s, peers, has)
    ensures |s.asked| + |s.channel| + |s.received| == |peers|
  {
    assert |multiset(s.asked) + multiset(s.channel) + multiset(s.received)| == |multiset(peers)|;
  }

  lemma {:induction false} PositivesAsMultiset(peers: seq<string>, has: string -> bool)
    ensures forall p :: multiset(Positives(peers, has))[p] == if has(p) then multiset(peers)[p] else 0
  {
    if peers != [] {
      PositivesAsMultiset(peers[..|peers| - 1], has);
      assert peers == peers[..|peers| - 1] + [peers[|peers| - 1]];
    }
  }

  /** In every order of answers: no goroutine ever blocks on the channel, not even after a timeout; without a timeout the
      result is exactly the peers that have it, in the order they answered; with one, which only comes while an answer is
      missing, it is some of them. */
  lemma GathersExactly(peers: seq<string>, has: string -> bool, steps: seq<Step>)
    requires Run(Initial(peers), |peers|, has, steps)
    ensures var s := Final(Initial(peers), |peers|, has, steps);
            && (forall i: nat | i < |s.asked| :: Enabled(s, |peers|, Answer(i)))
            && |s.channel| <= |peers|
            && (s.status == Finished ==>
                  multiset(s.received) == multiset(peers)
                  && multiset(s.found) == multiset(Positives(peers, has)))
            && (s.status == TimedOut ==> |s.received| < |peers|)
            && multiset(s.found) <= multiset(Positives(peers, has))
  {
    InitialInv(peers, has);
    RunKeepsInv(Initial(peers), peers, has, steps);
    var s := Final(Initial(peers), |peers|, has, steps);
    Sizes(s, peers, has);
    PositivesAsMultiset(s.received, has);
    PositivesAsMultiset(peers, has);
    if s.status == Finished {
      assert s.asked == [] && s.channel == [];
    }
  }

  /** Whatever happened so far, the caller or a goroutine can go on until the caller has returned and every goroutine has
      sent: none of them leaks. */
  lemma SomebodyCanContinue(s: State, peers: seq<string>, has: string -> bool)
    requires Inv(s, peers, has) && (s.asked != [] || s.status == Collecting)
    ensures Enabled(s, |peers|, Answer(0)) || Enabled(s, |peers|, Receive) || Enabled(s, |peers|, Finish)
  {
    Sizes(s, peers, has);
  }
}
