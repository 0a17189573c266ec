/** What health checks find out (internal/p2p/manager.go): over every run of the peer manager, each result on its way and
    each row of the health table is the answer of the ping that the checker made, and unhealthy after a panic. The
    statements speak of the steps of the run alone. */
module HealthChecks {
  import opened Common
  import opened Sums
  import opened PeerManager

  /** What became of the ping of a checker: its last answer, and false after a panic or without an answer. */
  function Outcome(steps: seq<Step>, r: nat, i: nat): bool {
    if steps == [] then false
    else
      match steps[|steps| - 1]
      case Check(round, k, Answer(ok)) => if round == r && k == i then ok else Outcome(steps[..|steps| - 1], r, i)
      case Check(round, k, Panic) => if round == r && k == i then false else Outcome(steps[..|steps| - 1], r, i)
      case _ => Outcome(steps[..|steps| - 1], r, i)
  }

  /** The checkers of a round that have sent, in the order of their sends. */
  function Senders(steps: seq<Step>, r: nat): seq<nat> {
    if steps == [] then []
    else
      var before := Senders(steps[..|steps| - 1], r);
      match steps[|steps| - 1]
      case Check(round, i, Send) => if round == r then before + [i] else before
      case _ => before
  }

  lemma Snoc(steps: seq<Step>, step: Step)
    ensures (steps + [step])[..|steps + [step]| - 1] == steps && (steps + [step])[|steps + [step]| - 1] == step
  {
  }

  lemma OutcomeAfter(steps: seq<Step>, step: Step, r: nat, i: nat)
    ensures step == Check(r, i, Panic) ==> !Outcome(steps + [step], r, i)
    ensures forall ok | step == Check(r, i, Answer(ok)) :: Outcome(steps + [step], r, i) == ok
    ensures !(step.Check? && step.round == r && step.i == i && (step.action.Answer? || step.action == Panic)) ==>
              Outcome(steps + [step], r, i) == Outcome(steps, r, i)
  {
    Snoc(steps, step);
  }

  lemma SendersAfter(steps: seq<Step>, step: Step, r: nat)
    ensures Senders(steps + [step], r) ==
            Senders(steps, r) + if step.Check? && step.round == r && step.action == Send then [step.i] else []
  {
    Snoc(steps, step);
  }

  // ---------------------------------------------------------------- one round

  predicate HasSent(stage: Stage) {
    stage == Sent || stage == Done
  }

  /** Every checker of the round stands where its steps have brought it: what it is about to send is its outcome, and who
      has sent has sent once. */
  ghost predicate CheckersTold(round: Round, r: nat, steps: seq<Step>) {
    && (forall i: nat | i < |round.checkers| :: CheckerTold(round.checkers[i].stage, Outcome(steps, r, i)))
    && Distinct(Senders(steps, r))
    && (forall i | i in Senders(steps, r) :: i < |round.checkers|)
    && (forall i: nat | i < |round.checkers| :: HasSent(round.checkers[i].stage) <==> i in Senders(steps, r))
  }

  predicate CheckerTold(stage: Stage, outcome: bool) {
    match stage
    case Answered(ok) => ok == outcome
    case Panicked => !outcome
    case _ => true
  }

  /** The channel holds, for those who have sent and were not received yet, the name and the outcome. */
  ghost predicate ChannelTold(round: Round, r: nat, steps: seq<Step>) {
    var senders := Senders(steps, r);
    && round.taken + |round.channel| == |senders|
    && forall k: nat | k < |round.channel| :: Tells(round, r, steps, senders[round.taken + k], round.channel[k])
  }

  predicate Tells(round: Round, r: nat, steps: seq<Step>, i: nat, result: (string, bool)) {
    i < |round.checkers| && result == (round.checkers[i].id, Outcome(steps, r, i))
  }

  ghost predicate RoundTold(round: Round, r: nat, steps: seq<Step>) {
    CheckersTold(round, r, steps) && ChannelTold(round, r, steps)
  }

  lemma ActionTellsOutcomes(cfg: Config, round: Round, r: nat, i: nat, action: Action, steps: seq<Step>, k: nat)
    requires k < |round.checkers| && CheckerTold(round.checkers[k].stage, Outcome(steps, r, k))
    requires ActionEnabled(cfg, round, i, action)
    ensures CheckerTold(Acted(round, i, action).checkers[k].stage, Outcome(steps + [Check(r, i, action)], r, k))
  {
    OutcomeAfter(steps, Check(r, i, action), r, k);
  }

  lemma ActionTellsSenders(cfg: Config, round: Round, r: nat, i: nat, action: Action, steps: seq<Step>)
    requires CheckersTold(round, r, steps) && ActionEnabled(cfg, round, i, action)
    ensures var round', senders' := Acted(round, i, action), Senders(steps + [Check(r, i, action)], r);
            && Distinct(senders') && |round'.checkers| == |round.checkers|
            && (forall k | k in senders' :: k < |round.checkers|)
            && forall k: nat | k < |round.checkers| :: HasSent(round'.checkers[k].stage) <==> k in senders'
  {
    SendersAfter(steps, Check(r, i, action), r);
    var senders := Senders(steps, r);
    assert HasSent(round.checkers[i].stage) <==> i in senders;
    assert forall k: nat | k < |round.checkers| :: HasSent(round.checkers[k].stage) <==> k in senders;
    if action == Send {
      assert Senders(steps + [Check(r, i, action)], r) == senders + [i];
    }
  }

  lemma ActionTellsCheckers(cfg: Config, round: Round, r: nat, i: nat, action: Action, steps: seq<Step>)
    requires RoundTold(round, r, steps) && ActionEnabled(cfg, round, i, action)
    ensures CheckersTold(Acted(round, i, action), r, steps + [Check(r, i, action)])
  {
    ActionTellsSenders(cfg, round, r, i, action, steps);
    forall k: nat | k < |round.checkers|
      ensures CheckerTold(Acted(round, i, action).checkers[k].stage, Outcome(steps + [Check(r, i, action)], r, k))
    {
      ActionTellsOutcomes(cfg, round, r, i, action, steps, k);
    }
  }

  /** A checker sends what it has found out, and others do not touch the channel. */
  lemma SendTellsOutcome(cfg: Config, round: Round, i: nat, action: Action, outcome: bool)
    requires ActionEnabled(cfg, round, i, action) && CheckerTold(round.checkers[i].stage, outcome)
    ensures Acted(round, i, action).taken == round.taken && |Acted(round, i, action).checkers| == |round.checkers|
    ensures forall k: nat | k < |round.checkers| :: Acted(round, i, action).checkers[k].id == round.checkers[k].id
    ensures Acted(round, i, action).channel ==
            round.channel + if action == Send then [(round.checkers[i].id, outcome)] else []
  {
  }

  /** Whoever has sent stays told. */
  lemma SenderStaysTold(cfg: Config, round: Round, r: nat, i: nat, action: Action, steps: seq<Step>, k: nat)
    requires RoundTold(round, r, steps) && ActionEnabled(cfg, round, i, action) && k < |round.channel|
    ensures Tells(Acted(round, i, action), r, steps + [Check(r, i, action)], Senders(steps, r)[round.taken + k], round.channel[k])
  {
    var s := Senders(steps, r)[round.taken + k];
    assert s in Senders(steps, r) && Tells(round, r, steps, s, round.channel[k]);
    OutcomeAfter(steps, Check(r, i, action), r, s);
    SendTellsOutcome(cfg, round, i, action, Outcome(steps, r, i));
  }

  /** And who sends now is told. */
  lemma NewSenderIsTold(cfg: Config, round: Round, r: nat, i: nat, steps: seq<Step>)
    requires RoundTold(round, r, steps) && ActionEnabled(cfg, round, i, Send)
    ensures Tells(Acted(round, i, Send), r, steps + [Check(r, i, Send)], i, (round.checkers[i].id, Outcome(steps, r, i)))
  {
    OutcomeAfter(steps, Check(r, i, Send), r, i);
    SendTellsOutcome(cfg, round, i, Send, Outcome(steps, r, i));
  }

  lemma ActionTellsChannel(cfg: Config, round: Round, r: nat, i: nat, action: Action, steps: seq<Step>)
    requires RoundTold(round, r, steps) && ActionEnabled(cfg, round, i, action)
    ensures ChannelTold(Acted(round, i, action), r, steps + [Check(r, i, action)])
  {
    SendersAfter(steps, Check(r, i, action), r);
    SendTellsOutcome(cfg, round, i, action, Outcome(steps, r, i));
    if action == Send {
      NewSenderIsTold(cfg, round, r, i, steps);
    }
    forall k: nat | k < |round.channel|
      ensures Tells(Acted(round, i, action), r, steps + [Check(r, i, action)], Senders(steps, r)[round.taken + k],
                    round.channel[k])
    {
      SenderStaysTold(cfg, round, r, i, action, steps, k);
    }
    LongerChannelTold(Acted(round, i, action), r, steps + [Check(r, i, action)], Senders(steps, r), round.channel,
                      if action == Send then [i] else []);
  }

  lemma LongerChannelTold(round: Round, r: nat, steps: seq<Step>, before: seq<nat>, channel: seq<(string, bool)>,
                          added: seq<nat>)
    requires Senders(steps, r) == before + added && |added| <= 1 && |round.channel| == |channel| + |added|
    requires channel <= round.channel && round.taken + |channel| == |before|
    requires forall k: nat | k < |channel| :: Tells(round, r, steps, before[round.taken + k], channel[k])
    requires added != [] ==> Tells(round, r, steps, added[0], round.channel[|channel|])
    ensures ChannelTold(round, r, steps)
  {
    forall k: nat | k < |round.channel|
      ensures Tells(round, r, steps, Senders(steps, r)[round.taken + k], round.channel[k])
    {
      if k < |channel| {
        assert Tells(round, r, steps, before[round.taken + k], channel[k]);
      }
    }
  }

  /** What happens elsewhere. */
  lemma OtherStepsTellNothing(steps: seq<Step>, step: Step, r: nat)
    requires !(step.Check? && step.round == r)
    ensures Senders(steps + [step], r) == Senders(steps, r)
    ensures forall i: nat :: Outcome(steps + [step], r, i) == Outcome(steps, r, i)
  {
    SendersAfter(steps, step, r);
    forall i: nat
      ensures Outcome(steps + [step], r, i) == Outcome(steps, r, i)
    {
      OutcomeAfter(steps, step, r, i);
    }
  }

  lemma OtherStepsKeepRound(round: Round, r: nat, steps: seq<Step>, step: Step)
    requires RoundTold(round, r, steps) && !(step.Check? && step.round == r)
    ensures RoundTold(round, r, steps + [step])
  {
    OtherStepsTellNothing(steps, step, r);
    var senders := Senders(steps, r);
    forall k: nat | k < |round.channel|
      ensures Tells(round, r, steps + [step], senders[round.taken + k], round.channel[k])
    {
      assert Tells(round, r, steps, senders[round.taken + k], round.channel[k]);
    }
  }

  /** One result fewer in the channel. */
  function Taken(round: Round): Round
    requires round.channel != []
  {
    round.(channel := round.channel[1..], taken := round.taken + 1)
  }

  lemma TakingKeepsRound(round: Round, r: nat, steps: seq<Step>)
    requires RoundTold(round, r, steps) && round.channel != []
    ensures RoundTold(Taken(round), r, steps)
  {
    var senders := Senders(steps, r);
    forall k: nat | k < |Taken(round).channel|
      ensures Tells(Taken(round), r, steps, senders[Taken(round).taken + k], Taken(round).channel[k])
    {
      assert Tells(round, r, steps, senders[round.taken + (k + 1)], round.channel[k + 1]);
    }
  }

  lemma {:induction false} NobodyAsked(steps: seq<Step>, r: nat)
    requires forall k | 0 <= k < |steps| && steps[k].Check? :: steps[k].round < r
    ensures Senders(steps, r) == []
  {
    if steps != [] {
      NobodyAsked(steps[..|steps| - 1], r);
    }
  }

  /** A new round has one checker for each peer that was copied, in the same order, and nobody has asked or sent. */
  lemma SpawnChecksEveryPeerOnce(cfg: Config, m: Manager, t: nat, order: seq<string>)
    requires Enabled(cfg, m, Exec(t, order)) && m.threads[t].op == Spawn
    ensures var m' := Next(cfg, m, Exec(t, order));
            && |m'.rounds| == |m.rounds| + 1 && m'.rounds[..|m.rounds|] == m.rounds
            && var round := m'.rounds[|m.rounds|];
               && |round.checkers| == |m.copied| && round.channel == [] && round.taken == 0
               && forall i | 0 <= i < |m.copied| :: round.checkers[i] == Checker(m.copied[i], Waiting)
  {
  }

  /** And those are all peers, each once. */
  lemma SnapshotCopiesEveryPeerOnce(cfg: Config, m: Manager, t: nat, order: seq<string>)
    requires Enabled(cfg, m, Exec(t, order)) && m.threads[t].op == Snapshot
    ensures var m' := Next(cfg, m, Exec(t, order));
            Distinct(m'.copied) && forall id :: id in m'.copied <==> id in m.peers
  {
    ElementsOfASetAreDistinct(order, m.peers.Keys);
  }

  // ---------------------------------------------------------------- all rounds

  ghost predicate DistinctIds(round: Round) {
    forall i, j | 0 <= i < j < |round.checkers| :: round.checkers[i].id != round.checkers[j].id
  }

  ghost predicate RoundsTold(m: Manager, steps: seq<Step>) {
    && (forall r: nat | r < |m.rounds| :: RoundTold(m.rounds[r], r, steps) && DistinctIds(m.rounds[r]))
    && (forall k | 0 <= k < |steps| && steps[k].Check? :: steps[k].round < |m.rounds|)
    && Distinct(m.copied)
  }

  lemma CheckTellsRounds(cfg: Config, m: Manager, steps: seq<Step>, step: Step)
    requires RoundsTold(m, steps) && Enabled(cfg, m, step) && step.Check?
    ensures RoundsTold(Next(cfg, m, step), steps + [step])
  {
    var m' := Next(cfg, m, step);
    forall r: nat | r < |m'.rounds|
      ensures RoundTold(m'.rounds[r], r, steps + [step]) && DistinctIds(m'.rounds[r])
    {
      if r == step.round {
        ActionTellsCheckers(cfg, m.rounds[r], r, step.i, step.action, steps);
        ActionTellsChannel(cfg, m.rounds[r], r, step.i, step.action, steps);
        assert DistinctIds(m.rounds[r]);
      } else {
        OtherStepsKeepRound(m.rounds[r], r, steps, step);
      }
    }
  }

  /** A step that is no check leaves the rounds, or takes one result, or adds a round. */
  lemma RoundsAfter(cfg: Config, m: Manager, step: Step)
    requires Enabled(cfg, m, step) && !step.Check?
    ensures var m' := Next(cfg, m, step);
            || m'.rounds == m.rounds
            || (m.rounds != [] && m.rounds[|m.rounds| - 1].channel != []
                && m'.rounds == m.rounds[|m.rounds| - 1 := Taken(m.rounds[|m.rounds| - 1])])
            || (step.Exec? && m.threads[step.t].op == Spawn)
    ensures Next(cfg, m, step).copied == m.copied || (step.Exec? && m.threads[step.t].op == Snapshot)
  {
  }

  lemma StepTellsRounds(cfg: Config, m: Manager, steps: seq<Step>, step: Step)
    requires RoundsTold(m, steps) && Enabled(cfg, m, step)
    ensures RoundsTold(Next(cfg, m, step), steps + [step])
  {
    var m' := Next(cfg, m, step);
    if step.Check? {
      CheckTellsRounds(cfg, m, steps, step);
    } else {
      RoundsAfter(cfg, m, step);
      if step.Exec? && m.threads[step.t].op == Spawn {
        SpawnChecksEveryPeerOnce(cfg, m, step.t, step.order);
      } else if step.Exec? && m.threads[step.t].op == Snapshot {
        SnapshotCopiesEveryPeerOnce(cfg, m, step.t, step.order);
      }
      forall r: nat | r < |m'.rounds|
        ensures RoundTold(m'.rounds[r], r, steps + [step]) && DistinctIds(m'.rounds[r])
      {
        if r == |m.rounds| {
          NewRoundTold(m'.rounds[r], r, steps + [step]);
        } else {
          OtherStepsKeepRound(m.rounds[r], r, steps, step);
          if m'.rounds[r] != m.rounds[r] {
            TakingKeepsRound(m.rounds[r], r, steps + [step]);
          }
        }
      }
    }
  }

  lemma NewRoundTold(round: Round, r: nat, steps: seq<Step>)
    requires forall k | 0 <= k < |steps| && steps[k].Check? :: steps[k].round < r
    requires round.channel == [] && round.taken == 0
    requires forall i | 0 <= i < |round.checkers| :: round.checkers[i].stage == Waiting
    ensures RoundTold(round, r, steps)
  {
    NobodyAsked(steps, r);
  }

  // ---------------------------------------------------------------- the health table

  /** Some checker has found this out about the peer, and its result was received. */
  ghost predicate FoundOut(m: Manager, steps: seq<Step>, id: string, ok: bool) {
    exists r: nat, k: nat :: RowFrom(m, steps, r, k, id, ok)
  }

  ghost predicate RowFrom(m: Manager, steps: seq<Step>, r: nat, k: nat, id: string, ok: bool) {
    && r < |m.rounds| && k < m.rounds[r].taken && k < |Senders(steps, r)|
    && Tells(m.rounds[r], r, steps, Senders(steps, r)[k], (id, ok))
  }

  ghost predicate RowsTold(m: Manager, steps: seq<Step>) {
    forall id | id in m.health :: FoundOut(m, steps, id, m.health[id])
  }

  /** Rounds keep their checkers' names, and only ever take more. */
  lemma RoundsGrow(cfg: Config, m: Manager, step: Step, r: nat)
    requires Enabled(cfg, m, step) && r < |m.rounds|
    ensures var m' := Next(cfg, m, step);
            && r < |m'.rounds| && m'.rounds[r].taken >= m.rounds[r].taken
            && |m'.rounds[r].checkers| == |m.rounds[r].checkers|
            && forall i | 0 <= i < |m.rounds[r].checkers| :: m'.rounds[r].checkers[i].id == m.rounds[r].checkers[i].id
  {
    if !step.Check? {
      RoundsAfter(cfg, m, step);
      if step.Exec? && m.threads[step.t].op == Spawn {
        SpawnChecksEveryPeerOnce(cfg, m, step.t, step.order);
      }
    }
  }

  /** A checker that has sent asks no more. */
  lemma SentAsksNoMore(cfg: Config, m: Manager, steps: seq<Step>, step: Step, r: nat, i: nat)
    requires Enabled(cfg, m, step) && r < |m.rounds| && i < |m.rounds[r].checkers|
    requires HasSent(m.rounds[r].checkers[i].stage)
    ensures Outcome(steps + [step], r, i) == Outcome(steps, r, i)
  {
    OutcomeAfter(steps, step, r, i);
  }

  lemma SenderHasSent(m: Manager, steps: seq<Step>, r: nat, k: nat)
    requires RoundsTold(m, steps) && r < |m.rounds| && k < |Senders(steps, r)|
    ensures var i := Senders(steps, r)[k];
            i < |m.rounds[r].checkers| && HasSent(m.rounds[r].checkers[i].stage)
  {
    assert RoundTold(m.rounds[r], r, steps) && Senders(steps, r)[k] in Senders(steps, r);
  }

  /** What was found out stays so. */
  lemma RowFromStays(cfg: Config, m: Manager, steps: seq<Step>, step: Step, r: nat, k: nat, id: string, ok: bool)
    requires RoundsTold(m, steps) && Enabled(cfg, m, step) && RowFrom(m, steps, r, k, id, ok)
    ensures RowFrom(Next(cfg, m, step), steps + [step], r, k, id, ok)
  {
    SenderHasSent(m, steps, r, k);
    SentAsksNoMore(cfg, m, steps, step, r, Senders(steps, r)[k]);
    SendersAfter(steps, step, r);
    RoundsGrow(cfg, m, step, r);
  }

  lemma FoundOutStays(cfg: Config, m: Manager, steps: seq<Step>, step: Step, id: string, ok: bool)
    requires RoundsTold(m, steps) && Enabled(cfg, m, step) && FoundOut(m, steps, id, ok)
    ensures FoundOut(Next(cfg, m, step), steps + [step], id, ok)
  {
    var r: nat, k: nat :| RowFrom(m, steps, r, k, id, ok);
    RowFromStays(cfg, m, steps, step, r, k, id, ok);
  }

  /** The step that receives a result. */
  predicate IsReceiving(m: Manager, step: Step) {
    step.Exec? && step.t < |m.threads| && m.threads[step.t].Do? && Receives(m, m.threads[step.t].op)
  }

  /** What is received is the next sender's result, and becomes its peer's row; all other rows stay. */
  lemma ReceivingRecords(cfg: Config, m: Manager, steps: seq<Step>, step: Step)
    requires RoundsTold(m, steps) && Enabled(cfg, m, step) && IsReceiving(m, step)
    ensures var m', last := Next(cfg, m, step), |m.rounds| - 1;
            && last >= 0 && m'.rounds == m.rounds[last := Taken(m.rounds[last])]
            && var k := m.rounds[last].taken;
               && k < |Senders(steps, last)| && Senders(steps, last)[k] < |m.rounds[last].checkers|
               && var i := Senders(steps, last)[k];
                  m'.health == m.health[m.rounds[last].checkers[i].id := Outcome(steps, last, i)]
  {
    var last := |m.rounds| - 1;
    var round := m.rounds[last];
    assert RoundTold(round, last, steps);
    assert Tells(round, last, steps, Senders(steps, last)[round.taken + 0], round.channel[0]);
  }

  lemma OtherStepsKeepRows(cfg: Config, m: Manager, step: Step)
    requires Enabled(cfg, m, step) && !IsReceiving(m, step)
    ensures forall id | id in Next(cfg, m, step).health :: id in m.health && Next(cfg, m, step).health[id] == m.health[id]
  {
  }

  lemma OtherStepsTellRows(cfg: Config, m: Manager, steps: seq<Step>, step: Step)
    requires RoundsTold(m, steps) && RowsTold(m, steps) && Enabled(cfg, m, step) && !IsReceiving(m, step)
    ensures RowsTold(Next(cfg, m, step), steps + [step])
  {
    var m' := Next(cfg, m, step);
    OtherStepsKeepRows(cfg, m, step);
    forall id | id in m'.health
      ensures FoundOut(m', steps + [step], id, m'.health[id])
    {
      FoundOutStays(cfg, m, steps, step, id, m.health[id]);
    }
  }

  lemma ReceivedIsFoundOut(cfg: Config, m: Manager, steps: seq<Step>, step: Step) returns (id: string, ok: bool)
    requires RoundsTold(m, steps) && Enabled(cfg, m, step) && IsReceiving(m, step)
    ensures Next(cfg, m, step).health == m.health[id := ok]
    ensures FoundOut(Next(cfg, m, step), steps + [step], id, ok)
  {
    var m', last := Next(cfg, m, step), |m.rounds| - 1;
    ReceivingRecords(cfg, m, steps, step);
    OtherStepsTellNothing(steps, step, last);
    var i := Senders(steps, last)[m.rounds[last].taken];
    id, ok := m.rounds[last].checkers[i].id, Outcome(steps, last, i);
    assert RowFrom(m', steps + [step], last, m.rounds[last].taken, id, ok);
  }

  lemma ReceivingTellsRows(cfg: Config, m: Manager, steps: seq<Step>, step: Step)
    requires RoundsTold(m, steps) && RowsTold(m, steps) && Enabled(cfg, m, step) && IsReceiving(m, step)
    ensures RowsTold(Next(cfg, m, step), steps + [step])
  {
    var received, ok := ReceivedIsFoundOut(cfg, m, steps, step);
    forall id | id in Next(cfg, m, step).health
      ensures FoundOut(Next(cfg, m, step), steps + [step], id, Next(cfg, m, step).health[id])
    {
      if id != received {
        FoundOutStays(cfg, m, steps, step, id, m.health[id]);
      }
    }
  }

  lemma StepTellsRows(cfg: Config, m: Manager, steps: seq<Step>, step: Step)
    requires RoundsTold(m, steps) && RowsTold(m, steps) && Enabled(cfg, m, step)
    ensures RowsTold(Next(cfg, m, step), steps + [step])
  {
    if IsReceiving(m, step) {
      ReceivingTellsRows(cfg, m, steps, step);
    } else {
      OtherStepsTellRows(cfg, m, steps, step);
    }
  }

  // ---------------------------------------------------------------- whole runs

  lemma {:induction false} RunSnoc(cfg: Config, m: Manager, steps: seq<Step>, step: Step)
    requires Run(cfg, m, steps + [step])
    ensures Run(cfg, m, steps) && Enabled(cfg, Final(cfg, m, steps), step)
    ensures Final(cfg, m, steps + [step]) == Next(cfg, Final(cfg, m, steps), step)
    decreases |steps|
  {
    var all := steps + [step];
    if steps == [] {
      assert all[1..] == [];
    } else {
      assert all[0] == steps[0] && all[1..] == steps[1..] + [step];
      RunSnoc(cfg, Next(cfg, m, steps[0]), steps[1..], step);
    }
  }

  /** In every run: whatever is on its way in a channel, and every row of the health table, is the outcome of the ping of
      a checker of that peer. A failed ping or a panic is never reported as healthy. */
  lemma {:induction false} ReportsAreOutcomes(cfg: Config, steps: seq<Step>)
    requires Run(cfg, INITIAL, steps)
    ensures RoundsTold(Final(cfg, INITIAL, steps), steps) && RowsTold(Final(cfg, INITIAL, steps), steps)
    decreases |steps|
  {
    if steps != [] {
      var before, step := steps[..|steps| - 1], steps[|steps| - 1];
      assert steps == before + [step];
      RunSnoc(cfg, INITIAL, before, step);
      ReportsAreOutcomes(cfg, before);
      StepTellsRounds(cfg, Final(cfg, INITIAL, before), before, step);
      StepTellsRows(cfg, Final(cfg, INITIAL, before), before, step);
    }
  }

  // ---------------------------------------------------------------- a health check that comes to its end

  /** The row of the peer that a checker asked is what the checker found out. */
  ghost predicate Row(m: Manager, steps: seq<Step>, r: nat, i: nat) {
    && r < |m.rounds| && i < |m.rounds[r].checkers|
    && m.rounds[r].checkers[i].id in m.health
    && m.health[m.rounds[r].checkers[i].id] == Outcome(steps, r, i)
  }

  predicate Gathers(m: Manager) {
    HEALTH < |m.threads| && m.threads[HEALTH].Do? && m.threads[HEALTH].op == Gather && m.rounds != []
  }

  /** A thread gathers once for each round. */
  predicate GathersOnce(todo: Todo) {
    todo.Do? ==> GathersOnce(todo.rest) && (todo.op == Gather ==> !NeedsRound(todo.rest))
  }

  lemma HealthCheckGathersOnce()
    ensures GathersOnce(CheckPeerHealth())
  {
    assert GathersOnce(Do(Unlock(Health), End)) && GathersOnce(Do(Gather, Do(Unlock(Health), End)));
    assert GathersOnce(CollectHealth()) && GathersOnce(Do(Spawn, CollectHealth()));
    assert GathersOnce(Do(RUnlock(Peers), Do(Spawn, CollectHealth())));
  }

  ghost predicate RowsGathered(m: Manager, steps: seq<Step>, r: nat) {
    r < |m.rounds| &&
    forall k: nat | k < m.rounds[r].taken && k < |Senders(steps, r)| :: Row(m, steps, r, Senders(steps, r)[k])
  }

  /** While the health loop gathers, the rows of all it has received are what was found out; before, it has received
      nothing of its round. */
  ghost predicate GatherTold(m: Manager, steps: seq<Step>) {
    var last := |m.rounds| - 1;
    && (HEALTH < |m.threads| ==> GathersOnce(m.threads[HEALTH]))
    && (Gathers(m) ==> RowsGathered(m, steps, last))
    && (HEALTH < |m.threads| && NeedsRound(m.threads[HEALTH]) && m.threads[HEALTH].op != Gather ==>
          m.rounds != [] && m.rounds[last].taken == 0)
  }

  /** While the health loop gathers, nobody else changes the health table or the rounds. */
  lemma GathersAlone(cfg: Config, m: Manager, step: Step)
    requires Inv(cfg, m) && Gathers(m) && Enabled(cfg, m, step) && !IsReceiving(m, step)
    requires Gathers(Next(cfg, m, step))
    ensures Next(cfg, m, step).health == m.health && |Next(cfg, m, step).rounds| == |m.rounds|
  {
    assert Disciplined(m.threads[HEALTH]) && Inside(m.threads[HEALTH], Health);
    if step.Exec? {
      assert Disciplined(m.threads[step.t]) && Suits(step.t, m.threads[step.t]);
      if m.threads[step.t].op == DropOrphans {
        OneInside(m, Health, step.t, HEALTH);
      }
    }
  }

  lemma RowStays(cfg: Config, m: Manager, steps: seq<Step>, step: Step, r: nat, i: nat)
    requires RoundsTold(m, steps) && Enabled(cfg, m, step) && Row(m, steps, r, i)
    requires HasSent(m.rounds[r].checkers[i].stage) && Next(cfg, m, step).health == m.health
    ensures Row(Next(cfg, m, step), steps + [step], r, i)
  {
    SentAsksNoMore(cfg, m, steps, step, r, i);
    RoundsGrow(cfg, m, step, r);
  }

  lemma GatheredRowsStay(cfg: Config, m: Manager, steps: seq<Step>, step: Step, r: nat)
    requires RoundsTold(m, steps) && Enabled(cfg, m, step) && RowsGathered(m, steps, r)
    requires Next(cfg, m, step).health == m.health && !IsReceiving(m, step)
    ensures RowsGathered(Next(cfg, m, step), steps + [step], r)
  {
    var m' := Next(cfg, m, step);
    SendersAfter(steps, step, r);
    TakenOnlyByGather(cfg, m, step, r);
    assert RoundTold(m.rounds[r], r, steps);
    forall k: nat | k < m'.rounds[r].taken && k < |Senders(steps + [step], r)|
      ensures Row(m', steps + [step], r, Senders(steps + [step], r)[k])
    {
      SenderHasSent(m, steps, r, k);
      RowStays(cfg, m, steps, step, r, Senders(steps, r)[k]);
    }
  }

  lemma QuietGatherTold(cfg: Config, m: Manager, steps: seq<Step>, step: Step)
    requires Inv(cfg, m) && RoundsTold(m, steps) && GatherTold(m, steps) && Enabled(cfg, m, step)
    requires Gathers(m) && Gathers(Next(cfg, m, step)) && !IsReceiving(m, step)
    ensures GatherTold(Next(cfg, m, step), steps + [step])
  {
    GathersAlone(cfg, m, step);
    GatheredRowsStay(cfg, m, steps, step, |m.rounds| - 1);
  }

  lemma TakenOnlyByGather(cfg: Config, m: Manager, step: Step, r: nat)
    requires Enabled(cfg, m, step) && !IsReceiving(m, step) && r < |m.rounds|
    ensures r < |Next(cfg, m, step).rounds| && Next(cfg, m, step).rounds[r].taken == m.rounds[r].taken
  {
    if step.Exec? && m.threads[step.t].op == Spawn {
      SpawnChecksEveryPeerOnce(cfg, m, step.t, step.order);
    }
  }

  lemma OtherIds(m: Manager, r: nat, i: nat, j: nat)
    requires r < |m.rounds| && DistinctIds(m.rounds[r]) && i < |m.rounds[r].checkers| && j < |m.rounds[r].checkers|
    requires i != j
    ensures m.rounds[r].checkers[i].id != m.rounds[r].checkers[j].id
  {
  }

  /** One more result is received: its row is new, and the rows of the others stay, since all names differ. */
  lemma ReceivedRowsAreGathered(cfg: Config, m: Manager, steps: seq<Step>, step: Step)
    requires RoundsTold(m, steps) && Enabled(cfg, m, step) && IsReceiving(m, step)
    requires RowsGathered(m, steps, |m.rounds| - 1)
    ensures RowsGathered(Next(cfg, m, step), steps + [step], |m.rounds| - 1)
  {
    var m', last := Next(cfg, m, step), |m.rounds| - 1;
    var senders := Senders(steps, last);
    ReceivingRecords(cfg, m, steps, step);
    OtherStepsTellNothing(steps, step, last);
    assert RoundTold(m.rounds[last], last, steps) && DistinctIds(m.rounds[last]);
    forall k: nat | k < m'.rounds[last].taken && k < |senders|
      ensures Row(m', steps + [step], last, senders[k])
    {
      if k < m.rounds[last].taken {
        assert Row(m, steps, last, senders[k]);
        OtherIds(m, last, senders[k], senders[m.rounds[last].taken]);
      }
    }
  }

  lemma ReceivingGatherTold(cfg: Config, m: Manager, steps: seq<Step>, step: Step)
    requires RoundsTold(m, steps) && GatherTold(m, steps) && Enabled(cfg, m, step)
    requires Gathers(m) && IsReceiving(m, step)
    ensures GatherTold(Next(cfg, m, step), steps + [step])
  {
    ReceivedRowsAreGathered(cfg, m, steps, step);
    assert Next(cfg, m, step).threads == m.threads && |Next(cfg, m, step).rounds| == |m.rounds|;
  }

  /** A new program of the health loop gathers once. */
  lemma StartedGatherTold(cfg: Config, m: Manager, steps: seq<Step>, step: Step)
    requires Inv(cfg, m) && Enabled(cfg, m, step) && step.Start? && step.t == HEALTH
    ensures GatherTold(Next(cfg, m, step), steps + [step])
  {
    ProgramsSuit(HEALTH, step.program);
    HealthCheckGathersOnce();
  }

  /** A new round has taken nothing. */
  lemma SpawnedGatherTold(cfg: Config, m: Manager, steps: seq<Step>, step: Step)
    requires Inv(cfg, m) && GatherTold(m, steps) && Enabled(cfg, m, step) && step.Exec? && m.threads[step.t].op == Spawn
    ensures GatherTold(Next(cfg, m, step), steps + [step])
  {
    assert Suits(step.t, m.threads[step.t]);
    SpawnChecksEveryPeerOnce(cfg, m, step.t, step.order);
  }

  /** Only the health loop gathers. */
  lemma ReceivingGathers(cfg: Config, m: Manager, step: Step)
    requires Inv(cfg, m) && Enabled(cfg, m, step) && IsReceiving(m, step)
    ensures Gathers(m)
  {
    assert Suits(step.t, m.threads[step.t]);
  }

  /** What other steps leave to the health loop. */
  lemma HealthLoopAfter(cfg: Config, m: Manager, step: Step)
    requires Inv(cfg, m) && Enabled(cfg, m, step) && !IsReceiving(m, step)
    requires !(step.Start? && step.t == HEALTH) && !(step.Exec? && m.threads[step.t].op == Spawn)
    ensures var m' := Next(cfg, m, step);
            && HEALTH < |m'.threads| && |m'.rounds| == |m.rounds|
            && (m'.threads[HEALTH] == m.threads[HEALTH] ||
                (m.threads[HEALTH].Do? && m'.threads[HEALTH] == m.threads[HEALTH].rest))
  {
  }

  /** The health loop comes to its gathering. */
  lemma ArrivingGatherTold(cfg: Config, m: Manager, steps: seq<Step>, step: Step)
    requires Inv(cfg, m) && GatherTold(m, steps) && Enabled(cfg, m, step) && !Gathers(m)
    ensures GatherTold(Next(cfg, m, step), steps + [step])
  {
    if step.Start? && step.t == HEALTH {
      StartedGatherTold(cfg, m, steps, step);
    } else if step.Exec? && m.threads[step.t].op == Spawn {
      SpawnedGatherTold(cfg, m, steps, step);
    } else {
      if IsReceiving(m, step) {
        ReceivingGathers(cfg, m, step);
        assert false;
      }
      WaitingGatherTold(cfg, m, steps, step);
    }
  }

  lemma WaitingGatherTold(cfg: Config, m: Manager, steps: seq<Step>, step: Step)
    requires Inv(cfg, m) && GatherTold(m, steps) && Enabled(cfg, m, step) && !Gathers(m) && !IsReceiving(m, step)
    requires !(step.Start? && step.t == HEALTH) && !(step.Exec? && m.threads[step.t].op == Spawn)
    ensures GatherTold(Next(cfg, m, step), steps + [step])
  {
    HealthLoopAfter(cfg, m, step);
    if m.rounds != [] {
      TakenOnlyByGather(cfg, m, step, |m.rounds| - 1);
    }
    assert ThreadsOk(m) && NeedsRound(m.threads[HEALTH]) ==> m.rounds != [];
    ArrivedGatherTold(m, Next(cfg, m, step), steps, steps + [step]);
  }

  lemma ArrivedGatherTold(m: Manager, m': Manager, steps: seq<Step>, steps': seq<Step>)
    requires GatherTold(m, steps) && !Gathers(m) && HEALTH < |m.threads| && HEALTH < |m'.threads|
    requires |m'.rounds| == |m.rounds| && (NeedsRound(m.threads[HEALTH]) ==> m.rounds != [])
    requires m.rounds != [] ==> m'.rounds[|m.rounds| - 1].taken == m.rounds[|m.rounds| - 1].taken
    requires m'.threads[HEALTH] == m.threads[HEALTH] ||
             (m.threads[HEALTH].Do? && m.threads[HEALTH].op != Spawn && m'.threads[HEALTH] == m.threads[HEALTH].rest)
    ensures GatherTold(m', steps')
  {
    if Gathers(m') {
      assert m'.threads[HEALTH].op == Gather && m.rounds != [];
      assert m'.threads[HEALTH] == m.threads[HEALTH].rest && m.threads[HEALTH].op != Gather;
      assert NeedsRound(m.threads[HEALTH].rest) && NeedsRound(m.threads[HEALTH]);
      assert m'.rounds[|m.rounds| - 1].taken == 0;
    }
  }

  lemma LeavingGatherTold(cfg: Config, m: Manager, steps: seq<Step>, step: Step)
    requires Inv(cfg, m) && GatherTold(m, steps) && Enabled(cfg, m, step) && Gathers(m) && !Gathers(Next(cfg, m, step))
    ensures GatherTold(Next(cfg, m, step), steps + [step])
  {
    assert ThreadsOk(m) && Disciplined(m.threads[HEALTH]) && Suits(HEALTH, m.threads[HEALTH]);
    var rest := m.threads[HEALTH].rest;
    assert Inside(rest, Health);
    assert !NeedsRound(rest);
  }

  lemma StepTellsGather(cfg: Config, m: Manager, steps: seq<Step>, step: Step)
    requires Inv(cfg, m) && RoundsTold(m, steps) && GatherTold(m, steps) && Enabled(cfg, m, step)
    ensures GatherTold(Next(cfg, m, step), steps + [step])
  {
    if !Gathers(m) {
      ArrivingGatherTold(cfg, m, steps, step);
    } else if IsReceiving(m, step) {
      ReceivingGatherTold(cfg, m, steps, step);
    } else if Gathers(Next(cfg, m, step)) {
      QuietGatherTold(cfg, m, steps, step);
    } else {
      LeavingGatherTold(cfg, m, steps, step);
    }
  }

  lemma {:induction false} GathersAreTold(cfg: Config, steps: seq<Step>)
    requires Run(cfg, INITIAL, steps)
    ensures var m := Final(cfg, INITIAL, steps); Inv(cfg, m) && GatherTold(m, steps)
    decreases |steps|
  {
    InitialInv(cfg);
    RunKeepsInv(cfg, INITIAL, steps);
    if steps != [] {
      var before, step := steps[..|steps| - 1], steps[|steps| - 1];
      assert steps == before + [step];
      RunSnoc(cfg, INITIAL, before, step);
      GathersAreTold(cfg, before);
      ReportsAreOutcomes(cfg, before);
      StepTellsGather(cfg, Final(cfg, INITIAL, before), before, step);
    }
  }

  lemma AllHaveSent(cfg: Config, m: Manager, steps: seq<Step>, r: nat, i: nat)
    requires r < |m.rounds| && RoundOk(cfg, m.rounds[r]) && m.rounds[r].taken == |m.rounds[r].checkers|
    requires i < |m.rounds[r].checkers|
    ensures HasSent(m.rounds[r].checkers[i].stage)
  {
    if !HasSent(m.rounds[r].checkers[i].stage) {
      SumAtLeast(m.rounds[r].checkers, i, UnsentWeight);
      assert false;
    }
  }

  /** A health check that gathers to its end, in any run: the row of every peer it copied is the outcome of that peer's
      own ping, and unhealthy if its checker panicked. */
  lemma HealthCheckRecordsOutcomes(cfg: Config, steps: seq<Step>, m: Manager, order: seq<string>)
    requires Run(cfg, INITIAL, steps) && m == Final(cfg, INITIAL, steps)
    requires Enabled(cfg, m, Exec(HEALTH, order)) && m.threads[HEALTH].op == Gather && !Receives(m, Gather)
    ensures var r := |m.rounds| - 1;
            && r >= 0 && Next(cfg, m, Exec(HEALTH, order)).health == m.health
            && forall i: nat | i < |m.rounds[r].checkers| :: Row(m, steps, r, i)
  {
    GathersAreTold(cfg, steps);
    ReportsAreOutcomes(cfg, steps);
    EndedGatherTold(cfg, m, steps, order);
  }

  lemma EndedGatherTold(cfg: Config, m: Manager, steps: seq<Step>, order: seq<string>)
    requires Inv(cfg, m) && RoundsTold(m, steps) && GatherTold(m, steps) && Enabled(cfg, m, Exec(HEALTH, order))
    requires m.threads[HEALTH].op == Gather && !Receives(m, Gather)
    ensures var r := |m.rounds| - 1;
            && r >= 0 && Next(cfg, m, Exec(HEALTH, order)).health == m.health
            && forall i: nat | i < |m.rounds[r].checkers| :: Row(m, steps, r, i)
  {
    var r := |m.rounds| - 1;
    assert m.rounds[r] in m.rounds;
    assert RoundTold(m.rounds[r], r, steps);
    AllRowsAreOutcomes(cfg, m, steps, r);
  }

  lemma AllRowsAreOutcomes(cfg: Config, m: Manager, steps: seq<Step>, r: nat)
    requires RowsGathered(m, steps, r) && RoundOk(cfg, m.rounds[r]) && RoundTold(m.rounds[r], r, steps)
    requires m.rounds[r].taken == |m.rounds[r].checkers|
    ensures forall i: nat | i < |m.rounds[r].checkers| :: Row(m, steps, r, i)
  {
    SendersAreTaken(m, steps, r);
    forall i: nat | i < |m.rounds[r].checkers|
      ensures Row(m, steps, r, i)
    {
      AllHaveSent(cfg, m, steps, r, i);
      assert i in Senders(steps, r);
      var k :| 0 <= k < |Senders(steps, r)| && Senders(steps, r)[k] == i;
    }
  }

  lemma SendersAreTaken(m: Manager, steps: seq<Step>, r: nat)
    requires r < |m.rounds| && RoundTold(m.rounds[r], r, steps) && m.rounds[r].channel == []
    ensures |Senders(steps, r)| == m.rounds[r].taken
  {
  }
}
