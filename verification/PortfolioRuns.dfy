/**
 * What becomes of the tickers queued for the portfolio over whole runs, and what each batch of them makes the
 * application call.
 */
module PortfolioRuns {
  import opened Sequences
  import opened Lifecycle
  import opened LifecycleRuns

  // ---- first in, first out ----

  /** The ticker names that a run's events add to the queue, told from the steps alone. */
  function AcceptedTickers(listening: bool, exiting: bool, steps: seq<Step>): seq<string>
    decreases |steps|
  {
    if steps == [] then []
    else (if listening && !exiting then TickersOf(steps[0]) else []) +
         AcceptedTickers(Listens(listening, steps[0]), Leaves(exiting, steps[0]), steps[1..])
  }

  /** The names leaving the queue together, drained into the portfolio by a tick or cleared by a disconnection. */
  datatype Leaving = Leaving(names: seq<string>, drained: bool)

  function Leavings(s: State, step: Step): seq<Leaving> {
    var names := Texts(s.blocks, s.portfolio);
    if step.Disconnect? then [Leaving(names, false)]
    else if step.Tick? && step.running(0) && s.portfolio != [] then [Leaving(names, true)]
    else []
  }

  function RunLeavings(s: State, steps: seq<Step>, coins: MainCoins): seq<Leaving>
    decreases |steps|
  {
    if steps == [] then []
    else Leavings(s, steps[0]) + RunLeavings(Next(s, steps[0], coins), steps[1..], coins)
  }

  /** The names that left, one after the other. */
  function NamesOf(leavings: seq<Leaving>): seq<string> {
    if leavings == [] then [] else leavings[0].names + NamesOf(leavings[1..])
  }

  /** The batches that the portfolio ought to be initialised with. */
  function Drains(leavings: seq<Leaving>): seq<seq<string>> {
    if leavings == [] then []
    else (if leavings[0].drained then [FirstOccurrences(leavings[0].names)] else []) + Drains(leavings[1..])
  }

  lemma LeavingsJoin(now: seq<Leaving>, later: seq<Leaving>)
    requires |now| <= 1
    ensures NamesOf(now + later) == NamesOf(now) + NamesOf(later)
    ensures Drains(now + later) == Drains(now) + Drains(later)
  {
    hide FirstOccurrences;
    if now == [] {
      assert now + later == later;
    } else {
      assert (now + later)[1..] == later && now[1..] == [];
    }
  }

  lemma TickersConservedStep(s: State, step: Step, coins: MainCoins)
    requires Inv(s)
    ensures Texts(s.blocks, s.portfolio) + (if !s.needRefresh && !s.exiting then TickersOf(step) else [])
         == NamesOf(Leavings(s, step)) + Texts(Next(s, step, coins).blocks, Next(s, step, coins).portfolio)
  {
    hide FreedAll;
    hide Next;
    NamesStep(s, step, coins);
    var names := Texts(s.blocks, s.portfolio);
    assert names + [] == names && [] + names == names;
    assert forall l: Leaving :: [l][1..] == [];
  }

  /**
   * First in, first out, and nothing lost: the names queued at the start and those the events added are, in
   * order, the names that left the queue, drained or cleared, and those still queued.
   */
  lemma {:induction false} TickersConserved(s: State, steps: seq<Step>, coins: MainCoins)
    requires Inv(s)
    ensures Texts(s.blocks, s.portfolio) + AcceptedTickers(!s.needRefresh, s.exiting, steps)
         == NamesOf(RunLeavings(s, steps, coins)) + Texts(Run(s, steps, coins).blocks, Run(s, steps, coins).portfolio)
    decreases |steps|
  {
    hide Next;
    hide Inv;
    hide Leavings;
    hide NamesOf;
    if steps != [] {
      var next := Next(s, steps[0], coins);
      var now, later := Leavings(s, steps[0]), RunLeavings(next, steps[1..], coins);
      InvStep(s, steps[0], coins);
      ListensStep(s, steps[0], coins);
      TickersConservedStep(s, steps[0], coins);
      TickersConserved(next, steps[1..], coins);
      OneLeaving(s, steps[0]);
      LeavingsJoin(now, later);
      var t := Run(s, steps, coins);
      Regroup(Texts(s.blocks, s.portfolio), if !s.needRefresh && !s.exiting then TickersOf(steps[0]) else [],
              AcceptedTickers(!next.needRefresh, next.exiting, steps[1..]), NamesOf(now),
              Texts(next.blocks, next.portfolio), NamesOf(later), Texts(t.blocks, t.portfolio));
    } else {
      NoLeavings();
    }
  }

  lemma OneLeaving(s: State, step: Step)
    ensures |Leavings(s, step)| <= 1
  {
  }

  lemma NoLeavings()
    ensures NamesOf([]) == [] && Drains([]) == []
  {
  }

  /** The portfolio is initialised with the drained names and nothing else: each time with one drain, once each. */
  lemma {:induction false} BatchesAreDrains(s: State, steps: seq<Step>, coins: MainCoins)
    ensures Batches(Trace(s, steps, coins)) == Drains(RunLeavings(s, steps, coins))
    decreases |steps|
  {
    hide Next;
    hide Outputs;
    hide Batches;
    hide FirstOccurrences;
    if steps != [] {
      var next := Next(s, steps[0], coins);
      BatchesStep(s, steps[0], coins);
      BatchesAreDrains(next, steps[1..], coins);
      BatchesConcat(Outputs(s, steps[0], coins), Trace(next, steps[1..], coins));
      LeavingsJoin(Leavings(s, steps[0]), RunLeavings(next, steps[1..], coins));
      assert forall l: Leaving :: [l][1..] == [];
    } else {
      NoBatches([]);
    }
  }

  lemma {:induction false} DrainedHaveLeft(leavings: seq<Leaving>)
    ensures Members(Drains(leavings)) <= Named(NamesOf(leavings))
  {
    FewMembers([]);
    if leavings != [] {
      var first := leavings[0];
      DrainedHaveLeft(leavings[1..]);
      FewMembers(FirstOccurrences(first.names));
      MembersConcat(if first.drained then [FirstOccurrences(first.names)] else [], Drains(leavings[1..]));
    }
  }

  /** Every ticker that reaches the portfolio was queued at the start or accepted from an event of the run. */
  lemma InitialisedWereAccepted(s: State, steps: seq<Step>, coins: MainCoins)
    requires Inv(s)
    ensures Initialised(Trace(s, steps, coins))
         <= Named(Texts(s.blocks, s.portfolio) + AcceptedTickers(!s.needRefresh, s.exiting, steps))
  {
    TickersConserved(s, steps, coins);
    BatchesAreDrains(s, steps, coins);
    DrainedHaveLeft(RunLeavings(s, steps, coins));
  }

  /** A session drains, clears or still queues, in order, exactly the tickers accepted in it. */
  lemma SessionKeepsItsTickers(history: seq<Step>, session: seq<Step>, coins: MainCoins)
    ensures var d := Run(INITIAL, history + [Disconnect], coins);
            var end := Run(d, session, coins);
            && AcceptedTickers(false, Exit in history, session)
               == NamesOf(RunLeavings(d, session, coins)) + Texts(end.blocks, end.portfolio)
            && Initialised(Trace(d, session, coins)) <= Named(AcceptedTickers(false, Exit in history, session))
  {
    var d := Run(INITIAL, history + [Disconnect], coins);
    AfterDisconnect(history, coins);
    ExitingExactly(INITIAL, history, coins);
    TickersConserved(d, session, coins);
    InitialisedWereAccepted(d, session, coins);
    var accepted := AcceptedTickers(false, d.exiting, session);
    assert Texts(d.blocks, d.portfolio) + accepted == accepted;
  }

  /** The tickers of a batch keep the order in which they first occur in the queue. */
  lemma {:induction false} FirstOccurrencesOrder(names: seq<string>, i: nat, j: nat)
    requires i < j < |FirstOccurrences(names)|
    ensures IndexOf(names, FirstOccurrences(names)[i]) < IndexOf(names, FirstOccurrences(names)[j])
  {
    var front, last := names[..|names| - 1], names[|names| - 1];
    var r := FirstOccurrences(front);
    assert names == front + [last];
    IndexOfPrefix(front, last, FirstOccurrences(names)[i]);
    IndexOfPrefix(front, last, FirstOccurrences(names)[j]);
    if j < |r| {
      FirstOccurrencesOrder(front, i, j);
    } else {
      assert FirstOccurrences(names)[i] == r[i] && r[i] in front;
    }
  }

  lemma IndexOfPrefix(front: seq<string>, last: string, x: string)
    ensures x in front ==> IndexOf(front + [last], x) == IndexOf(front, x)
    ensures x == last && x !in front ==> IndexOf(front + [last], x) == |front|
  {
    if x in front {
      IndexOfUnique(front + [last], x, IndexOf(front, x));
    } else if x == last {
      IndexOfUnique(front + [last], x, |front|);
    }
  }

  // ---- the calls of a batch ----

  /** How often a call occurs. */
  function Count(calls: seq<Output>, call: Output): nat {
    multiset(calls)[call]
  }

  lemma {:induction false} OtherCalls(departures: seq<Departure>, call: Output)
    requires !call.RefreshOrders?
    ensures Count(Refreshes(departures), call) == 0
  {
    if departures != [] { OtherCalls(departures[..|departures| - 1], call); }
  }

  lemma CountConcat(a: seq<Output>, b: seq<Output>, call: Output)
    ensures Count(a + b, call) == Count(a, call) + Count(b, call)
  {
  }

  /** How often initialising the portfolio with `names` makes a call. */
  function Expected(call: Output, names: seq<string>, complete: bool, coins: MainCoins, charts: bool): nat {
    match call
    case InitializePortfolio(tickers) => if tickers == names then 1 else 0
    case ResetTransactions | TxFetchFinished => if complete && coins.primary in names then 1 else 0
    case RefreshTickerInfos => if complete then 1 else 0
    case UpdatePortfolioValues => 1
    case RefreshCharts => if charts then 1 else 0
    case _ => 0
  }

  lemma OneAnnouncement(complete: bool, names: seq<string>, coins: MainCoins, charts: bool, call: Output)
    ensures Count(AnnounceOutputs(complete, names, coins, charts), call)
         == Expected(call, names, complete, coins, charts)
  {
    hide Count;
    var reset := if coins.primary in names then [ResetTransactions, TxFetchFinished] else [];
    var completed := if complete then reset + [RefreshTickerInfos] else [];
    var refresh := if charts then [RefreshCharts] else [];
    var first := InitializePortfolio(names);
    CountConcat([first] + completed + [UpdatePortfolioValues], refresh, call);
    CountConcat([first] + completed, [UpdatePortfolioValues], call);
    CountConcat([first], completed, call);
    CountConcat(reset, [RefreshTickerInfos], call);
    CountConcat([ResetTransactions], [TxFetchFinished], call);
    assert [ResetTransactions] + [TxFetchFinished] == [ResetTransactions, TxFetchFinished];
    NoCall(call);
    OneCall(first, call);
    OneCall(ResetTransactions, call);
    OneCall(TxFetchFinished, call);
    OneCall(RefreshTickerInfos, call);
    OneCall(UpdatePortfolioValues, call);
    OneCall(RefreshCharts, call);
  }

  /**
   * A tick that finds the service running and tickers queued initialises the portfolio once, with each
   * ticker once; only a batch with the primary coin resets the transactions, and only of a complete wallet.
   */
  lemma TickAnnounces(s: State, step: Step, coins: MainCoins, call: Output)
    requires step.Tick? && step.running(0) && s.portfolio != [] && !call.RefreshOrders?
    ensures Count(Outputs(s, step, coins), call)
         == Expected(call, FirstOccurrences(Texts(s.blocks, s.portfolio)),
                     Next(s, step, coins).primaryOn && Next(s, step, coins).secondaryOn, coins, step.charts)
            + (if call == ProcessTradingAction || (call == CreateKdf && s.needRefresh) then 1 else 0)
  {
    hide FreedAll;
    hide Refreshes;
    hide AnnounceOutputs;
    hide FirstOccurrences;
    hide Count;
    var names := FirstOccurrences(Texts(s.blocks, s.portfolio));
    var complete := Next(s, step, coins).primaryOn && Next(s, step, coins).secondaryOn;
    var head := if s.needRefresh then [CreateKdf] else [];
    var announce := AnnounceOutputs(complete, names, coins, step.charts);
    CountConcat(head + announce + [ProcessTradingAction], Refreshes(Departures(s, step)), call);
    CountConcat(head + announce, [ProcessTradingAction], call);
    CountConcat(head, announce, call);
    OneAnnouncement(complete, names, coins, step.charts, call);
    OtherCalls(Departures(s, step), call);
    NoCall(call);
    OneCall(CreateKdf, call);
    OneCall(ProcessTradingAction, call);
  }

  lemma OneCall(made: Output, call: Output)
    ensures Count([made], call) == if call == made then 1 else 0
  {
  }

  lemma NoCall(call: Output)
    ensures Count([], call) == 0
  {
  }

  /** The calls that only initialising the portfolio makes. */
  predicate OfBatches(call: Output) {
    call.UpdatePortfolioValues? || call.RefreshTickerInfos? || call.ResetTransactions? || call.TxFetchFinished?
  }

  /** A step that initialises nothing makes none of these calls. */
  lemma OtherStepsQuiet(s: State, step: Step, coins: MainCoins, call: Output)
    requires OfBatches(call) && !(step.Tick? && step.running(0) && s.portfolio != [])
    ensures Count(Outputs(s, step, coins), call) == 0
  {
    hide Refreshes;
    if step.Tick? {
      var head := if s.needRefresh then [CreateKdf] else [];
      assert TickPortfolioOutputs(s, step.running, coins, step.charts) == head;
      CountConcat(head + [ProcessTradingAction], Refreshes(Departures(s, step)), call);
      OtherCalls(Departures(s, step), call);
    }
  }

  /** The main coin's flag after names have left the queue: set by a drain with the coin, reset by a disconnection. */
  function FlagAfter(on: bool, left: Leaving, coin: string): bool {
    left.drained && (on || coin in left.names)
  }

  /** The drains after which both main coins are enabled. */
  function Completions(primaryOn: bool, secondaryOn: bool, leavings: seq<Leaving>, coins: MainCoins): seq<Leaving>
    decreases |leavings|
  {
    if leavings == [] then []
    else
      var p := FlagAfter(primaryOn, leavings[0], coins.primary);
      var q := FlagAfter(secondaryOn, leavings[0], coins.secondary);
      (if p && q then [leavings[0]] else []) + Completions(p, q, leavings[1..], coins)
  }

  /** How many of them brought a coin. */
  function Bringing(leavings: seq<Leaving>, coin: string): nat {
    if leavings == [] then 0
    else (if coin in leavings[0].names then 1 else 0) + Bringing(leavings[1..], coin)
  }

  lemma FlagsAfterStep(s: State, step: Step, coins: MainCoins)
    ensures var t := Next(s, step, coins);
            if Leavings(s, step) == [] then t.primaryOn == s.primaryOn && t.secondaryOn == s.secondaryOn
            else
              && t.primaryOn == FlagAfter(s.primaryOn, Leavings(s, step)[0], coins.primary)
              && t.secondaryOn == FlagAfter(s.secondaryOn, Leavings(s, step)[0], coins.secondary)
  {
    hide FreedAll;
  }

  /** How often the calls of one step are made, told from what left the queue. */
  lemma CountStep(s: State, step: Step, coins: MainCoins)
    ensures var calls := Outputs(s, step, coins);
            var done := Completions(s.primaryOn, s.secondaryOn, Leavings(s, step), coins);
            && Count(calls, UpdatePortfolioValues) == |Drains(Leavings(s, step))|
            && Count(calls, RefreshTickerInfos) == |done|
            && Count(calls, ResetTransactions) == Bringing(done, coins.primary)
            && Count(calls, TxFetchFinished) == Bringing(done, coins.primary)
  {
    hide Outputs;
    hide Next;
    hide Count;
    hide FirstOccurrences;
    FlagsAfterStep(s, step, coins);
    assert forall l: Leaving :: [l][1..] == [];
    if step.Tick? && step.running(0) && s.portfolio != [] {
      TickAnnounces(s, step, coins, UpdatePortfolioValues);
      TickAnnounces(s, step, coins, RefreshTickerInfos);
      TickAnnounces(s, step, coins, ResetTransactions);
      TickAnnounces(s, step, coins, TxFetchFinished);
    } else {
      OtherStepsQuiet(s, step, coins, UpdatePortfolioValues);
      OtherStepsQuiet(s, step, coins, RefreshTickerInfos);
      OtherStepsQuiet(s, step, coins, ResetTransactions);
      OtherStepsQuiet(s, step, coins, TxFetchFinished);
    }
  }

  lemma {:induction false} BringingConcat(a: seq<Leaving>, b: seq<Leaving>, coin: string)
    ensures Bringing(a + b, coin) == Bringing(a, coin) + Bringing(b, coin)
  {
    if a == [] {
      assert a + b == b;
    } else {
      assert (a + b)[1..] == a[1..] + b;
      BringingConcat(a[1..], b, coin);
    }
  }

  lemma CompletionsJoin(s: State, step: Step, later: seq<Leaving>, coins: MainCoins)
    ensures Completions(s.primaryOn, s.secondaryOn, Leavings(s, step) + later, coins)
         == Completions(s.primaryOn, s.secondaryOn, Leavings(s, step), coins) +
            Completions(Next(s, step, coins).primaryOn, Next(s, step, coins).secondaryOn, later, coins)
  {
    hide Next;
    FlagsAfterStep(s, step, coins);
    var now := Leavings(s, step);
    if now == [] {
      assert now + later == later;
    } else {
      assert (now + later)[1..] == later && now[1..] == [];
    }
  }

  /**
   * Over whole runs, disconnections included: portfolio values are updated once per drain, ticker infos
   * refreshed once per drain that leaves both main coins enabled, and the transactions reset, and announced
   * as fetched, once per such drain that brought the primary coin.
   */
  lemma {:induction false} CallsCounted(s: State, steps: seq<Step>, coins: MainCoins)
    ensures var calls := Trace(s, steps, coins);
            var left := RunLeavings(s, steps, coins);
            var done := Completions(s.primaryOn, s.secondaryOn, left, coins);
            && Count(calls, UpdatePortfolioValues) == |Drains(left)| == |Batches(calls)|
            && Count(calls, RefreshTickerInfos) == |done|
            && Count(calls, ResetTransactions) == Count(calls, TxFetchFinished) == Bringing(done, coins.primary)
    decreases |steps|
  {
    hide Next;
    hide Outputs;
    hide Leavings;
    hide FlagAfter;
    hide Count;
    BatchesAreDrains(s, steps, coins);
    if steps == [] {
      NoCall(UpdatePortfolioValues);
      NoCall(RefreshTickerInfos);
      NoCall(ResetTransactions);
      NoCall(TxFetchFinished);
    } else {
      var step := steps[0];
      var next := Next(s, step, coins);
      var now, later := Outputs(s, step, coins), Trace(next, steps[1..], coins);
      CountStep(s, step, coins);
      CallsCounted(next, steps[1..], coins);
      OneLeaving(s, step);
      LeavingsJoin(Leavings(s, step), RunLeavings(next, steps[1..], coins));
      CompletionsJoin(s, step, RunLeavings(next, steps[1..], coins), coins);
      BringingConcat(Completions(s.primaryOn, s.secondaryOn, Leavings(s, step), coins),
                     Completions(next.primaryOn, next.secondaryOn, RunLeavings(next, steps[1..], coins), coins),
                     coins.primary);
      CountConcat(now, later, UpdatePortfolioValues);
      CountConcat(now, later, RefreshTickerInfos);
      CountConcat(now, later, ResetTransactions);
      CountConcat(now, later, TxFetchFinished);
    }
  }
}
