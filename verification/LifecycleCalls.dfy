/** Which calls a run makes, how often and in which order, told from its steps; and what it leaves as status. */
module LifecycleCalls {
  import opened Wrappers
  import opened Sequences
  import opened Lifecycle
  import opened LifecycleRuns
  import opened PortfolioRuns

  // ---- order refreshes ----

  /**
   * A tick refreshes orders once for each action queued, in order, provided the service runs when the action's
   * turn comes, and with a reset exactly when the action asks for it.
   */
  lemma TickRefreshes(s: State, running: nat -> bool, charts: bool, coins: MainCoins) returns (at: seq<nat>)
    requires !s.exiting
    ensures Increasing(at)
    ensures forall i: nat :: i in at <==> i < |s.actions| && running(1 + i)
    ensures var calls := OrderCalls(Outputs(s, Tick(running, charts), coins));
            && |calls| == |at|
            && forall k :: 0 <= k < |at| ==>
                 at[k] < |s.actions| && calls[k] == RefreshOrders(s.actions[at[k]] == OrdersFinishedAfterReset)
  {
    hide Outputs;
    hide Refreshes;
    at := ServedRefreshes(s.actions, running);
    OrderCallsStep(s, Tick(running, charts), coins);
  }

  /** The reset flags of the events waiting to be served. */
  ghost function FlagsOf(actions: seq<Action>): (flags: seq<bool>)
    ensures |flags| == |actions|
    ensures forall i :: 0 <= i < |actions| ==> (flags[i] <==> actions[i] == OrdersFinishedAfterReset)
  {
    seq(|actions|, i requires 0 <= i < |actions| => actions[i] == OrdersFinishedAfterReset)
  }

  ghost function RefreshCalls(flags: seq<bool>): (calls: seq<Output>)
    ensures |calls| == |flags|
    ensures forall i :: 0 <= i < |flags| ==> calls[i] == RefreshOrders(flags[i])
  {
    seq(|flags|, i requires 0 <= i < |flags| => RefreshOrders(flags[i]))
  }

  /** The flags at whose turn the service is running: the first is answered by `running(1)`. */
  ghost function Answered(flags: seq<bool>, running: nat -> bool): seq<bool> {
    if flags == [] then []
    else Answered(flags[..|flags| - 1], running) + if running(|flags|) then [flags[|flags| - 1]] else []
  }

  ghost function AnsweredNow(waiting: seq<bool>, exiting: bool, step: Step): seq<bool> {
    if step.Tick? && !exiting then Answered(waiting, step.running) else []
  }

  ghost function WaitingAfter(waiting: seq<bool>, listening: bool, exiting: bool, step: Step): seq<bool> {
    if step.Disconnect? || (step.Tick? && !exiting) then []
    else if step.OrdersDone? && listening && !exiting then waiting + [step.afterManualReset]
    else waiting
  }

  /** The reset flags of the events that a run answers with a refresh, told from the steps alone. */
  ghost function AnsweredIn(waiting: seq<bool>, listening: bool, exiting: bool, steps: seq<Step>): seq<bool>
    decreases |steps|
  {
    if steps == [] then []
    else AnsweredNow(waiting, exiting, steps[0]) +
         AnsweredIn(WaitingAfter(waiting, listening, exiting, steps[0]), Listens(listening, steps[0]),
                    Leaves(exiting, steps[0]), steps[1..])
  }

  lemma {:induction false} ServedAnswers(actions: seq<Action>, running: nat -> bool)
    ensures Refreshes(Served(actions, running)) == RefreshCalls(Answered(FlagsOf(actions), running))
  {
    if actions != [] {
      var n := |actions| - 1;
      LastServed(actions, running);
      ServedAnswers(actions[..n], running);
      assert FlagsOf(actions)[..n] == FlagsOf(actions[..n]);
    }
  }

  lemma AnswersStep(s: State, step: Step, coins: MainCoins)
    requires Inv(s)
    ensures OrderCalls(Outputs(s, step, coins)) == RefreshCalls(AnsweredNow(FlagsOf(s.actions), s.exiting, step))
    ensures FlagsOf(Next(s, step, coins).actions)
         == WaitingAfter(FlagsOf(s.actions), !s.needRefresh, s.exiting, step)
  {
    hide Outputs;
    hide Answered;
    hide OrderCalls;
    hide Refreshes;
    hide FreedAll;
    hide Owned;
    OrderCallsStep(s, step, coins);
    match step {
      case Tick(running, _) => ServedAnswers(s.actions, running); NoRefreshes();
      case Disconnect => ClearedRefreshNothing(s.actions);
      case _ => NoRefreshes();
    }
  }

  lemma NoRefreshes()
    ensures Refreshes([]) == []
  {
  }

  /**
   * Over every run the order refreshes are, in order, those of the events accepted while subscribed and not
   * exiting, served by the next tick before a disconnection, while the service ran: each with its event's flag.
   */
  lemma {:induction false} RunAnswers(s: State, steps: seq<Step>, coins: MainCoins)
    requires Inv(s)
    ensures OrderCalls(Trace(s, steps, coins))
         == RefreshCalls(AnsweredIn(FlagsOf(s.actions), !s.needRefresh, s.exiting, steps))
    decreases |steps|
  {
    hide Inv;
    hide Next;
    hide Outputs;
    hide AnsweredNow;
    hide WaitingAfter;
    if steps != [] {
      var next := Next(s, steps[0], coins);
      InvStep(s, steps[0], coins);
      ListensStep(s, steps[0], coins);
      AnswersStep(s, steps[0], coins);
      RunAnswers(next, steps[1..], coins);
      OrderCallsConcat(Outputs(s, steps[0], coins), Trace(next, steps[1..], coins));
    }
  }

  // ---- the order of the calls of a step ----

  ghost function Rank(call: Output): nat {
    match call
    case ClearPages => 0
    case MarkKdf => 1
    case CreateKdf => 2
    case InitializePortfolio(_) => 3
    case ResetTransactions => 4
    case TxFetchFinished => 5
    case RefreshTickerInfos => 6
    case UpdatePortfolioValues => 7
    case RefreshCharts => 8
    case ProcessTradingAction => 9
    case RefreshOrders(_) => 10
  }

  /** The calls come in the order of their ranks, and only orders are refreshed more than once. */
  ghost predicate InOrder(calls: seq<Output>) {
    forall i, j :: 0 <= i < j < |calls| ==>
      Rank(calls[i]) < Rank(calls[j]) || (calls[i].RefreshOrders? && calls[j].RefreshOrders?)
  }

  ghost predicate Between(calls: seq<Output>, low: nat, high: nat) {
    forall i :: 0 <= i < |calls| ==> low <= Rank(calls[i]) < high
  }

  lemma OrderJoin(a: seq<Output>, b: seq<Output>, low: nat, middle: nat, high: nat)
    requires InOrder(a) && InOrder(b) && low <= middle <= high
    requires Between(a, low, middle) && Between(b, middle, high)
    ensures InOrder(a + b) && Between(a + b, low, high)
  {
    hide Rank;
  }

  lemma AnnounceInOrder(complete: bool, names: seq<string>, coins: MainCoins, charts: bool)
    ensures InOrder(AnnounceOutputs(complete, names, coins, charts))
    ensures Between(AnnounceOutputs(complete, names, coins, charts), 3, 9)
  {
  }

  lemma RefreshesInOrder(departures: seq<Departure>)
    ensures InOrder(Refreshes(departures)) && Between(Refreshes(departures), 10, 11)
  {
    hide Refreshes;
    RefreshesAreOrders(departures);
  }

  lemma FewInOrder()
    ensures InOrder([]) && Between([], 2, 3) && Between([], 3, 9)
    ensures InOrder([CreateKdf]) && Between([CreateKdf], 2, 3)
    ensures InOrder([ProcessTradingAction]) && Between([ProcessTradingAction], 9, 10)
    ensures InOrder([MarkKdf]) && InOrder([ClearPages, MarkKdf])
  {
  }

  /** Whatever a step does, its calls come in one fixed order. */
  lemma CallsInOrder(s: State, step: Step, coins: MainCoins)
    ensures InOrder(Outputs(s, step, coins))
  {
    hide AnnounceOutputs;
    hide Refreshes;
    hide FirstOccurrences;
    hide InOrder;
    hide Between;
    FewInOrder();
    if step.Tick? {
      var names := Texts(s.blocks, s.portfolio);
      var complete := (s.primaryOn || coins.primary in names) && (s.secondaryOn || coins.secondary in names);
      var head := if s.needRefresh then [CreateKdf] else [];
      var announce := if !step.running(0) || s.portfolio == [] then []
                      else AnnounceOutputs(complete, FirstOccurrences(names), coins, step.charts);
      AnnounceInOrder(complete, FirstOccurrences(names), coins, step.charts);
      RefreshesInOrder(Departures(s, step));
      OrderJoin(head, announce, 2, 3, 9);
      OrderJoin(head + announce, [ProcessTradingAction], 2, 9, 10);
      OrderJoin(head + announce + [ProcessTradingAction], Refreshes(Departures(s, step)), 2, 10, 11);
    }
  }

  // ---- how often ----

  /** A tick that initialises nothing reconnects if needed and lets the trading page work, and that is all. */
  lemma IdleTickCalls(s: State, step: Step, coins: MainCoins, call: Output)
    requires step.Tick? && (!step.running(0) || s.portfolio == []) && !call.RefreshOrders?
    ensures Count(Outputs(s, step, coins), call)
         == if call == ProcessTradingAction || (call == CreateKdf && s.needRefresh) then 1 else 0
  {
    hide Refreshes;
    hide Count;
    var head := if s.needRefresh then [CreateKdf] else [];
    assert TickPortfolioOutputs(s, step.running, coins, step.charts) == head;
    CountConcat(head + [ProcessTradingAction], Refreshes(Departures(s, step)), call);
    CountConcat(head, [ProcessTradingAction], call);
    OtherCalls(Departures(s, step), call);
    NoCall(call);
    OneCall(CreateKdf, call);
    OneCall(ProcessTradingAction, call);
  }

  /** The calls that do not depend on what is queued. */
  ghost predicate OfSteps(call: Output) {
    call.ClearPages? || call.MarkKdf? || call.CreateKdf? || call.ProcessTradingAction?
  }

  /** Whether a step makes such a call. */
  ghost predicate Makes(listening: bool, step: Step, call: Output) {
    match step
    case Tick(_, _) => call.ProcessTradingAction? || (call.CreateKdf? && !listening)
    case Disconnect => call.ClearPages? || call.MarkKdf?
    case Exit => call.MarkKdf?
    case _ => false
  }

  ghost function Made(listening: bool, steps: seq<Step>, call: Output): nat
    decreases |steps|
  {
    if steps == [] then 0
    else (if Makes(listening, steps[0], call) then 1 else 0) + Made(Listens(listening, steps[0]), steps[1..], call)
  }

  lemma MadeTick(s: State, step: Step, coins: MainCoins, call: Output)
    requires OfSteps(call) && step.Tick?
    ensures Count(Outputs(s, step, coins), call) == if Makes(!s.needRefresh, step, call) then 1 else 0
  {
    hide Outputs;
    hide Next;
    hide Count;
    if step.running(0) && s.portfolio != [] {
      TickAnnounces(s, step, coins, call);
    } else {
      IdleTickCalls(s, step, coins, call);
    }
  }

  lemma MadeStep(s: State, step: Step, coins: MainCoins, call: Output)
    requires OfSteps(call)
    ensures Count(Outputs(s, step, coins), call) == if Makes(!s.needRefresh, step, call) then 1 else 0
  {
    hide Count;
    NoCall(call);
    OneCall(MarkKdf, call);
    match step {
      case Tick(_, _) => MadeTick(s, step, coins, call);
      case Disconnect =>
        OneCall(ClearPages, call);
        CountConcat([ClearPages], [MarkKdf], call);
        assert [ClearPages] + [MarkKdf] == [ClearPages, MarkKdf];
      case _ =>
    }
  }

  /**
   * Over every run the trading page works once per tick, the service is created once per tick that finds the
   * handlers gone and marked once per disconnection and exit, and the pages are cleared once per disconnection.
   */
  lemma {:induction false} RunMade(s: State, steps: seq<Step>, coins: MainCoins, call: Output)
    requires OfSteps(call)
    ensures Count(Trace(s, steps, coins), call) == Made(!s.needRefresh, steps, call)
    decreases |steps|
  {
    hide Next;
    hide Outputs;
    hide Count;
    hide Makes;
    if steps == [] {
      NoCall(call);
    } else {
      var next := Next(s, steps[0], coins);
      ListensStep(s, steps[0], coins);
      MadeStep(s, steps[0], coins, call);
      RunMade(next, steps[1..], coins, call);
      CountConcat(Outputs(s, steps[0], coins), Trace(next, steps[1..], coins), call);
    }
  }

  // ---- the status ----

  /** The status that a step sets, if it sets one. */
  ghost function Sets(s: State, step: Step, coins: MainCoins): Option<string> {
    match step
    case Disconnect => Some("None")
    case Login => Some("initializing_kdf")
    case KdfReady => if s.needRefresh then None else Some("enabling_coins")
    case Tick(running, _) =>
      var names := Texts(s.blocks, s.portfolio);
      if running(0) && names != [] &&
         (s.primaryOn || coins.primary in names) && (s.secondaryOn || coins.secondary in names)
      then Some("complete") else None
    case _ => None
  }

  lemma SetsStep(s: State, step: Step, coins: MainCoins)
    requires Inv(s)
    ensures Next(s, step, coins).status
         == if Sets(s, step, coins).Some? then Sets(s, step, coins).value else s.status
  {
    hide FreedAll;
    hide Owned;
  }

  /** After a run the status is what the last step that set one made it, and unchanged when none did. */
  lemma {:induction false} StatusAfter(s: State, steps: seq<Step>, coins: MainCoins) returns (n: nat)
    requires Inv(s)
    ensures n <= |steps|
    ensures n == 0 ==> Run(s, steps, coins).status == s.status
    ensures n > 0 ==> Sets(Run(s, steps[..n - 1], coins), steps[n - 1], coins) == Some(Run(s, steps, coins).status)
    ensures forall m :: n <= m < |steps| ==> Sets(Run(s, steps[..m], coins), steps[m], coins).None?
    decreases |steps|
  {
    hide Inv;
    hide Next;
    hide Sets;
    if steps == [] {
      n := 0;
    } else {
      var next, rest := Next(s, steps[0], coins), steps[1..];
      InvStep(s, steps[0], coins);
      SetsStep(s, steps[0], coins);
      var later := StatusAfter(next, rest, coins);
      assert steps[..0] == [];
      forall m | 0 < m <= |steps| ensures Run(s, steps[..m], coins) == Run(next, rest[..m - 1], coins) {
        assert steps[..m][1..] == rest[..m - 1];
      }
      n := if later > 0 then later + 1 else if Sets(s, steps[0], coins).Some? then 1 else 0;
    }
  }
}
