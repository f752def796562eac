/** What holds of the application over whole runs of atomic steps. */
module LifecycleRuns {
  import opened Sequences
  import opened Lifecycle

  lemma {:induction false} RunConcat(s: State, a: seq<Step>, b: seq<Step>, coins: MainCoins)
    ensures Run(s, a + b, coins) == Run(Run(s, a, coins), b, coins)
    ensures Trace(s, a + b, coins) == Trace(s, a, coins) + Trace(Run(s, a, coins), b, coins)
    decreases |a|
  {
    hide Next;
    hide Outputs;
    if a == [] {
      assert a + b == b;
    } else {
      assert (a + b)[0] == a[0] && (a + b)[1..] == a[1..] + b;
      RunConcat(Next(s, a[0], coins), a[1..], b, coins);
    }
  }

  // ---- invariants of every run ----

  /** Handlers are subscribed all together or not at all, and a complete wallet has both main coins enabled. */
  ghost predicate Inv(s: State) {
    && Owned(s)
    && s.handlers == (if s.needRefresh then {} else ALL_HANDLERS)
    && (s.status == "complete" ==> s.primaryOn && s.secondaryOn)
  }

  lemma InvStep(s: State, step: Step, coins: MainCoins)
    requires Inv(s)
    ensures Inv(Next(s, step, coins))
  {
    OwnedStep(s, step, coins);
    hide Owned;
    hide FreedAll;
  }

  lemma {:induction false} InvRun(s: State, steps: seq<Step>, coins: MainCoins)
    requires Inv(s)
    ensures Inv(Run(s, steps, coins))
    decreases |steps|
  {
    hide Inv;
    hide Next;
    if steps != [] {
      InvStep(s, steps[0], coins);
      InvRun(Next(s, steps[0], coins), steps[1..], coins);
    }
  }

  /** How often any copy has been freed, in total. */
  function TotalFrees(blocks: seq<Block>): nat {
    if blocks == [] then 0 else TotalFrees(blocks[..|blocks| - 1]) + blocks[|blocks| - 1].frees
  }

  ghost function Below(pointers: seq<nat>, n: nat): set<nat> {
    set p | p in pointers && p < n
  }

  lemma BelowNext(pointers: seq<nat>, n: nat)
    ensures Below(pointers, n + 1) == Below(pointers, n) + if n in pointers then {n} else {}
    ensures |Below(pointers, n + 1)| == |Below(pointers, n)| + if n in pointers then 1 else 0
  {
    assert Below(pointers, n + 1) == Below(pointers, n) + if n in pointers then {n} else {};
  }

  lemma {:induction false} FreesBelow(blocks: seq<Block>, pointers: seq<nat>)
    requires forall p :: 0 <= p < |blocks| ==> blocks[p].frees == if p in pointers then 0 else 1
    ensures TotalFrees(blocks) + |Below(pointers, |blocks|)| == |blocks|
  {
    if blocks == [] {
      assert Below(pointers, 0) == {};
    } else {
      FreesBelow(blocks[..|blocks| - 1], pointers);
      BelowNext(pointers, |blocks| - 1);
    }
  }

  /** Over every run, copies made = copies freed + copies queued; and each copy is in exactly one of the two, once. */
  lemma CopiesConserved(steps: seq<Step>, coins: MainCoins)
    ensures var s := Run(INITIAL, steps, coins);
            Owned(s) && |s.blocks| == TotalFrees(s.blocks) + |s.portfolio|
  {
    InvRun(INITIAL, steps, coins);
    var s := Run(INITIAL, steps, coins);
    FreesBelow(s.blocks, s.portfolio);
    DistinctCount(s.portfolio, Below(s.portfolio, |s.blocks|));
  }

  // ---- session isolation ----

  /** Everything about a state that its future can depend on: not which copies hold the queued names. */
  ghost predicate Alike(s: State, t: State) {
    && Texts(s.blocks, s.portfolio) == Texts(t.blocks, t.portfolio)
    && s.(blocks := [], portfolio := []) == t.(blocks := [], portfolio := [])
  }

  lemma CopiedTexts(blocks: seq<Block>, portfolio: seq<nat>, tickers: seq<string>)
    requires forall p :: p in portfolio ==> p < |blocks|
    ensures Texts(blocks + Copies(tickers), portfolio + Fresh(|blocks|, |tickers|))
         == Texts(blocks, portfolio) + tickers
  {
    var added := Fresh(|blocks|, |tickers|);
    var all := blocks + Copies(tickers);
    forall i | 0 <= i < |portfolio| ensures Text(all, portfolio[i]) == Text(blocks, portfolio[i]) {
      assert portfolio[i] in portfolio;
    }
    forall i | 0 <= i < |tickers| ensures Text(all, added[i]) == tickers[i] {
      assert all[|blocks| + i] == Copies(tickers)[i];
    }
  }

  lemma AlikeTick(s: State, t: State, step: Step, coins: MainCoins)
    requires step.Tick? && Alike(s, t)
    ensures Outputs(s, step, coins) == Outputs(t, step, coins)
    ensures Alike(Next(s, step, coins), Next(t, step, coins))
  {
    hide FreedAll;
    hide FirstOccurrences;
    hide AnnounceOutputs;
    hide Refreshes;
    hide Served;
    var names := Texts(s.blocks, s.portfolio);
    assert |s.portfolio| == |names| == |t.portfolio|;
  }

  lemma AlikeEvent(s: State, t: State, step: Step, coins: MainCoins)
    requires Owned(s) && Owned(t) && !step.Tick? && Alike(s, t)
    ensures Outputs(s, step, coins) == Outputs(t, step, coins)
    ensures Alike(Next(s, step, coins), Next(t, step, coins))
  {
    hide FreedAll;
    if step.CoinsReady? {
      CopiedTexts(s.blocks, s.portfolio, step.tickers);
      CopiedTexts(t.blocks, t.portfolio, step.tickers);
    }
  }

  lemma {:induction false} AlikeRun(s: State, t: State, steps: seq<Step>, coins: MainCoins)
    requires Owned(s) && Owned(t) && Alike(s, t)
    ensures Trace(s, steps, coins) == Trace(t, steps, coins)
    ensures Alike(Run(s, steps, coins), Run(t, steps, coins))
    decreases |steps|
  {
    hide Owned;
    hide Alike;
    hide Next;
    hide Outputs;
    if steps != [] {
      if steps[0].Tick? { AlikeTick(s, t, steps[0], coins); } else { AlikeEvent(s, t, steps[0], coins); }
      OwnedStep(s, steps[0], coins);
      OwnedStep(t, steps[0], coins);
      AlikeRun(Next(s, steps[0], coins), Next(t, steps[0], coins), steps[1..], coins);
    }
  }

  lemma {:induction false} ExitingExactly(s: State, steps: seq<Step>, coins: MainCoins)
    ensures Run(s, steps, coins).exiting <==> s.exiting || Exit in steps
    decreases |steps|
  {
    if steps != [] {
      ExitingExactly(Next(s, steps[0], coins), steps[1..], coins);
      assert Exit in steps <==> steps[0] == Exit || Exit in steps[1..];
    }
  }

  /**
   * Session isolation: after a disconnection, the calls the application makes depend on the later
   * steps alone. Two histories that agree on whether the application is exiting are indistinguishable.
   */
  lemma SessionIsolation(history: seq<Step>, other: seq<Step>, session: seq<Step>, coins: MainCoins)
    requires Exit in history <==> Exit in other
    ensures Trace(Run(INITIAL, history + [Disconnect], coins), session, coins)
         == Trace(Run(INITIAL, other + [Disconnect], coins), session, coins)
  {
    var s, t := Run(INITIAL, history, coins), Run(INITIAL, other, coins);
    AfterDisconnect(history, coins);
    AfterDisconnect(other, coins);
    ExitingExactly(INITIAL, history, coins);
    ExitingExactly(INITIAL, other, coins);
    AlikeRun(Next(s, Disconnect, coins), Next(t, Disconnect, coins), session, coins);
  }

  /** The state in which a disconnection leaves the application. */
  lemma AfterDisconnect(history: seq<Step>, coins: MainCoins)
    ensures var s := Run(INITIAL, history, coins);
            var d := Run(INITIAL, history + [Disconnect], coins);
            && d == Next(s, Disconnect, coins) && Inv(d) && d.exiting == s.exiting
            && d.actions == [] && d.portfolio == [] && d.handlers == {} && !d.primaryOn && !d.secondaryOn
            && d.needRefresh && d.status == "None"
  {
    var s := Run(INITIAL, history, coins);
    RunConcat(INITIAL, history, [Disconnect], coins);
    assert [Disconnect][1..] == [];
    assert Run(s, [Disconnect], coins) == Run(Next(s, Disconnect, coins), [], coins);
    InvRun(INITIAL, history, coins);
    InvStep(s, Disconnect, coins);
  }

  /** Until a tick reconnects the handlers, the queues stay empty and the application makes only calls of its own. */
  lemma {:induction false} QuietUntilTick(s: State, steps: seq<Step>, coins: MainCoins)
    requires s.handlers == {} && s.actions == [] && s.portfolio == []
    requires forall step :: step in steps ==> !step.Tick?
    ensures var t := Run(s, steps, coins);
            t.handlers == {} && t.actions == [] && t.portfolio == [] && t.blocks == s.blocks
    ensures forall call :: call in Trace(s, steps, coins) ==> call == MarkKdf || call == ClearPages
    decreases |steps|
  {
    if steps != [] {
      QuietUntilTick(Next(s, steps[0], coins), steps[1..], coins);
    }
  }

  ghost function Named(names: seq<string>): set<string> {
    set t | t in names
  }

  /** The tickers that a step's event, if it is one, announces. */
  function TickersOf(step: Step): seq<string> {
    if step.CoinsReady? then step.tickers else []
  }

  /** The tickers announced by the events of a run. */
  ghost function AnnouncedIn(steps: seq<Step>): set<string> {
    set i, t | 0 <= i < |steps| && t in TickersOf(steps[i]) :: t
  }

  /** The batches that a trace initialised the portfolio with, in order. */
  function Batches(calls: seq<Output>): seq<seq<string>> {
    if calls == [] then []
    else
      var last := calls[|calls| - 1];
      Batches(calls[..|calls| - 1]) + if last.InitializePortfolio? then [last.tickers] else []
  }

  ghost function Members(batches: seq<seq<string>>): set<string> {
    set i, t | 0 <= i < |batches| && t in batches[i] :: t
  }

  /** The tickers that a trace initialised the portfolio with. */
  ghost function Initialised(calls: seq<Output>): set<string> {
    Members(Batches(calls))
  }

  lemma {:induction false} BatchesConcat(a: seq<Output>, b: seq<Output>)
    ensures Batches(a + b) == Batches(a) + Batches(b)
  {
    if b == [] {
      assert a + b == a;
    } else {
      assert (a + b)[..|a + b| - 1] == a + b[..|b| - 1];
      BatchesConcat(a, b[..|b| - 1]);
    }
  }

  lemma MembersConcat(a: seq<seq<string>>, b: seq<seq<string>>)
    ensures Members(a + b) == Members(a) + Members(b)
  {
    forall t | t in Members(b) ensures t in Members(a + b) {
      var i :| 0 <= i < |b| && t in b[i];
      assert (a + b)[|a| + i] == b[i];
    }
    forall t | t in Members(a) ensures t in Members(a + b) {
      var i :| 0 <= i < |a| && t in a[i];
      assert (a + b)[i] == a[i];
    }
  }

  lemma FewMembers(batch: seq<string>)
    ensures Members([]) == {}
    ensures Members([batch]) == Named(batch)
  {
    forall t | t in batch ensures t in Members([batch]) { assert [batch][0] == batch; }
  }

  lemma NothingInitialised()
    ensures Initialised([]) == {}
  {
  }

  lemma InitialisedConcat(a: seq<Output>, b: seq<Output>)
    ensures Initialised(a + b) == Initialised(a) + Initialised(b)
  {
    hide Members;
    BatchesConcat(a, b);
    MembersConcat(Batches(a), Batches(b));
  }

  lemma {:induction false} NoBatches(calls: seq<Output>)
    requires forall i :: 0 <= i < |calls| ==> !calls[i].InitializePortfolio?
    ensures Batches(calls) == []
  {
    if calls != [] { NoBatches(calls[..|calls| - 1]); }
  }

  lemma OneBatch(complete: bool, names: seq<string>, coins: MainCoins, charts: bool)
    ensures Batches(AnnounceOutputs(complete, names, coins, charts)) == [names]
  {
    var announce := AnnounceOutputs(complete, names, coins, charts);
    assert announce == [InitializePortfolio(names)] + announce[1..];
    BatchesConcat([InitializePortfolio(names)], announce[1..]);
    NoBatches(announce[1..]);
    assert [InitializePortfolio(names)][..0] == [];
  }

  /** What a single step initialises the portfolio with: the queued names, once each, when a tick drains any. */
  lemma BatchesStep(s: State, step: Step, coins: MainCoins)
    ensures Batches(Outputs(s, step, coins))
         == if step.Tick? && step.running(0) && s.portfolio != []
            then [FirstOccurrences(Texts(s.blocks, s.portfolio))] else []
  {
    hide AnnounceOutputs;
    hide FirstOccurrences;
    hide Refreshes;
    hide Batches;
    if step.Tick? {
      var head := if s.needRefresh then [CreateKdf] else [];
      var first, refreshes := TickPortfolioOutputs(s, step.running, coins, step.charts), Refreshes(Departures(s, step));
      NoBatches(head);
      NoBatches([ProcessTradingAction]);
      RefreshesAreOrders(Departures(s, step));
      NoBatches(refreshes);
      BatchesConcat(first, [ProcessTradingAction]);
      BatchesConcat(first + [ProcessTradingAction], refreshes);
      assert head + [] == head;
      if step.running(0) && s.portfolio != [] {
        var names := Texts(s.blocks, s.portfolio);
        var complete := (s.primaryOn || coins.primary in names) && (s.secondaryOn || coins.secondary in names);
        BatchesConcat(head, AnnounceOutputs(complete, FirstOccurrences(names), coins, step.charts));
        OneBatch(complete, FirstOccurrences(names), coins, step.charts);
      }
    } else {
      NoBatches(Outputs(s, step, coins));
    }
  }

  lemma InitialisedStep(s: State, step: Step, coins: MainCoins)
    ensures Initialised(Outputs(s, step, coins))
         == if step.Tick? && step.running(0) then Named(Texts(s.blocks, s.portfolio)) else {}
  {
    hide Outputs;
    BatchesStep(s, step, coins);
    FewMembers(FirstOccurrences(Texts(s.blocks, s.portfolio)));
  }

  /** The names queued after a step. */
  lemma NamesStep(s: State, step: Step, coins: MainCoins)
    requires Owned(s)
    ensures Texts(Next(s, step, coins).blocks, Next(s, step, coins).portfolio)
         == if step.Disconnect? || (step.Tick? && step.running(0)) then []
            else if step.CoinsReady? && CoinFullyInitialized in s.handlers && !s.exiting
            then Texts(s.blocks, s.portfolio) + step.tickers
            else Texts(s.blocks, s.portfolio)
  {
    hide FreedAll;
    if step.CoinsReady? { CopiedTexts(s.blocks, s.portfolio, step.tickers); }
  }

  lemma AnnouncedSplit(steps: seq<Step>)
    requires steps != []
    ensures AnnouncedIn(steps) == Named(TickersOf(steps[0])) + AnnouncedIn(steps[1..])
  {
    forall t | t in AnnouncedIn(steps) ensures t in Named(TickersOf(steps[0])) + AnnouncedIn(steps[1..]) {
      var i :| 0 <= i < |steps| && t in TickersOf(steps[i]);
      if i > 0 { assert steps[1..][i - 1] == steps[i]; }
    }
    forall t | t in AnnouncedIn(steps[1..]) ensures t in AnnouncedIn(steps) {
      var i :| 0 <= i < |steps[1..]| && t in TickersOf(steps[1..][i]);
      assert steps[i + 1] == steps[1..][i];
    }
  }

  /** Every ticker that reaches the portfolio was queued at the start or announced by an event of the run. */
  lemma {:induction false} InitialisedWereAnnounced(s: State, steps: seq<Step>, coins: MainCoins)
    requires Owned(s)
    ensures Initialised(Trace(s, steps, coins)) <= Named(Texts(s.blocks, s.portfolio)) + AnnouncedIn(steps)
    decreases |steps|
  {
    hide Owned;
    hide Next;
    hide Outputs;
    hide AnnouncedIn;
    hide Initialised;
    if steps != [] {
      var next := Next(s, steps[0], coins);
      OwnedStep(s, steps[0], coins);
      NamesStep(s, steps[0], coins);
      InitialisedStep(s, steps[0], coins);
      AnnouncedSplit(steps);
      InitialisedConcat(Outputs(s, steps[0], coins), Trace(next, steps[1..], coins));
      InitialisedWereAnnounced(next, steps[1..], coins);
    } else {
      NothingInitialised();
    }
  }

  /** In particular, what a session initialises was announced in that session. */
  lemma SessionInitialisesItsOwn(history: seq<Step>, session: seq<Step>, coins: MainCoins)
    ensures Initialised(Trace(Run(INITIAL, history + [Disconnect], coins), session, coins)) <= AnnouncedIn(session)
  {
    AfterDisconnect(history, coins);
    InitialisedWereAnnounced(Run(INITIAL, history + [Disconnect], coins), session, coins);
  }

  // ---- the flags ----

  lemma FlagsStep(s: State, step: Step, coins: MainCoins)
    requires !step.Disconnect?
    ensures var now := Initialised(Outputs(s, step, coins));
            && (Next(s, step, coins).primaryOn <==> s.primaryOn || coins.primary in now)
            && (Next(s, step, coins).secondaryOn <==> s.secondaryOn || coins.secondary in now)
  {
    hide Outputs;
    hide FreedAll;
    InitialisedStep(s, step, coins);
  }

  /** Since the last disconnection, a main coin counts as enabled exactly when the portfolio was initialised with it. */
  lemma {:induction false} FlagsExactly(s: State, steps: seq<Step>, coins: MainCoins)
    requires forall step :: step in steps ==> !step.Disconnect?
    ensures var t := Run(s, steps, coins);
            && (t.primaryOn <==> s.primaryOn || coins.primary in Initialised(Trace(s, steps, coins)))
            && (t.secondaryOn <==> s.secondaryOn || coins.secondary in Initialised(Trace(s, steps, coins)))
    decreases |steps|
  {
    hide Outputs;
    hide Next;
    if steps != [] {
      var next := Next(s, steps[0], coins);
      FlagsStep(s, steps[0], coins);
      InitialisedConcat(Outputs(s, steps[0], coins), Trace(next, steps[1..], coins));
      FlagsExactly(next, steps[1..], coins);
    }
  }

  /** A wallet is complete only when both main coins were initialised in the current session. */
  lemma CompleteMeansBoth(history: seq<Step>, session: seq<Step>, coins: MainCoins)
    requires forall step :: step in session ==> !step.Disconnect?
    requires Run(INITIAL, history + [Disconnect] + session, coins).status == "complete"
    ensures coins.primary in AnnouncedIn(session) && coins.secondary in AnnouncedIn(session)
  {
    var d := Run(INITIAL, history + [Disconnect], coins);
    RunConcat(INITIAL, history + [Disconnect], session, coins);
    AfterDisconnect(history, coins);
    InvRun(d, session, coins);
    FlagsExactly(d, session, coins);
    SessionInitialisesItsOwn(history, session, coins);
  }

  /** After initialising the portfolio the wallet is complete exactly when both main coins are enabled. */
  lemma TickCompletes(s: State, step: Step, coins: MainCoins)
    requires Inv(s) && step.Tick? && step.running(0) && s.portfolio != []
    ensures Next(s, step, coins).status == "complete" <==>
            Next(s, step, coins).primaryOn && Next(s, step, coins).secondaryOn
  {
    hide FreedAll;
    hide Owned;
  }

  /** A tick that finds the service stopped or nothing queued leaves portfolio, flags and status alone. */
  lemma TickIdles(s: State, step: Step, coins: MainCoins)
    requires step.Tick? && (!step.running(0) || s.portfolio == [])
    ensures var t := Next(s, step, coins);
            && t.portfolio == s.portfolio && t.blocks == s.blocks && t.status == s.status
            && t.primaryOn == s.primaryOn && t.secondaryOn == s.secondaryOn
    ensures Initialised(Outputs(s, step, coins)) == {}
  {
    hide Outputs;
    InitialisedStep(s, step, coins);
  }

  // ---- the actions queue ----

  /** Whether the handlers are subscribed, and whether the application is exiting, after a step. */
  function Listens(listening: bool, step: Step): bool {
    step.Tick? || (listening && !step.Disconnect?)
  }

  function Leaves(exiting: bool, step: Step): bool {
    exiting || step.Exit?
  }

  lemma ListensStep(s: State, step: Step, coins: MainCoins)
    ensures !Next(s, step, coins).needRefresh == Listens(!s.needRefresh, step)
    ensures Next(s, step, coins).exiting == Leaves(s.exiting, step)
  {
    hide FreedAll;
  }

  /** The action that a step's event adds to the queue, if any. */
  function AcceptedNow(listening: bool, exiting: bool, step: Step): seq<Action> {
    if step.OrdersDone? && listening && !exiting then [ActionFor(step.afterManualReset)] else []
  }

  /** The actions that a run's events add to the queue, told from the steps alone. */
  function Accepted(listening: bool, exiting: bool, steps: seq<Step>): seq<Action>
    decreases |steps|
  {
    if steps == [] then []
    else AcceptedNow(listening, exiting, steps[0]) +
         Accepted(Listens(listening, steps[0]), Leaves(exiting, steps[0]), steps[1..])
  }

  function RunDepartures(s: State, steps: seq<Step>, coins: MainCoins): seq<Departure>
    decreases |steps|
  {
    if steps == [] then []
    else Departures(s, steps[0]) + RunDepartures(Next(s, steps[0], coins), steps[1..], coins)
  }

  function ActionsOf(departures: seq<Departure>): (actions: seq<Action>)
    ensures |actions| == |departures|
    ensures forall i :: 0 <= i < |departures| ==> actions[i] == departures[i].action
  {
    seq(|departures|, i requires 0 <= i < |departures| => departures[i].action)
  }

  lemma ActionsConservedStep(s: State, step: Step, coins: MainCoins)
    requires Inv(s)
    ensures s.actions + AcceptedNow(!s.needRefresh, s.exiting, step)
         == ActionsOf(Departures(s, step)) + Next(s, step, coins).actions
  {
    hide Owned;
    hide FreedAll;
    assert ActionsOf(Departures(s, step)) == if step.Disconnect? || (step.Tick? && !s.exiting) then s.actions else [];
  }

  /**
   * First in, first out, and nothing lost: what was queued followed by what the events added is what
   * left the queue (dispatched, dropped or cleared), in order, followed by what is still queued.
   */
  lemma {:induction false} ActionsConserved(s: State, steps: seq<Step>, coins: MainCoins)
    requires Inv(s)
    ensures s.actions + Accepted(!s.needRefresh, s.exiting, steps)
         == ActionsOf(RunDepartures(s, steps, coins)) + Run(s, steps, coins).actions
    decreases |steps|
  {
    hide Inv;
    hide Next;
    hide Departures;
    if steps != [] {
      var next := Next(s, steps[0], coins);
      InvStep(s, steps[0], coins);
      ListensStep(s, steps[0], coins);
      ActionsConservedStep(s, steps[0], coins);
      ActionsConserved(next, steps[1..], coins);
      var now, later := ActionsOf(Departures(s, steps[0])), ActionsOf(RunDepartures(next, steps[1..], coins));
      assert ActionsOf(RunDepartures(s, steps, coins)) == now + later;
      Regroup(s.actions, AcceptedNow(!s.needRefresh, s.exiting, steps[0]),
              Accepted(!next.needRefresh, next.exiting, steps[1..]), now, next.actions, later,
              Run(s, steps, coins).actions);
    }
  }

  lemma Regroup<T>(a: seq<T>, b: seq<T>, c: seq<T>, d: seq<T>, e: seq<T>, f: seq<T>, g: seq<T>)
    requires a + b == d + e && e + c == f + g
    ensures a + (b + c) == (d + f) + g
  {
    assert a + (b + c) == (a + b) + c == d + (e + c) == d + (f + g);
  }

  /** The order refreshes among the calls. */
  function OrderCalls(calls: seq<Output>): seq<Output> {
    if calls == [] then []
    else
      var last := calls[|calls| - 1];
      OrderCalls(calls[..|calls| - 1]) + if last.RefreshOrders? then [last] else []
  }

  lemma {:induction false} OrderCallsConcat(a: seq<Output>, b: seq<Output>)
    ensures OrderCalls(a + b) == OrderCalls(a) + OrderCalls(b)
  {
    if b == [] {
      assert a + b == a;
    } else {
      assert (a + b)[..|a + b| - 1] == a + b[..|b| - 1];
      OrderCallsConcat(a, b[..|b| - 1]);
    }
  }

  lemma {:induction false} OnlyOrderCalls(calls: seq<Output>)
    ensures (forall i :: 0 <= i < |calls| ==> calls[i].RefreshOrders?) ==> OrderCalls(calls) == calls
    ensures (forall i :: 0 <= i < |calls| ==> !calls[i].RefreshOrders?) ==> OrderCalls(calls) == []
  {
    if calls != [] { OnlyOrderCalls(calls[..|calls| - 1]); }
  }

  lemma {:induction false} RefreshesAreOrders(departures: seq<Departure>)
    ensures forall i :: 0 <= i < |Refreshes(departures)| ==> Refreshes(departures)[i].RefreshOrders?
  {
    if departures != [] { RefreshesAreOrders(departures[..|departures| - 1]); }
  }

  lemma {:induction false} RefreshesConcat(a: seq<Departure>, b: seq<Departure>)
    ensures Refreshes(a + b) == Refreshes(a) + Refreshes(b)
  {
    if b == [] {
      assert a + b == a;
    } else {
      assert (a + b)[..|a + b| - 1] == a + b[..|b| - 1];
      RefreshesConcat(a, b[..|b| - 1]);
    }
  }

  lemma {:induction false} ClearedRefreshNothing(actions: seq<Action>)
    ensures Refreshes(ClearedAll(actions)) == []
  {
    if actions != [] {
      var front := actions[..|actions| - 1];
      assert ClearedAll(actions)[..|actions| - 1] == ClearedAll(front);
      ClearedRefreshNothing(front);
    }
  }

  lemma TickPortfolioRefreshesNoOrders(s: State, running: nat -> bool, coins: MainCoins, charts: bool)
    ensures OrderCalls(TickPortfolioOutputs(s, running, coins, charts)) == []
  {
    hide FirstOccurrences;
    hide OrderCalls;
    OnlyOrderCalls(TickPortfolioOutputs(s, running, coins, charts));
  }

  lemma OrderCallsStep(s: State, step: Step, coins: MainCoins)
    ensures OrderCalls(Outputs(s, step, coins)) == Refreshes(Departures(s, step))
  {
    hide TickPortfolioOutputs;
    hide OrderCalls;
    if step.Tick? {
      var first := TickPortfolioOutputs(s, step.running, coins, step.charts);
      var refreshes := Refreshes(Departures(s, step));
      TickPortfolioRefreshesNoOrders(s, step.running, coins, step.charts);
      OrderCallsConcat(first, [ProcessTradingAction]);
      OnlyOrderCalls([ProcessTradingAction]);
      OrderCallsConcat(first + [ProcessTradingAction], refreshes);
      RefreshesAreOrders(Departures(s, step));
      OnlyOrderCalls(refreshes);
    } else {
      OnlyOrderCalls(Outputs(s, step, coins));
      ClearedRefreshNothing(s.actions);
    }
  }

  /** Orders are refreshed once per dispatched action, in order, with the action's reset flag, and never otherwise. */
  lemma {:induction false} OrderCallsAreDispatches(s: State, steps: seq<Step>, coins: MainCoins)
    ensures OrderCalls(Trace(s, steps, coins)) == Refreshes(RunDepartures(s, steps, coins))
    decreases |steps|
  {
    hide Next;
    hide Outputs;
    hide Departures;
    if steps != [] {
      var next := Next(s, steps[0], coins);
      OrderCallsStep(s, steps[0], coins);
      OrderCallsAreDispatches(next, steps[1..], coins);
      OrderCallsConcat(Outputs(s, steps[0], coins), Trace(next, steps[1..], coins));
      RefreshesConcat(Departures(s, steps[0]), RunDepartures(next, steps[1..], coins));
    }
  }

  /** A session refreshes orders only for its own events: at most one refresh per accepted event. */
  lemma SessionDispatchesItsOwn(history: seq<Step>, session: seq<Step>, coins: MainCoins)
    ensures Accepted(false, Exit in history, session)
         == ActionsOf(RunDepartures(Run(INITIAL, history + [Disconnect], coins), session, coins))
            + Run(Run(INITIAL, history + [Disconnect], coins), session, coins).actions
  {
    AfterDisconnect(history, coins);
    var d := Run(INITIAL, history + [Disconnect], coins);
    ExitingExactly(INITIAL, history, coins);
    ActionsConserved(d, session, coins);
    assert d.actions + Accepted(false, d.exiting, session) == Accepted(false, d.exiting, session);
  }

  // ---- leaving ----

  lemma AfterExitStep(s: State, step: Step, coins: MainCoins)
    requires s.exiting
    ensures var t := Next(s, step, coins);
            && t.exiting
            && (t.actions == s.actions || t.actions == []) && (t.portfolio == s.portfolio || t.portfolio == [])
            && |t.blocks| == |s.blocks|
  {
    hide FreedAll;
    match step {
      case Tick(_, _) =>
      case Disconnect =>
      case CoinsReady(_) =>
      case OrdersDone(_) =>
      case _ =>
    }
  }

  lemma NoOrdersAfterExit(s: State, step: Step, coins: MainCoins)
    requires s.exiting
    ensures OrderCalls(Outputs(s, step, coins)) == []
  {
    hide Outputs;
    hide OrderCalls;
    OrderCallsStep(s, step, coins);
    ClearedRefreshNothing(s.actions);
  }

  /** Once the application is about to exit it stays so: the queues never grow and no order refresh is made. */
  lemma {:induction false} AfterExit(s: State, steps: seq<Step>, coins: MainCoins)
    requires s.exiting
    ensures Run(s, steps, coins).exiting
    ensures Run(s, steps, coins).actions == s.actions || Run(s, steps, coins).actions == []
    ensures Run(s, steps, coins).portfolio == s.portfolio || Run(s, steps, coins).portfolio == []
    ensures |Run(s, steps, coins).blocks| == |s.blocks|
    ensures OrderCalls(Trace(s, steps, coins)) == []
    decreases |steps|
  {
    hide Next;
    hide Outputs;
    if steps != [] {
      var next := Next(s, steps[0], coins);
      AfterExitStep(s, steps[0], coins);
      NoOrdersAfterExit(s, steps[0], coins);
      OrderCallsConcat(Outputs(s, steps[0], coins), Trace(next, steps[1..], coins));
      AfterExit(next, steps[1..], coins);
    }
  }
}
