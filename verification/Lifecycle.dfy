/**
 * The application's lifecycle as a step machine over values: two queues, the heap copies of
 * ticker names, the flags, the subscriptions and the calls made to other components.
 */
module Lifecycle {
  import opened Sequences

  /** The kinds of work that callbacks leave to the next tick. */
  datatype Action = OrdersFinished | OrdersFinishedAfterReset

  /** What the application subscribes to, itself or through its pages. */
  datatype Handler =
    | NotificationSignals | TradingSignals | AddressbookSignals
    | TickerBalanceUpdated | FiatRateUpdated | CoinFullyInitialized | KdfInitialized | OrdersAndSwapsFinished

  const ALL_HANDLERS: set<Handler> := {
    NotificationSignals, TradingSignals, AddressbookSignals,
    TickerBalanceUpdated, FiatRateUpdated, CoinFullyInitialized, KdfInitialized, OrdersAndSwapsFinished }

  /** A heap copy of a ticker name and how often it has been freed. */
  datatype Block = Block(text: string, frees: nat)

  datatype State = State(
    actions: seq<Action>,
    portfolio: seq<nat>,     // pointers: indices of blocks
    blocks: seq<Block>,      // every copy ever made
    primaryOn: bool,
    secondaryOn: bool,
    exiting: bool,
    needRefresh: bool,
    handlers: set<Handler>,
    status: string)

  /** Calls into components whose bodies are not modelled. */
  datatype Output =
    | CreateKdf
    | MarkKdf
    | ClearPages
    | InitializePortfolio(tickers: seq<string>)
    | ResetTransactions
    | TxFetchFinished
    | RefreshTickerInfos
    | UpdatePortfolioValues
    | RefreshCharts
    | ProcessTradingAction
    | RefreshOrders(afterReset: bool)

  /** `running(0)` answers the drain of the portfolio queue, `running(1 + i)` the `i`th action. */
  datatype Step =
    | Tick(running: nat -> bool, charts: bool)
    | Disconnect
    | Exit
    | Login
    | CoinsReady(tickers: seq<string>)
    | KdfReady
    | OrdersDone(afterManualReset: bool)

  /** The two coins that must be enabled before the wallet counts as complete. */
  datatype MainCoins = MainCoins(primary: string, secondary: string)

  const INITIAL := State([], [], [], false, false, false, false, ALL_HANDLERS, "")

  // ---- heap copies ----

  function Text(blocks: seq<Block>, p: nat): string {
    if p < |blocks| then blocks[p].text else ""
  }

  /** The ticker names that a sequence of pointers stands for. */
  function Texts(blocks: seq<Block>, pointers: seq<nat>): (texts: seq<string>)
    ensures |texts| == |pointers|
    ensures forall i :: 0 <= i < |pointers| ==> texts[i] == Text(blocks, pointers[i])
  {
    seq(|pointers|, i requires 0 <= i < |pointers| => Text(blocks, pointers[i]))
  }

  function Freed(blocks: seq<Block>, p: nat): (r: seq<Block>)
    ensures |r| == |blocks|
  {
    if p < |blocks| then blocks[p := blocks[p].(frees := blocks[p].frees + 1)] else blocks
  }

  function FreedAll(blocks: seq<Block>, pointers: seq<nat>): (r: seq<Block>)
    ensures |r| == |blocks|
  {
    if pointers == [] then blocks
    else Freed(FreedAll(blocks, pointers[..|pointers| - 1]), pointers[|pointers| - 1])
  }

  function Copies(tickers: seq<string>): (copies: seq<Block>)
    ensures |copies| == |tickers|
    ensures forall i :: 0 <= i < |tickers| ==> copies[i] == Block(tickers[i], 0)
  {
    seq(|tickers|, i requires 0 <= i < |tickers| => Block(tickers[i], 0))
  }

  /** The pointers of `count` fresh copies. */
  function Fresh(first: nat, count: nat): (pointers: seq<nat>)
    ensures |pointers| == count
    ensures forall i :: 0 <= i < count ==> pointers[i] == first + i
  {
    seq(count, i requires 0 <= i => first + i)
  }

  // ---- the portfolio queue ----

  /** The names without later repetitions, in order of first occurrence. */
  function FirstOccurrences(names: seq<string>): (r: seq<string>)
    ensures forall x :: x in r <==> x in names
    ensures Distinct(r)
  {
    if names == [] then []
    else
      var r := FirstOccurrences(names[..|names| - 1]);
      var last := names[|names| - 1];
      assert names == names[..|names| - 1] + [last];
      if last in r then r else r + [last]
  }

  function Connected(s: State): State {
    if s.needRefresh then s.(handlers := s.handlers + ALL_HANDLERS, needRefresh := false) else s
  }

  /** Every queued copy is read, noted in the flags, and freed. */
  function Drained(s: State, coins: MainCoins): State {
    var names := Texts(s.blocks, s.portfolio);
    s.(portfolio := [],
       blocks := FreedAll(s.blocks, s.portfolio),
       primaryOn := s.primaryOn || coins.primary in names,
       secondaryOn := s.secondaryOn || coins.secondary in names)
  }

  /** The status once the portfolio has been initialised with some coins. */
  function Announced(s: State): State {
    if s.primaryOn && s.secondaryOn then s.(status := "complete") else s
  }

  /** `complete` tells whether both main coins are enabled. */
  function AnnounceOutputs(complete: bool, names: seq<string>, coins: MainCoins, charts: bool): seq<Output> {
    [InitializePortfolio(names)] +
    (if complete then
       (if coins.primary in names then [ResetTransactions, TxFetchFinished] else []) + [RefreshTickerInfos]
     else []) +
    [UpdatePortfolioValues] + (if charts then [RefreshCharts] else [])
  }

  // ---- the actions queue ----

  /** What becomes of an action that leaves the queue. */
  datatype Fate = Dispatched | Dropped | Cleared

  datatype Departure = Departure(action: Action, fate: Fate)

  function Served(actions: seq<Action>, running: nat -> bool): (r: seq<Departure>)
    ensures |r| == |actions|
    ensures forall i :: 0 <= i < |r| ==> r[i].action == actions[i]
  {
    seq(|actions|, i requires 0 <= i < |actions| =>
      Departure(actions[i], if running(1 + i) then Dispatched else Dropped))
  }

  function ClearedAll(actions: seq<Action>): (r: seq<Departure>)
    ensures |r| == |actions|
    ensures forall i :: 0 <= i < |r| ==> r[i] == Departure(actions[i], Cleared)
  {
    seq(|actions|, i requires 0 <= i < |actions| => Departure(actions[i], Cleared))
  }

  /** The order refreshes that departures cause: one per dispatched action, with its reset flag. */
  function Refreshes(departures: seq<Departure>): seq<Output> {
    if departures == [] then []
    else
      var last := departures[|departures| - 1];
      Refreshes(departures[..|departures| - 1]) +
      if last.fate == Dispatched then [RefreshOrders(last.action == OrdersFinishedAfterReset)] else []
  }

  /** The order refresh that each action asks for: with a reset, or without. */
  ghost function Wishes(actions: seq<Action>): (calls: seq<Output>)
    ensures |calls| == |actions|
    ensures forall i :: 0 <= i < |actions| ==> calls[i] == RefreshOrders(actions[i] == OrdersFinishedAfterReset)
  {
    seq(|actions|, i requires 0 <= i < |actions| => RefreshOrders(actions[i] == OrdersFinishedAfterReset))
  }

  /** The calls are the refreshes, in order, of exactly the actions at whose turn the service was running. */
  ghost predicate RefreshedAt(actions: seq<Action>, running: nat -> bool, calls: seq<Output>, at: seq<nat>) {
    && Increasing(at) && Picks(Wishes(actions), at, calls)
    && forall i: nat :: i in at <==> i < |actions| && running(1 + i)
  }

  lemma LastServed(actions: seq<Action>, running: nat -> bool)
    requires actions != []
    ensures var n := |actions| - 1;
            && Refreshes(Served(actions, running))
               == Refreshes(Served(actions[..n], running)) + (if running(1 + n) then [Wishes(actions)[n]] else [])
            && Wishes(actions)[..n] == Wishes(actions[..n])
  {
    var n := |actions| - 1;
    assert Served(actions, running)[..n] == Served(actions[..n], running);
  }

  lemma {:induction false} ServedRefreshes(actions: seq<Action>, running: nat -> bool) returns (at: seq<nat>)
    ensures RefreshedAt(actions, running, Refreshes(Served(actions, running)), at)
  {
    if actions == [] {
      at := [];
    } else {
      var n := |actions| - 1;
      var front := ServedRefreshes(actions[..n], running);
      LastServed(actions, running);
      hide Refreshes;
      hide Served;
      hide Wishes;
      PicksNext(Wishes(actions), front, Refreshes(Served(actions[..n], running)));
      hide Picks;
      hide Increasing;
      at := if running(1 + n) then front + [n] else front;
    }
  }

  // ---- steps ----

  /** The state after the portfolio part of a tick. */
  function TickPortfolio(s: State, running: nat -> bool, coins: MainCoins): State {
    var c := Connected(s);
    if !running(0) || c.portfolio == [] then c
    else Announced(Drained(c, coins))
  }

  function TickPortfolioOutputs(s: State, running: nat -> bool, coins: MainCoins, charts: bool): seq<Output> {
    var names := Texts(s.blocks, s.portfolio);
    var complete := (s.primaryOn || coins.primary in names) && (s.secondaryOn || coins.secondary in names);
    (if s.needRefresh then [CreateKdf] else []) +
    (if !running(0) || s.portfolio == [] then []
     else AnnounceOutputs(complete, FirstOccurrences(names), coins, charts))
  }

  function Next(s: State, step: Step, coins: MainCoins): State {
    match step
    case Tick(running, _) =>
      var t := TickPortfolio(s, running, coins);
      if t.exiting then t else t.(actions := [])
    case Disconnect =>
      s.(actions := [], portfolio := [], blocks := FreedAll(s.blocks, s.portfolio),
         primaryOn := false, secondaryOn := false, needRefresh := true,
         handlers := s.handlers - ALL_HANDLERS, status := "None")
    case Exit => s.(exiting := true)
    case Login => s.(status := "initializing_kdf")
    case CoinsReady(tickers) =>
      if CoinFullyInitialized !in s.handlers || s.exiting then s
      else s.(blocks := s.blocks + Copies(tickers), portfolio := s.portfolio + Fresh(|s.blocks|, |tickers|))
    case KdfReady =>
      if KdfInitialized !in s.handlers then s else s.(status := "enabling_coins")
    case OrdersDone(afterManualReset) =>
      if OrdersAndSwapsFinished !in s.handlers || s.exiting then s
      else s.(actions := s.actions + [ActionFor(afterManualReset)])
  }

  function ActionFor(afterManualReset: bool): Action {
    if afterManualReset then OrdersFinishedAfterReset else OrdersFinished
  }

  /** The actions leaving the queue in a step, in order, with what becomes of them. */
  function Departures(s: State, step: Step): seq<Departure> {
    match step
    case Tick(running, _) => if s.exiting then [] else Served(s.actions, running)
    case Disconnect => ClearedAll(s.actions)
    case _ => []
  }

  function Outputs(s: State, step: Step, coins: MainCoins): seq<Output> {
    match step
    case Tick(running, charts) =>
      TickPortfolioOutputs(s, running, coins, charts) + [ProcessTradingAction] + Refreshes(Departures(s, step))
    case Disconnect => [ClearPages, MarkKdf]
    case Exit => [MarkKdf]
    case _ => []
  }

  // ---- runs ----

  function Run(s: State, steps: seq<Step>, coins: MainCoins): State
    decreases |steps|
  {
    if steps == [] then s else Run(Next(s, steps[0], coins), steps[1..], coins)
  }

  /** The calls made during a run. */
  function Trace(s: State, steps: seq<Step>, coins: MainCoins): seq<Output>
    decreases |steps|
  {
    if steps == [] then []
    else Outputs(s, steps[0], coins) + Trace(Next(s, steps[0], coins), steps[1..], coins)
  }

  // ---- ownership of the heap copies ----

  /** Every copy is queued exactly once and not freed, or not queued and freed exactly once. */
  ghost predicate Owned(s: State) {
    && Distinct(s.portfolio)
    && (forall p :: p in s.portfolio ==> p < |s.blocks|)
    && (forall p :: 0 <= p < |s.blocks| ==> s.blocks[p].frees == if p in s.portfolio then 0 else 1)
  }

  lemma {:induction false} FreedAllAt(blocks: seq<Block>, pointers: seq<nat>, p: nat)
    requires Distinct(pointers) && p < |blocks|
    ensures FreedAll(blocks, pointers)[p]
         == if p in pointers then blocks[p].(frees := blocks[p].frees + 1) else blocks[p]
  {
    if pointers != [] {
      var front, last := pointers[..|pointers| - 1], pointers[|pointers| - 1];
      assert pointers == front + [last];
      assert last !in front;
      FreedAllAt(blocks, front, p);
    }
  }

  /** Draining or clearing the queue frees every queued copy once. */
  lemma OwnedAfterFreeing(s: State)
    requires Owned(s)
    ensures forall p :: 0 <= p < |s.blocks| ==> FreedAll(s.blocks, s.portfolio)[p].frees == 1
  {
    forall p | 0 <= p < |s.blocks| ensures FreedAll(s.blocks, s.portfolio)[p].frees == 1 {
      FreedAllAt(s.blocks, s.portfolio, p);
    }
  }

  lemma OwnedAfterCopying(s: State, tickers: seq<string>)
    requires Owned(s)
    ensures Owned(s.(blocks := s.blocks + Copies(tickers), portfolio := s.portfolio + Fresh(|s.blocks|, |tickers|)))
  {
    var added := Fresh(|s.blocks|, |tickers|);
    var blocks, portfolio := s.blocks + Copies(tickers), s.portfolio + added;
    forall i | 0 <= i < |s.portfolio| ensures portfolio[i] < |s.blocks| {
      assert s.portfolio[i] in s.portfolio;
    }
    forall p | |s.blocks| <= p < |blocks| ensures p in portfolio && blocks[p].frees == 0 {
      assert added[p - |s.blocks|] == p;
    }
    assert forall p :: 0 <= p < |s.blocks| ==> blocks[p] == s.blocks[p] && p !in added;
  }

  lemma OwnedStep(s: State, step: Step, coins: MainCoins)
    requires Owned(s)
    ensures Owned(Next(s, step, coins))
  {
    match step
    case Tick(running, _) => OwnedAfterFreeing(s);
    case Disconnect => OwnedAfterFreeing(s);
    case CoinsReady(tickers) => OwnedAfterCopying(s, tickers);
    case _ =>
  }
}
