/** The application object: callbacks fill the queues, ticks and disconnection empty them. */
module Application {
  import opened Lifecycle

  class App {
    const coins: MainCoins
    var actionsQueue: seq<Action>
    var portfolioQueue: seq<nat>
    var heap: seq<Block>
    var primaryOn: bool
    var secondaryOn: bool
    var aboutToExit: bool
    var needRefresh: bool
    var handlers: set<Handler>
    var status: string
    var calls: seq<Output>

    ghost function View(): State
      reads this
    {
      State(actionsQueue, portfolioQueue, heap, primaryOn, secondaryOn, aboutToExit, needRefresh, handlers, status)
    }

    ghost predicate Valid()
      reads this
    {
      Owned(View())
    }

    /** The object did what the step means, and made the step's calls. */
    twostate predicate Did(step: Step)
      reads this
    {
      && View() == Next(old(View()), step, coins)
      && calls == old(calls) + Outputs(old(View()), step, coins)
    }

    constructor (coins: MainCoins)
      ensures Valid() && View() == INITIAL && calls == [] && this.coins == coins
    {
      this.coins := coins;
      actionsQueue, portfolioQueue, heap := [], [], [];
      primaryOn, secondaryOn, aboutToExit, needRefresh := false, false, false, false;
      handlers := ALL_HANDLERS;
      status, calls := "", [];
    }

    // ---- heap copies ----

    /** Duplicates a string on the heap. */
    method StrDup(text: string) returns (p: nat)
      modifies this`heap
      ensures p == |old(heap)| && heap == old(heap) + [Block(text, 0)]
    {
      p := |heap|;
      heap := heap + [Block(text, 0)];
    }

    /** Frees a copy; freeing one twice would violate the precondition. */
    method Free(p: nat)
      requires p < |heap| && heap[p].frees == 0
      modifies this`heap
      ensures heap == Freed(old(heap), p)
    {
      heap := heap[p := heap[p].(frees := 1)];
    }

    /** Reads a copy; reading one that was freed would violate the precondition. */
    method Deref(p: nat) returns (text: string)
      requires p < |heap| && heap[p].frees == 0
      ensures text == Text(heap, p)
    {
      text := heap[p].text;
    }

    // ---- callbacks ----

    method OnCoinFullyInitialized(tickers: seq<string>)
      requires Valid()
      modifies this`heap, this`portfolioQueue
      ensures Valid()
      ensures View() == Next(old(View()), CoinsReady(tickers), coins)
    {
      OwnedStep(View(), CoinsReady(tickers), coins);
      if CoinFullyInitialized in handlers && !aboutToExit {
        ghost var before := heap;
        for n := 0 to |tickers|
          invariant heap == before + Copies(tickers[..n])
          invariant portfolioQueue == old(portfolioQueue) + Fresh(|before|, n)
        {
          var p := StrDup(tickers[n]);
          assert Copies(tickers[..n + 1]) == Copies(tickers[..n]) + [Block(tickers[n], 0)];
          assert Fresh(|before|, n + 1) == Fresh(|before|, n) + [p];
          portfolioQueue := portfolioQueue + [p];
        }
        assert tickers[..|tickers|] == tickers;
      }
    }

    method OnKdfInitialized()
      modifies this`status
      ensures View() == Next(old(View()), KdfReady, coins)
    {
      if KdfInitialized in handlers {
        status := "enabling_coins";
      }
    }

    method OnProcessOrdersAndSwapsFinished(afterManualReset: bool)
      modifies this`actionsQueue
      ensures View() == Next(old(View()), OrdersDone(afterManualReset), coins)
    {
      if OrdersAndSwapsFinished in handlers && !aboutToExit {
        actionsQueue := actionsQueue + [if afterManualReset then OrdersFinishedAfterReset else OrdersFinished];
      }
    }

    method ExitHandler()
      modifies this`aboutToExit, this`calls
      ensures Did(Exit)
    {
      calls := calls + [MarkKdf];
      aboutToExit := true;
    }

    // ---- the tick ----

    method ConnectSignals()
      modifies this`handlers
      ensures handlers == old(handlers) + ALL_HANDLERS
    {
      handlers := handlers + {NotificationSignals};
      handlers := handlers + {TradingSignals};
      handlers := handlers + {AddressbookSignals};
      handlers := handlers + {TickerBalanceUpdated};
      handlers := handlers + {FiatRateUpdated};
      handlers := handlers + {CoinFullyInitialized};
      handlers := handlers + {KdfInitialized};
      handlers := handlers + {OrdersAndSwapsFinished};
    }

    /** Takes the `n`th pointer of the queue that a loop started from; its copy has not been freed yet. */
    method PopPortfolio(ghost start: State, ghost n: nat) returns (p: nat)
      requires Owned(start) && n < |start.portfolio| && portfolioQueue == start.portfolio[n..]
      requires heap == FreedAll(start.blocks, start.portfolio[..n])
      modifies this`portfolioQueue
      ensures portfolioQueue == start.portfolio[n + 1..]
      ensures p == start.portfolio[n] && p < |heap| && heap[p].frees == 0
      ensures Text(heap, p) == Text(start.blocks, p)
      ensures Freed(heap, p) == FreedAll(start.blocks, start.portfolio[..n + 1])
    {
      p := portfolioQueue[0];
      portfolioQueue := portfolioQueue[1..];
      assert p in start.portfolio;
      FreedAllAt(start.blocks, start.portfolio[..n], p);
      assert start.portfolio[..n + 1][..n] == start.portfolio[..n];
    }

    /** Notes a ticker in the flags and in the list, unless it is listed already. */
    method NoteTicker(ticker: string, toInit: seq<string>, ghost seen: seq<string>) returns (r: seq<string>)
      requires toInit == FirstOccurrences(seen)
      modifies this`primaryOn, this`secondaryOn
      ensures r == FirstOccurrences(seen + [ticker])
      ensures primaryOn == (old(primaryOn) || ticker == coins.primary)
      ensures secondaryOn == (old(secondaryOn) || ticker == coins.secondary)
    {
      if ticker == coins.primary {
        primaryOn := true;
      }
      if ticker == coins.secondary {
        secondaryOn := true;
      }
      assert (seen + [ticker])[..|seen|] == seen;
      r := if ticker in toInit then toInit else toInit + [ticker];
    }

    /** Empties the portfolio queue, freeing every copy, and collects each ticker once. */
    method DrainPortfolio() returns (toInit: seq<string>)
      requires Valid()
      modifies this`portfolioQueue, this`heap, this`primaryOn, this`secondaryOn
      ensures View() == Drained(old(View()), coins)
      ensures toInit == FirstOccurrences(Texts(old(heap), old(portfolioQueue)))
    {
      hide FreedAll;
      hide FirstOccurrences;
      hide Freed;
      ghost var start := View();
      ghost var names := Texts(heap, portfolioQueue);
      ghost var n := 0;
      toInit := [];
      NothingFreed(start);
      while portfolioQueue != []
        invariant 0 <= n <= |start.portfolio| && portfolioQueue == start.portfolio[n..]
        invariant heap == FreedAll(start.blocks, start.portfolio[..n])
        invariant toInit == FirstOccurrences(names[..n])
        invariant primaryOn == (start.primaryOn || coins.primary in names[..n])
        invariant secondaryOn == (start.secondaryOn || coins.secondary in names[..n])
        decreases |portfolioQueue|
      {
        var p := PopPortfolio(start, n);
        var ticker := Deref(p);
        toInit := NoteTicker(ticker, toInit, names[..n]);
        assert names[..n + 1] == names[..n] + [ticker];
        Free(p);
        n := n + 1;
      }
      assert start.portfolio[..n] == start.portfolio && names[..n] == names;
    }

    static lemma NothingFreed(s: State)
      ensures FreedAll(s.blocks, s.portfolio[..0]) == s.blocks
      ensures FirstOccurrences(Texts(s.blocks, s.portfolio)[..0]) == []
    {
    }

    method Announce(toInit: seq<string>, charts: bool)
      modifies this`status, this`calls
      ensures View() == Announced(old(View()))
      ensures calls == old(calls) + AnnounceOutputs(primaryOn && secondaryOn, toInit, coins, charts)
    {
      calls := calls + [InitializePortfolio(toInit)];
      if primaryOn && secondaryOn {
        if coins.primary in toInit {
          calls := calls + [ResetTransactions];
          calls := calls + [TxFetchFinished];
        }
        calls := calls + [RefreshTickerInfos];
        status := "complete";
      }
      calls := calls + [UpdatePortfolioValues];
      if charts {
        calls := calls + [RefreshCharts];
      }
    }

    /** Serves the actions in order until the queue is empty or the application is about to exit. */
    method ServeActions(running: nat -> bool)
      modifies this`actionsQueue, this`calls
      ensures actionsQueue == if aboutToExit then old(actionsQueue) else []
      ensures calls == old(calls) + Refreshes(if aboutToExit then [] else Served(old(actionsQueue), running))
      ensures aboutToExit ==> calls == old(calls)
      ensures old(calls) <= calls
      ensures !aboutToExit ==> exists at :: RefreshedAt(old(actionsQueue), running, calls[|old(calls)|..], at)
    {
      hide RefreshedAt;
      ghost var all := actionsQueue;
      ghost var served := Served(all, running);
      var n := 0;
      while actionsQueue != []
        invariant 0 <= n <= |all| && actionsQueue == all[n..]
        invariant aboutToExit ==> n == 0
        invariant calls == old(calls) + Refreshes(served[..n])
        decreases |actionsQueue|
      {
        if aboutToExit {
          break;
        }
        var last := actionsQueue[0];
        actionsQueue := actionsQueue[1..];
        assert served[..n + 1][..n] == served[..n] && served[n].action == last;
        assert actionsQueue == all[n + 1..];
        match last {
          case OrdersFinished =>
            if running(1 + n) {
              calls := calls + [RefreshOrders(false)];
            }
          case OrdersFinishedAfterReset =>
            if running(1 + n) {
              calls := calls + [RefreshOrders(true)];
            }
        }
        n := n + 1;
      }
      assert served[..|served|] == served;
      ghost var at := ServedRefreshes(all, running);
      assert calls[|old(calls)|..] == Refreshes(if aboutToExit then [] else served);
    }

    method Reconnect()
      modifies this`handlers, this`needRefresh, this`calls
      ensures View() == Connected(old(View()))
      ensures calls == old(calls) + if old(needRefresh) then [CreateKdf] else []
    {
      if needRefresh {
        calls := calls + [CreateKdf];
        ConnectSignals();
        needRefresh := false;
      }
    }

    method InitPortfolio(running: nat -> bool, charts: bool)
      requires Valid()
      modifies this
      ensures View() == TickPortfolio(old(View()), running, coins)
      ensures calls == old(calls) + TickPortfolioOutputs(old(View()), running, coins, charts)
    {
      hide AnnounceOutputs;
      hide FreedAll;
      hide Owned;
      hide FirstOccurrences;
      Reconnect();
      if running(0) {
        ghost var connected, made := View(), calls;
        OwnedCore(old(View()), connected);
        EmptyDrain(connected, coins);
        var toInit := DrainPortfolio();
        if toInit != [] {
          Announce(toInit, charts);
          assert calls == made + AnnounceOutputs(primaryOn && secondaryOn, toInit, coins, charts);
        }
      }
    }

    /** Ownership is a matter of the portfolio queue and the heap alone. */
    static lemma OwnedCore(s: State, t: State)
      requires Owned(s) && t.portfolio == s.portfolio && t.blocks == s.blocks
      ensures Owned(t)
    {
    }

    /** Draining collects nothing exactly when nothing is queued, and then changes nothing. */
    static lemma EmptyDrain(s: State, coins: MainCoins)
      ensures FirstOccurrences(Texts(s.blocks, s.portfolio)) == [] <==> s.portfolio == []
      ensures s.portfolio == [] ==> Drained(s, coins) == s
    {
      var names := Texts(s.blocks, s.portfolio);
      if s.portfolio != [] { assert names[0] in FirstOccurrences(names); }
    }

    static lemma TickPortfolioFrame(s: State, running: nat -> bool, coins: MainCoins)
      ensures TickPortfolio(s, running, coins).actions == s.actions
      ensures TickPortfolio(s, running, coins).exiting == s.exiting
    {
    }

    method DoTick(running: nat -> bool, charts: bool)
      requires Valid()
      modifies this
      ensures Valid() && Did(Tick(running, charts))
    {
      hide TickPortfolio;
      hide TickPortfolioOutputs;
      hide Refreshes;
      hide RefreshedAt;
      OwnedStep(View(), Tick(running, charts), coins);
      TickPortfolioFrame(View(), running, coins);
      InitPortfolio(running, charts);
      calls := calls + [ProcessTradingAction];
      ServeActions(running);
    }

    // ---- disconnection ----

    method ClearActions()
      modifies this`actionsQueue
      ensures actionsQueue == []
    {
      while actionsQueue != []
        decreases |actionsQueue|
      {
        actionsQueue := actionsQueue[1..];
      }
    }

    /** Frees what is still queued. */
    method ClearPortfolio()
      requires Valid()
      modifies this`portfolioQueue, this`heap
      ensures portfolioQueue == [] && heap == FreedAll(old(heap), old(portfolioQueue))
    {
      hide FreedAll;
      ghost var start := View();
      ghost var n := 0;
      NothingFreed(start);
      while portfolioQueue != []
        invariant 0 <= n <= |start.portfolio| && portfolioQueue == start.portfolio[n..]
        invariant heap == FreedAll(start.blocks, start.portfolio[..n])
        decreases |portfolioQueue|
      {
        var p := PopPortfolio(start, n);
        Free(p);
        n := n + 1;
      }
      assert start.portfolio[..n] == start.portfolio;
    }

    method DisconnectSignals()
      modifies this`handlers
      ensures handlers == old(handlers) - ALL_HANDLERS
    {
      handlers := handlers - {TradingSignals};
      handlers := handlers - {AddressbookSignals};
      handlers := handlers - {NotificationSignals};
      handlers := handlers - {TickerBalanceUpdated};
      handlers := handlers - {FiatRateUpdated};
      handlers := handlers - {CoinFullyInitialized};
      handlers := handlers - {KdfInitialized};
      handlers := handlers - {OrdersAndSwapsFinished};
    }

    method DoDisconnect()
      requires Valid()
      modifies this
      ensures Valid() && Did(Disconnect)
    {
      hide Owned;
      hide FreedAll;
      OwnedStep(View(), Disconnect, coins);
      ClearActions();
      OwnedCore(old(View()), View());
      ClearPortfolio();
      calls := calls + [ClearPages];
      calls := calls + [MarkKdf];
      DisconnectSignals();
      needRefresh := true;
      primaryOn := false;
      secondaryOn := false;
      status := "None";
    }
  }
}
