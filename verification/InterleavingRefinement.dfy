/**
 * The atomic steps of the lifecycle are the runs of the interleaved machine in which nothing interrupts a
 * callback, a tick or a disconnection.
 */
module InterleavingRefinement {
  import opened Wrappers
  import opened Sequences
  import Lifecycle
  import LifecycleRuns
  import opened Interleaving

  lemma {:induction false} RunConcat(m: Machine, a: seq<Move>, b: seq<Move>)
    requires Run(m, a).Some?
    ensures Run(m, a + b) == Run(Run(m, a).value, b)
    decreases |a|
  {
    hide Step;
    if a == [] {
      assert a + b == b;
    } else {
      assert (a + b)[1..] == a[1..] + b;
      RunConcat(Step(m, a[0]).value, a[1..], b);
    }
  }

  lemma RunTwo(m: Machine, first: Move, second: Move, rest: seq<Move>)
    requires Step(m, first).Some? && Step(Step(m, first).value, second).Some?
    ensures Run(m, [first, second] + rest) == Run(Step(Step(m, first).value, second).value, rest)
  {
    hide Step;
    assert ([first, second] + rest)[1..] == [second] + rest;
    assert ([second] + rest)[1..] == rest;
  }

  lemma RunOne(m: Machine, move: Move)
    requires Step(m, move).Some?
    ensures Run(m, [move]) == Step(m, move)
  {
    hide Step;
    assert [move][1..] == [];
    assert Run(Step(m, move).value, []) == Step(m, move);
  }

  // ---- an event ----

  /** A callback queueing `n` tickers without interruption. */
  function Callback(i: nat, n: nat): seq<Move> {
    if n == 0 then [] else [Duplicate(i), Push(i)] + Callback(i, n - 1)
  }

  ghost function Stamps(n: nat, began: nat): (stamps: seq<nat>)
    ensures |stamps| == n
  {
    seq(n, _ => began)
  }

  /** What the callback leaves: as many fresh copies, queued in order. */
  ghost function Called(m: Machine, i: nat): Machine
    requires i < |m.threads|
  {
    var t := m.threads[i];
    m.(queue := m.queue + Lifecycle.Fresh(|m.blocks|, |t.tickers|),
       blocks := m.blocks + Lifecycle.Copies(t.tickers),
       stamps := m.stamps + Stamps(|t.tickers|, t.began),
       threads := m.threads[i := Thread([], t.began, None)])
  }

  /** The machine once the callback has queued its first ticker. */
  ghost function CalledOnce(m: Machine, i: nat): Machine
    requires i < |m.threads| && m.threads[i].tickers != []
  {
    var t := m.threads[i];
    m.(queue := m.queue + [|m.blocks|],
       blocks := m.blocks + [Lifecycle.Block(t.tickers[0], 0)],
       stamps := m.stamps + [t.began],
       threads := m.threads[i := Thread(t.tickers[1..], t.began, None)])
  }

  lemma AppendFirst<T>(a: seq<T>, x: T, rest: seq<T>, all: seq<T>)
    requires all == [x] + rest
    ensures a + all == (a + [x]) + rest
  {
  }

  /** The copies, pointers and stamps of the first ticker and those of the others. */
  lemma FirstOfMany(first: nat, tickers: seq<string>, began: nat)
    requires tickers != []
    ensures Lifecycle.Fresh(first, |tickers|) == [first] + Lifecycle.Fresh(first + 1, |tickers| - 1)
    ensures Lifecycle.Copies(tickers) == [Lifecycle.Block(tickers[0], 0)] + Lifecycle.Copies(tickers[1..])
    ensures Stamps(|tickers|, began) == [began] + Stamps(|tickers| - 1, began)
  {
  }

  lemma CalledFirst(m: Machine, i: nat)
    requires i < |m.threads| && m.threads[i].tickers != []
    ensures Called(CalledOnce(m, i), i) == Called(m, i)
  {
    var t := m.threads[i];
    var n := |t.tickers|;
    FirstOfMany(|m.blocks|, t.tickers, t.began);
    AppendFirst(m.queue, |m.blocks|, Lifecycle.Fresh(|m.blocks| + 1, n - 1), Lifecycle.Fresh(|m.blocks|, n));
    AppendFirst(m.blocks, Lifecycle.Block(t.tickers[0], 0), Lifecycle.Copies(t.tickers[1..]),
                Lifecycle.Copies(t.tickers));
    AppendFirst(m.stamps, t.began, Stamps(n - 1, t.began), Stamps(n, t.began));
    hide Lifecycle.Fresh;
    hide Lifecycle.Copies;
    hide Stamps;
    var once := CalledOnce(m, i);
    assert |once.blocks| == |m.blocks| + 1 && once.threads[i] == Thread(t.tickers[1..], t.began, None);
    assert once.threads[i := Thread([], t.began, None)] == m.threads[i := Thread([], t.began, None)];
  }

  lemma {:induction false} CallbackRuns(m: Machine, i: nat)
    requires i < |m.threads| && m.threads[i].copy.None?
    ensures Run(m, Callback(i, |m.threads[i].tickers|)) == Some(Called(m, i))
    decreases |m.threads[i].tickers|
  {
    var t := m.threads[i];
    if t.tickers == [] {
      assert m.threads[i := Thread([], t.began, None)] == m.threads;
      assert Called(m, i) == m;
    } else {
      var a := Step(m, Duplicate(i)).value;
      var b := Step(a, Push(i)).value;
      assert b == CalledOnce(m, i);
      RunTwo(m, Duplicate(i), Push(i), Callback(i, |t.tickers| - 1));
      CallbackRuns(b, i);
      CalledFirst(m, i);
    }
  }

  // ---- emptying the queue ----

  function Emptying(pop: Move, free: Move, n: nat): seq<Move> {
    if n == 0 then [] else [pop, free] + Emptying(pop, free, n - 1)
  }

  lemma {:induction false} FreedFirst(blocks: seq<Lifecycle.Block>, pointers: seq<nat>)
    requires pointers != []
    ensures Lifecycle.FreedAll(blocks, pointers)
         == Lifecycle.FreedAll(Lifecycle.Freed(blocks, pointers[0]), pointers[1..])
  {
    var front, last := pointers[..|pointers| - 1], pointers[|pointers| - 1];
    if front == [] {
      assert pointers[1..] == [];
      assert Lifecycle.FreedAll(blocks, front) == blocks;
    } else {
      FreedFirst(blocks, front);
      assert pointers[1..][..|pointers| - 2] == front[1..];
    }
  }

  /** Draining without interruption frees the whole queue, first to last. */
  lemma {:induction false} DrainRuns(m: Machine) returns (end: Machine)
    requires m.main == Draining(None)
    ensures Run(m, Emptying(PopDrain, UseDrain, |m.queue|)) == Some(end)
    ensures end == m.(queue := [], blocks := Lifecycle.FreedAll(m.blocks, m.queue), stale := end.stale)
    decreases |m.queue|
  {
    if m.queue == [] {
      end := m;
    } else {
      var a := Step(m, PopDrain).value;
      var b := Step(a, UseDrain).value;
      RunTwo(m, PopDrain, UseDrain, Emptying(PopDrain, UseDrain, |m.queue| - 1));
      end := DrainRuns(b);
      FreedFirst(m.blocks, m.queue);
    }
  }

  lemma {:induction false} ClearRuns(m: Machine)
    requires m.main == Clearing(None)
    ensures Run(m, Emptying(PopClear, FreeClear, |m.queue|))
         == Some(m.(queue := [], blocks := Lifecycle.FreedAll(m.blocks, m.queue)))
    decreases |m.queue|
  {
    if m.queue != [] {
      var a := Step(m, PopClear).value;
      var b := Step(a, FreeClear).value;
      RunTwo(m, PopClear, FreeClear, Emptying(PopClear, FreeClear, |m.queue| - 1));
      ClearRuns(b);
      FreedFirst(m.blocks, m.queue);
    }
  }

  // ---- the simulation ----

  /** The machine is between two atomic steps, in the state reached by them. */
  ghost predicate Simulates(m: Machine, s: Lifecycle.State) {
    && m.queue == s.portfolio && m.blocks == s.blocks && m.main == Idle && m.subscribed == !s.needRefresh
    && forall i :: 0 <= i < |m.threads| ==> m.threads[i].tickers == [] && m.threads[i].copy.None?
  }

  lemma EventSimulated(m: Machine, tickers: seq<string>) returns (moves: seq<Move>, end: Machine)
    requires m.subscribed && forall i :: 0 <= i < |m.threads| ==> m.threads[i].tickers == [] && m.threads[i].copy.None?
    ensures Run(m, moves) == Some(end)
    ensures end.queue == m.queue + Lifecycle.Fresh(|m.blocks|, |tickers|)
    ensures end.blocks == m.blocks + Lifecycle.Copies(tickers)
    ensures end.main == m.main && end.subscribed
    ensures forall i :: 0 <= i < |end.threads| ==> end.threads[i].tickers == [] && end.threads[i].copy.None?
  {
    var i := |m.threads|;
    var a := Step(m, Deliver(tickers)).value;
    RunOne(m, Deliver(tickers));
    CallbackRuns(a, i);
    end := Called(a, i);
    moves := [Deliver(tickers)] + Callback(i, |tickers|);
    RunConcat(m, [Deliver(tickers)], Callback(i, |tickers|));
  }

  lemma DrainSimulated(m: Machine) returns (moves: seq<Move>, end: Machine)
    requires m.main == Idle && m.subscribed
    ensures Run(m, moves) == Some(end)
    ensures end == m.(queue := [], blocks := Lifecycle.FreedAll(m.blocks, m.queue), stale := end.stale)
  {
    var a := Step(m, StartDrain).value;
    var pops := Emptying(PopDrain, UseDrain, |m.queue|);
    RunOne(m, StartDrain);
    var b := DrainRuns(a);
    RunConcat(m, [StartDrain], pops);
    end := Step(b, EndDrain).value;
    RunOne(b, EndDrain);
    RunConcat(m, [StartDrain] + pops, [EndDrain]);
    moves := [StartDrain] + pops + [EndDrain];
  }

  lemma DisconnectSimulated(m: Machine) returns (moves: seq<Move>, end: Machine)
    requires m.main == Idle
    ensures Run(m, moves) == Some(end)
    ensures end == m.(queue := [], blocks := Lifecycle.FreedAll(m.blocks, m.queue), subscribed := false,
                      session := m.session + 1)
  {
    var a := Step(m, StartClear).value;
    var pops := Emptying(PopClear, FreeClear, |m.queue|);
    RunOne(m, StartClear);
    ClearRuns(a);
    RunConcat(m, [StartClear], pops);
    var b := Run(m, [StartClear] + pops).value;
    var c := Step(b, EndClear).value;
    end := Step(c, Detach).value;
    RunTwo(b, EndClear, Detach, []);
    assert [EndClear, Detach] + [] == [EndClear, Detach];
    RunConcat(m, [StartClear] + pops, [EndClear, Detach]);
    moves := [StartClear] + pops + [EndClear, Detach];
  }

  lemma TickSimulated(m: Machine, s: Lifecycle.State, step: Lifecycle.Step, coins: Lifecycle.MainCoins)
    returns (moves: seq<Move>)
    requires Simulates(m, s) && step.Tick?
    ensures Run(m, moves).Some? && Simulates(Run(m, moves).value, Lifecycle.Next(s, step, coins))
  {
    moves := [];
    var end := m;
    if s.needRefresh {
      end := Step(m, Reattach).value;
      RunOne(m, Reattach);
      moves := [Reattach];
    }
    if step.running(0) {
      var drain, drained := DrainSimulated(end);
      RunConcat(m, moves, drain);
      moves := moves + drain;
      end := drained;
    }
  }

  /** Every atomic step is made by some moves of the interleaved machine. */
  lemma StepSimulated(m: Machine, s: Lifecycle.State, step: Lifecycle.Step, coins: Lifecycle.MainCoins)
    returns (moves: seq<Move>)
    requires LifecycleRuns.Inv(s) && Simulates(m, s)
    ensures Run(m, moves).Some? && Simulates(Run(m, moves).value, Lifecycle.Next(s, step, coins))
  {
    moves := [];
    match step {
      case Tick(_, _) => moves := TickSimulated(m, s, step, coins);
      case Disconnect =>
        var end;
        moves, end := DisconnectSimulated(m);
      case CoinsReady(tickers) =>
        if !s.needRefresh && !s.exiting {
          var end;
          moves, end := EventSimulated(m, tickers);
        }
      case _ =>
    }
  }

  /** The atomic lifecycle is the uninterrupted part of the interleaved one: each of its runs is one of the machine. */
  lemma {:induction false} RunSimulated(m: Machine, s: Lifecycle.State, steps: seq<Lifecycle.Step>,
                                        coins: Lifecycle.MainCoins)
    returns (moves: seq<Move>)
    requires LifecycleRuns.Inv(s) && Simulates(m, s)
    ensures Run(m, moves).Some? && Simulates(Run(m, moves).value, Lifecycle.Run(s, steps, coins))
    decreases |steps|
  {
    hide Simulates;
    hide LifecycleRuns.Inv;
    hide Lifecycle.Next;
    moves := [];
    if steps != [] {
      var next := Lifecycle.Next(s, steps[0], coins);
      moves := StepSimulated(m, s, steps[0], coins);
      LifecycleRuns.InvStep(s, steps[0], coins);
      var later := RunSimulated(Run(m, moves).value, next, steps[1..], coins);
      RunConcat(m, moves, later);
      moves := moves + later;
    }
  }

  /** In particular every run of the application from its start. */
  lemma StartSimulated(steps: seq<Lifecycle.Step>, coins: Lifecycle.MainCoins) returns (moves: seq<Move>)
    ensures Run(START, moves).Some?
    ensures Simulates(Run(START, moves).value, Lifecycle.Run(Lifecycle.INITIAL, steps, coins))
  {
    moves := RunSimulated(START, Lifecycle.INITIAL, steps, coins);
  }
}
