/**
 * The portfolio queue with callbacks running on other threads: a callback may be interrupted
 * between duplicating a ticker and queueing it, and a tick or a disconnection between any two
 * accesses to the queue. Each move is one atomic access to shared state.
 */
module Interleaving {
  import opened Wrappers
  import opened Sequences
  import opened Lifecycle

  /** A callback in flight: what it still has to queue, and the copy it has made but not queued yet. */
  datatype Thread = Thread(tickers: seq<string>, began: nat, copy: Option<nat>)

  /** Where the main thread is; it holds at most one pointer, popped and not freed yet. */
  datatype Main = Idle | Draining(hand: Option<nat>) | Clearing(hand: Option<nat>) | Detaching

  datatype Machine = Machine(
    queue: seq<nat>,
    blocks: seq<Block>,
    stamps: seq<nat>,      // the session in which the event of each copy was delivered
    threads: seq<Thread>,
    main: Main,
    subscribed: bool,
    session: nat,          // how many disconnections have completed
    stale: bool)           // whether a ticker of an earlier session was ever drained

  datatype Move =
    | Deliver(tickers: seq<string>)
    | Duplicate(i: nat)
    | Push(i: nat)
    | StartDrain
    | PopDrain
    | UseDrain
    | EndDrain
    | StartClear
    | PopClear
    | FreeClear
    | EndClear
    | Detach
    | Reattach

  const START := Machine([], [], [], [], Idle, true, 0, false)

  function Hand(main: Main): Option<nat> {
    match main
    case Draining(hand) => hand
    case Clearing(hand) => hand
    case _ => None
  }

  /**
   * The machine after a move, or nothing when the move is not possible. A tick reconnects the handlers
   * before it drains, so draining takes place subscribed.
   */
  function Step(m: Machine, move: Move): Option<Machine> {
    match move
    case Deliver(tickers) =>
      if !m.subscribed then None else Some(m.(threads := m.threads + [Thread(tickers, m.session, None)]))
    case Duplicate(i) =>
      if i >= |m.threads| || m.threads[i].tickers == [] || m.threads[i].copy.Some? then None
      else
        var t := m.threads[i];
        Some(m.(blocks := m.blocks + [Block(t.tickers[0], 0)], stamps := m.stamps + [t.began],
                threads := m.threads[i := t.(copy := Some(|m.blocks|))]))
    case Push(i) =>
      if i >= |m.threads| || m.threads[i].tickers == [] || m.threads[i].copy.None? then None
      else
        var t := m.threads[i];
        Some(m.(queue := m.queue + [t.copy.value],
                threads := m.threads[i := Thread(t.tickers[1..], t.began, None)]))
    case StartDrain =>
      if m.main != Idle || !m.subscribed then None else Some(m.(main := Draining(None)))
    case PopDrain =>
      if m.main != Draining(None) || m.queue == [] then None
      else Some(m.(main := Draining(Some(m.queue[0])), queue := m.queue[1..]))
    case UseDrain =>
      if !m.main.Draining? || m.main.hand.None? then None
      else
        var p := m.main.hand.value;
        Some(m.(main := Draining(None), blocks := Freed(m.blocks, p),
                stale := m.stale || (p < |m.stamps| && m.stamps[p] < m.session)))
    case EndDrain => if m.main != Draining(None) || m.queue != [] then None else Some(m.(main := Idle))
    case StartClear => if m.main != Idle then None else Some(m.(main := Clearing(None)))
    case PopClear =>
      if m.main != Clearing(None) || m.queue == [] then None
      else Some(m.(main := Clearing(Some(m.queue[0])), queue := m.queue[1..]))
    case FreeClear =>
      if !m.main.Clearing? || m.main.hand.None? then None
      else Some(m.(main := Clearing(None), blocks := Freed(m.blocks, m.main.hand.value)))
    case EndClear => if m.main != Clearing(None) || m.queue != [] then None else Some(m.(main := Detaching))
    case Detach =>
      if m.main != Detaching then None else Some(m.(main := Idle, subscribed := false, session := m.session + 1))
    case Reattach => if m.main != Idle then None else Some(m.(subscribed := true))
  }

  function Run(m: Machine, moves: seq<Move>): Option<Machine>
    decreases |moves|
  {
    if moves == [] then Some(m)
    else match Step(m, moves[0])
      case None => None
      case Some(next) => Run(next, moves[1..])
  }

  // ---- ownership under every interleaving ----

  ghost predicate HeldByThread(threads: seq<Thread>, p: nat) {
    exists i :: 0 <= i < |threads| && threads[i].copy == Some(p)
  }

  /** The copy is queued, in the main thread's hand, or in a callback's hand. */
  ghost predicate Placed(m: Machine, p: nat) {
    p in m.queue || Hand(m.main) == Some(p) || HeldByThread(m.threads, p)
  }

  /** No copy is in two places, and a copy has been freed, once, exactly when it is in none. */
  ghost predicate Inv(m: Machine) {
    && |m.stamps| == |m.blocks|
    && Distinct(m.queue)
    && (forall p: nat :: Placed(m, p) ==> p < |m.blocks|)
    && (Hand(m.main).Some? ==> Hand(m.main).value !in m.queue && !HeldByThread(m.threads, Hand(m.main).value))
    && (forall p :: p in m.queue ==> !HeldByThread(m.threads, p))
    && (forall i, j :: 0 <= i < j < |m.threads| && m.threads[i].copy.Some? ==> m.threads[i].copy != m.threads[j].copy)
    && (forall p :: 0 <= p < |m.blocks| ==> m.blocks[p].frees == if Placed(m, p) then 0 else 1)
  }

  lemma InvDeliver(m: Machine, tickers: seq<string>)
    requires Inv(m)
    ensures Inv(m.(threads := m.threads + [Thread(tickers, m.session, None)]))
  {
    var after := m.threads + [Thread(tickers, m.session, None)];
    forall p: nat ensures HeldByThread(after, p) <==> HeldByThread(m.threads, p) {
      if HeldByThread(m.threads, p) {
        var i :| 0 <= i < |m.threads| && m.threads[i].copy == Some(p);
        assert after[i].copy == Some(p);
      }
    }
    forall p: nat ensures Placed(m.(threads := after), p) <==> Placed(m, p) { }
  }

  /** What changing the hand of one callback does to what callbacks hold. */
  lemma HeldAfter(threads: seq<Thread>, i: nat, t: Thread, p: nat)
    requires i < |threads|
    requires forall j, k :: 0 <= j < k < |threads| && threads[j].copy.Some? ==> threads[j].copy != threads[k].copy
    ensures HeldByThread(threads[i := t], p) <==>
            t.copy == Some(p) || (HeldByThread(threads, p) && threads[i].copy != Some(p))
  {
    var after := threads[i := t];
    if HeldByThread(after, p) {
      var j :| 0 <= j < |after| && after[j].copy == Some(p);
      if j != i { assert threads[j].copy == Some(p); }
    }
    if HeldByThread(threads, p) && threads[i].copy != Some(p) {
      var j :| 0 <= j < |threads| && threads[j].copy == Some(p);
      assert after[j].copy == Some(p);
    }
    if t.copy == Some(p) { assert after[i].copy == Some(p); }
  }

  lemma InvDuplicate(m: Machine, i: nat)
    requires Inv(m) && Step(m, Duplicate(i)).Some?
    ensures Inv(Step(m, Duplicate(i)).value)
  {
    var after := Step(m, Duplicate(i)).value;
    var made := |m.blocks|;
    assert !Placed(m, made);
    forall p: nat ensures Placed(after, p) <==> Placed(m, p) || p == made {
      HeldAfter(m.threads, i, after.threads[i], p);
    }
    forall p: nat ensures HeldByThread(after.threads, p) <==> HeldByThread(m.threads, p) || p == made {
      HeldAfter(m.threads, i, after.threads[i], p);
    }
    assert forall j :: 0 <= j < |m.threads| ==> m.threads[j].copy != Some(made);
  }

  lemma InvPush(m: Machine, i: nat)
    requires Inv(m) && Step(m, Push(i)).Some?
    ensures Inv(Step(m, Push(i)).value)
  {
    var after := Step(m, Push(i)).value;
    var pushed := m.threads[i].copy.value;
    assert HeldByThread(m.threads, pushed);
    forall p: nat ensures HeldByThread(after.threads, p) <==> HeldByThread(m.threads, p) && p != pushed {
      HeldAfter(m.threads, i, after.threads[i], p);
    }
    forall p: nat ensures Placed(after, p) <==> Placed(m, p) { }
  }

  /** Popping moves the head of the queue into the hand of the main thread. */
  lemma InvPop(m: Machine, main: Main)
    requires Inv(m) && Hand(m.main).None? && m.queue != [] && Hand(main) == Some(m.queue[0])
    ensures Inv(m.(main := main, queue := m.queue[1..]))
  {
    var after := m.(main := main, queue := m.queue[1..]);
    assert forall p :: p in m.queue <==> p == m.queue[0] || p in m.queue[1..];
    forall p: nat ensures Placed(after, p) <==> Placed(m, p) { }
  }

  /** Freeing the pointer in hand: it is nowhere else, so it can neither be freed again nor be read later. */
  lemma InvFree(m: Machine, main: Main, stale: bool)
    requires Inv(m) && Hand(m.main).Some? && Hand(main).None?
    ensures Hand(m.main).value < |m.blocks| && m.blocks[Hand(m.main).value].frees == 0
    ensures Inv(m.(main := main, blocks := Freed(m.blocks, Hand(m.main).value), stale := stale))
  {
    var p := Hand(m.main).value;
    assert Placed(m, p);
    var after := m.(main := main, blocks := Freed(m.blocks, p), stale := stale);
    forall q ensures Placed(after, q) <==> Placed(m, q) && q != p { }
  }

  /** Moves that only concern the main thread's position and the subscription. */
  lemma InvControl(m: Machine, main: Main, subscribed: bool, session: nat)
    requires Inv(m) && Hand(m.main) == Hand(main)
    ensures Inv(m.(main := main, subscribed := subscribed, session := session))
  {
    var after := m.(main := main, subscribed := subscribed, session := session);
    forall p: nat ensures Placed(after, p) <==> Placed(m, p) { }
  }

  lemma InvStep(m: Machine, move: Move)
    requires Inv(m) && Step(m, move).Some?
    ensures Inv(Step(m, move).value)
  {
    var after := Step(m, move).value;
    hide Inv;
    match move
    case Deliver(tickers) => InvDeliver(m, tickers);
    case Duplicate(i) => InvDuplicate(m, i);
    case Push(i) => InvPush(m, i);
    case PopDrain => InvPop(m, after.main);
    case PopClear => InvPop(m, after.main);
    case UseDrain => InvFree(m, after.main, after.stale);
    case FreeClear => InvFree(m, after.main, after.stale);
    case _ => InvControl(m, after.main, after.subscribed, after.session);
  }

  /**
   * Under every interleaving of callbacks with ticks and disconnections, no copy is ever freed twice,
   * read after being freed, or lost.
   */
  lemma {:induction false} InvRun(m: Machine, moves: seq<Move>)
    requires Inv(m) && Run(m, moves).Some?
    ensures Inv(Run(m, moves).value)
    decreases |moves|
  {
    hide Inv;
    hide Step;
    if moves != [] {
      InvStep(m, moves[0]);
      InvRun(Step(m, moves[0]).value, moves[1..]);
    }
  }

  lemma StartInv()
    ensures Inv(START)
  {
    assert forall p :: !HeldByThread([], p);
    assert forall p :: !Placed(START, p);
  }

  // ---- session isolation under interleaving ----

  /** Nothing of an earlier session than `since` is queued, in hand, or in flight. */
  ghost predicate Recent(m: Machine, since: nat) {
    && since <= m.session
    && (forall p :: p in m.queue ==> p < |m.stamps| && m.stamps[p] >= since)
    && (Hand(m.main).Some? ==> Hand(m.main).value < |m.stamps| && m.stamps[Hand(m.main).value] >= since)
    && (forall i :: 0 <= i < |m.threads| && m.threads[i].tickers != [] ==> m.threads[i].began >= since)
    && (forall i :: 0 <= i < |m.threads| && m.threads[i].copy.Some? ==>
          && m.threads[i].tickers != [] && m.threads[i].copy.value < |m.stamps|
          && m.stamps[m.threads[i].copy.value] >= since)
  }

  /** A completed disconnection with no callback in flight and nothing queued in the meantime. */
  ghost predicate Quiescent(m: Machine) {
    && m.queue == []
    && forall i :: 0 <= i < |m.threads| ==> m.threads[i].tickers == []
  }

  lemma RecentDuplicate(m: Machine, i: nat)
    requires Recent(m, m.session) && |m.stamps| == |m.blocks| && Step(m, Duplicate(i)).Some?
    ensures Recent(Step(m, Duplicate(i)).value, m.session)
  {
    var after := Step(m, Duplicate(i)).value;
    assert forall p :: 0 <= p < |m.stamps| ==> after.stamps[p] == m.stamps[p];
    assert after.stamps[|m.stamps|] == m.threads[i].began;
  }

  lemma RecentPush(m: Machine, i: nat)
    requires Recent(m, m.session) && Step(m, Push(i)).Some?
    ensures Recent(Step(m, Push(i)).value, m.session)
  {
    var after := Step(m, Push(i)).value;
    assert forall p :: p in after.queue <==> p in m.queue || p == m.threads[i].copy.value;
  }

  lemma RecentPop(m: Machine, main: Main)
    requires Recent(m, m.session) && m.queue != [] && Hand(main) == Some(m.queue[0])
    ensures Recent(m.(main := main, queue := m.queue[1..]), m.session)
  {
    assert m.queue[0] in m.queue && forall p :: p in m.queue[1..] ==> p in m.queue;
  }

  lemma RecentDeliver(m: Machine, tickers: seq<string>)
    requires Recent(m, m.session)
    ensures Recent(m.(threads := m.threads + [Thread(tickers, m.session, None)]), m.session)
  {
  }

  /** Moves that touch neither the queue nor a callback, nor take anything into the main thread's hand. */
  lemma RecentControl(m: Machine, after: Machine)
    requires Recent(m, m.session) && (Hand(after.main) == Hand(m.main) || Hand(after.main).None?)
    requires after.queue == m.queue && after.threads == m.threads
    requires after.stamps == m.stamps && after.session == m.session
    ensures Recent(after, m.session)
  {
  }

  /** What a move other than the completion of a disconnection leaves as it is. */
  lemma SameSession(m: Machine, move: Move)
    requires Step(m, move).Some? && !move.Detach?
    ensures Step(m, move).value.session == m.session
    ensures |m.stamps| == |m.blocks| ==> |Step(m, move).value.stamps| == |Step(m, move).value.blocks|
  {
  }

  /** A move other than the completion of a disconnection neither revives old tickers nor drains any. */
  lemma RecentStep(m: Machine, move: Move)
    requires Recent(m, m.session) && |m.stamps| == |m.blocks| && Step(m, move).Some? && !move.Detach?
    ensures Recent(Step(m, move).value, m.session)
    ensures |Step(m, move).value.stamps| == |Step(m, move).value.blocks|
    ensures Step(m, move).value.session == m.session
    ensures Step(m, move).value.stale == m.stale
  {
    var after := Step(m, move).value;
    SameSession(m, move);
    match move {
      case Deliver(tickers) => RecentDeliver(m, tickers);
      case Duplicate(i) => RecentDuplicate(m, i);
      case Push(i) => RecentPush(m, i);
      case PopDrain => RecentPop(m, after.main);
      case PopClear => RecentPop(m, after.main);
      case _ => RecentControl(m, after);
    }
  }

  /** Between two disconnections, starting quiescent, only tickers of the session itself are drained. */
  lemma {:induction false} RecentRun(m: Machine, moves: seq<Move>)
    requires Recent(m, m.session) && |m.stamps| == |m.blocks| && Run(m, moves).Some?
    requires forall move :: move in moves ==> !move.Detach?
    ensures Run(m, moves).value.stale == m.stale
    decreases |moves|
  {
    hide Recent;
    hide Step;
    if moves != [] {
      RecentStep(m, moves[0]);
      RecentRun(Step(m, moves[0]).value, moves[1..]);
    }
  }

  /** Sessions number the past: whatever is queued or in flight belongs to the current session or an earlier one. */
  ghost predicate Numbered(m: Machine) {
    && (forall p :: 0 <= p < |m.stamps| ==> m.stamps[p] <= m.session)
    && (forall i :: 0 <= i < |m.threads| ==> m.threads[i].began <= m.session)
    && (forall i :: 0 <= i < |m.threads| && m.threads[i].copy.Some? ==> m.threads[i].tickers != [])
  }

  lemma NumberedStep(m: Machine, move: Move)
    requires Numbered(m) && Step(m, move).Some?
    ensures Numbered(Step(m, move).value)
  {
  }

  lemma {:induction false} NumberedRun(m: Machine, moves: seq<Move>)
    requires Numbered(m) && Run(m, moves).Some?
    ensures Numbered(Run(m, moves).value)
    decreases |moves|
  {
    hide Numbered;
    hide Step;
    if moves != [] {
      NumberedStep(m, moves[0]);
      NumberedRun(Step(m, moves[0]).value, moves[1..]);
    }
  }

  lemma RunCons(m: Machine, move: Move, moves: seq<Move>)
    requires Step(m, move).Some?
    ensures Run(m, [move] + moves) == Run(Step(m, move).value, moves)
  {
    assert ([move] + moves)[1..] == moves;
  }

  /** A stale head of the queue is the first to be drained once the handlers are back. */
  lemma DrainsHead(m: Machine) returns (moves: seq<Move>)
    requires m.main == Idle && m.subscribed && m.queue != []
    requires m.queue[0] < |m.stamps| && m.stamps[m.queue[0]] < m.session
    ensures forall move :: move in moves ==> !move.Detach?
    ensures Run(m, moves).Some? && Run(m, moves).value.stale
  {
    moves := [StartDrain] + ([PopDrain] + ([UseDrain] + []));
    var a := Step(m, StartDrain).value;
    var b := Step(a, PopDrain).value;
    RunCons(m, StartDrain, [PopDrain] + ([UseDrain] + []));
    RunCons(a, PopDrain, [UseDrain] + []);
    RunCons(b, UseDrain, []);
  }

  /** A callback of an earlier session still in flight can queue its ticker, to be drained in this one. */
  lemma DrainsLatecomer(m: Machine, i: nat) returns (moves: seq<Move>)
    requires Inv(m) && m.main == Idle && m.subscribed && m.queue == [] && i < |m.threads|
    requires m.threads[i].tickers != [] && m.threads[i].began < m.session
    requires m.threads[i].copy.Some? ==>
               m.threads[i].copy.value < |m.stamps| && m.stamps[m.threads[i].copy.value] < m.session
    ensures forall move :: move in moves ==> !move.Detach?
    ensures Run(m, moves).Some? && Run(m, moves).value.stale
    decreases m.threads[i].copy.None?
  {
    if m.threads[i].copy.None? {
      var a := Step(m, Duplicate(i)).value;
      InvStep(m, Duplicate(i));
      var rest := DrainsLatecomer(a, i);
      RunCons(m, Duplicate(i), rest);
      moves := [Duplicate(i)] + rest;
    } else {
      assert HeldByThread(m.threads, m.threads[i].copy.value) && Placed(m, m.threads[i].copy.value);
      var a := Step(m, Push(i)).value;
      var rest := DrainsHead(a);
      RunCons(m, Push(i), rest);
      moves := [Push(i)] + rest;
    }
  }

  /** A disconnection about to remove the handlers while something is queued or in flight. */
  lemma DrainsLeftover(m: Machine) returns (later: seq<Move>)
    requires Inv(m) && Numbered(m) && m.main == Detaching && !Quiescent(m)
    ensures CanFollow(Step(m, Detach).value, later) && Run(Step(m, Detach).value, later).value.stale
  {
    var d := Step(m, Detach).value;
    var r := Step(d, Reattach).value;
    InvStep(m, Detach);
    InvStep(d, Reattach);
    if m.queue != [] {
      assert Placed(m, m.queue[0]);
      later := DrainsHead(r);
    } else {
      var i :| 0 <= i < |m.threads| && m.threads[i].tickers != [];
      if m.threads[i].copy.Some? {
        assert HeldByThread(m.threads, m.threads[i].copy.value) && Placed(m, m.threads[i].copy.value);
      }
      later := DrainsLatecomer(r, i);
    }
    RunCons(d, Reattach, later);
    later := [Reattach] + later;
  }

  /**
   * A disconnection isolates the next session from the past exactly when, at the moment it removes the
   * handlers, nothing was queued behind its back and no callback is in flight. Clearing the queues
   * first, as it does, is not enough.
   */
  lemma IsolatedExactly(moves: seq<Move>, m: Machine)
    requires Run(START, moves) == Some(m) && m.main == Detaching && !m.stale
    ensures Quiescent(m) <==>
            forall later :: CanFollow(Step(m, Detach).value, later) ==> !Run(Step(m, Detach).value, later).value.stale
  {
    StartInv();
    InvRun(START, moves);
    NumberedRun(START, moves);
    var d := Step(m, Detach).value;
    if Quiescent(m) {
      forall later | CanFollow(d, later) ensures !Run(d, later).value.stale { RecentRun(d, later); }
    } else {
      var later := DrainsLeftover(m);
    }
  }

  /** Such a moment is reached: an event delivered before the clearing, whose callback comes too late for it. */
  lemma DisconnectMayNotIsolate() returns (moves: seq<Move>, m: Machine, later: seq<Move>)
    ensures Run(START, moves) == Some(m) && m.main == Detaching && !m.stale && !Quiescent(m)
    ensures CanFollow(Step(m, Detach).value, later) && Run(Step(m, Detach).value, later).value.stale
  {
    moves := [Deliver(["KMD"])] + ([StartClear] + ([EndClear] + []));
    var a := Step(START, Deliver(["KMD"])).value;
    var b := Step(a, StartClear).value;
    m := Step(b, EndClear).value;
    RunCons(START, Deliver(["KMD"]), [StartClear] + ([EndClear] + []));
    RunCons(a, StartClear, [EndClear] + []);
    RunCons(b, EndClear, []);
    assert m.threads[0].tickers != [];
    StartInv();
    InvRun(START, moves);
    NumberedRun(START, moves);
    later := DrainsLeftover(m);
  }

  /** The moves can follow, up to the next completed disconnection. */
  ghost predicate CanFollow(m: Machine, later: seq<Move>) {
    Run(m, later).Some? && forall move :: move in later ==> !move.Detach?
  }
}
