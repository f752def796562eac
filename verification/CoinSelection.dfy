/** Which coins are sent to be enabled or disabled, and the fee tickers they drag along. */
module CoinSelection {
  import opened Sequences

  /** The part of a coin's configuration that the selection looks at. */
  datatype CoinInfo = CoinInfo(
    ticker: string,
    hasParentFees: bool,
    feesTicker: string,
    currentlyEnabled: bool,
    active: bool)

  const UNKNOWN := CoinInfo("", false, "", false, false)

  type CoinTable = map<string, CoinInfo>

  /** A missing coin reads as a default entry with an empty ticker. */
  function Info(table: CoinTable, ticker: string): CoinInfo {
    if ticker in table then table[ticker] else UNKNOWN
  }

  /** Entries are stored under their own ticker, or are default entries made by a stray subscript. */
  ghost predicate OwnTickers(table: CoinTable) {
    forall t :: t in table ==> table[t].ticker == t || table[t].ticker == ""
  }

  // ---- enabling ----

  /** The coin pays its fees in another coin. */
  predicate PaysElsewhere(c: CoinInfo) {
    c.hasParentFees && c.ticker != c.feesTicker
  }

  /** A requested coin whose fee coin is known, not requested, and neither enabled nor active. */
  predicate NeedsExtra(table: CoinTable, coins: seq<string>, coin: string) {
    var c := Info(table, coin);
    var parent := Info(table, c.feesTicker);
    && PaysElsewhere(c) && c.feesTicker !in coins
    && parent.ticker != "" && !parent.currentlyEnabled && !parent.active
  }

  function Extras(table: CoinTable, coins: seq<string>, requested: seq<string>): set<string> {
    set coin | coin in requested && NeedsExtra(table, coins, coin) :: Info(table, Info(table, coin).feesTicker).ticker
  }

  /**
   * The coin is worth adding: known, not requested, neither enabled nor active, and the coin in which some
   * requested coin pays its fees instead of in itself.
   */
  ghost predicate Wanted(table: CoinTable, coins: seq<string>, t: string) {
    && t in table && table[t].ticker != "" && t !in coins
    && !table[t].currentlyEnabled && !table[t].active
    && exists coin :: coin in coins && coin in table && table[coin].hasParentFees
                      && table[coin].ticker != table[coin].feesTicker && table[coin].feesTicker == t
  }

  /** Nothing is added that is not needed, and everything that is needed is added. */
  lemma ExtrasAreWanted(table: CoinTable, coins: seq<string>, t: string)
    requires OwnTickers(table)
    ensures t in Extras(table, coins, coins) <==> Wanted(table, coins, t)
  {
    if t in Extras(table, coins, coins) {
      var coin :| coin in coins && NeedsExtra(table, coins, coin) &&
        Info(table, Info(table, coin).feesTicker).ticker == t;
      assert coin in table && table[coin].feesTicker == t;
    }
    if Wanted(table, coins, t) {
      var coin :| coin in coins && coin in table && table[coin].hasParentFees
                  && table[coin].ticker != table[coin].feesTicker && table[coin].feesTicker == t;
      assert NeedsExtra(table, coins, coin);
    }
  }

  /**
   * Refuses a request over the limit; otherwise sends it, followed by the missing fee coins in
   * the arbitrary order of an unordered set.
   */
  method EnableCoins(table: CoinTable, coins: seq<string>, enabledCount: nat, limit: nat)
    returns (accepted: bool, sent: seq<string>)
    ensures accepted <==> |coins| + enabledCount <= limit
    ensures !accepted ==> sent == []
    ensures accepted ==> coins <= sent && Distinct(sent[|coins|..])
    ensures accepted ==> forall t :: t in sent[|coins|..] <==> t in Extras(table, coins, coins)
    ensures accepted && OwnTickers(table) ==> forall t :: t in sent[|coins|..] <==> Wanted(table, coins, t)
  {
    if limit < |coins| + enabledCount {
      return false, [];
    }
    sent := [];
    var extra: set<string> := {};
    for n := 0 to |coins|
      invariant sent == coins[..n]
      invariant extra == Extras(table, coins, coins[..n])
    {
      var coin := coins[n];
      var info := Info(table, coin);
      assert forall c :: c in coins[..n + 1] <==> c in coins[..n] || c == coin;
      if info.hasParentFees && info.ticker != info.feesTicker && info.feesTicker !in coins {
        var parent := Info(table, info.feesTicker);
        if parent.ticker != "" {
          if !parent.currentlyEnabled && !parent.active {
            extra := extra + {parent.ticker};
          }
        }
      }
      sent := sent + [coin];
    }
    assert coins[..|coins|] == coins;
    ghost var all := extra;
    while extra != {}
      invariant extra <= all
      invariant coins <= sent && Distinct(sent[|coins|..])
      invariant forall t :: t in sent[|coins|..] <==> t in all && t !in extra
      decreases |extra|
    {
      var t :| t in extra;
      extra := extra - {t};
      assert (sent + [t])[|coins|..] == sent[|coins|..] + [t];
      sent := sent + [t];
    }
    accepted := true;
    if OwnTickers(table) {
      forall t ensures t in all <==> Wanted(table, coins, t) { ExtrasAreWanted(table, coins, t); }
    }
  }

  /** The fee coins added are none of the requested ones. */
  lemma ExtrasDisjoint(table: CoinTable, coins: seq<string>)
    requires OwnTickers(table)
    ensures forall t :: t in Extras(table, coins, coins) ==> t !in coins && t in table
  {
  }

  lemma {:induction false} ExtrasBound(table: CoinTable, coins: seq<string>, requested: seq<string>)
    ensures |Extras(table, coins, requested)| <= |requested|
  {
    var now := Extras(table, coins, requested);
    if requested == [] {
      assert now == {};
    } else {
      var coin := requested[0];
      var rest := Extras(table, coins, requested[1..]);
      ExtrasBound(table, coins, requested[1..]);
      assert forall c :: c in requested <==> c == coin || c in requested[1..];
      if NeedsExtra(table, coins, coin) {
        assert now == rest + {Info(table, Info(table, coin).feesTicker).ticker};
      } else {
        assert now == rest;
      }
    }
  }

  /** What an accepted request may have been answered with. */
  ghost predicate Answer(table: CoinTable, coins: seq<string>, sent: seq<string>) {
    && coins <= sent && Distinct(sent[|coins|..])
    && forall t :: t in sent[|coins|..] <==> t in Extras(table, coins, coins)
  }

  /**
   * The limit is checked against the request alone: an accepted request stays within it exactly
   * when the fee coins it drags along fit in what the request left over.
   */
  lemma LimitKeptExactly(table: CoinTable, coins: seq<string>, sent: seq<string>, enabledCount: nat, limit: nat)
    requires Answer(table, coins, sent) && |coins| + enabledCount <= limit
    ensures |sent| == |coins| + |Extras(table, coins, coins)| <= 2 * |coins|
    ensures |sent| + enabledCount <= limit <==>
            |Extras(table, coins, coins)| <= limit - |coins| - enabledCount
  {
    DistinctCount(sent[|coins|..], Extras(table, coins, coins));
    ExtrasBound(table, coins, coins);
  }

  /** An accepted request can exceed the limit. */
  lemma LimitExceeded() returns (table: CoinTable, coins: seq<string>)
    ensures forall sent :: Answer(table, coins, sent) ==> |coins| + 0 <= 1 < |sent| + 0
  {
    table := map["T" := CoinInfo("T", true, "P", false, false), "P" := CoinInfo("P", false, "P", false, false)];
    coins := ["T"];
    assert NeedsExtra(table, coins, "T");
    assert Info(table, Info(table, "T").feesTicker).ticker in Extras(table, coins, coins);
    forall sent | Answer(table, coins, sent) ensures 1 < |sent| {
      LimitKeptExactly(table, coins, sent, 0, 1);
    }
  }

  /** The fee coin of `coin` needs no further action: sent along, already enabled or active, or unknown. */
  ghost predicate FeesCovered(table: CoinTable, sent: seq<string>, coin: string) {
    var c := Info(table, coin);
    var parent := Info(table, c.feesTicker);
    PaysElsewhere(c) ==>
      c.feesTicker in sent || parent.ticker == "" || parent.currentlyEnabled || parent.active
  }

  /** Every requested coin has its fees covered by what is sent. */
  lemma RequestCovered(table: CoinTable, coins: seq<string>, sent: seq<string>, coin: string)
    requires OwnTickers(table) && Answer(table, coins, sent) && coin in coins
    ensures FeesCovered(table, sent, coin)
  {
    var c := Info(table, coin);
    var parent := Info(table, c.feesTicker);
    if PaysElsewhere(c) && c.feesTicker in coins {
      var i :| 0 <= i < |coins| && coins[i] == c.feesTicker;
      assert sent[i] == c.feesTicker;
    } else if NeedsExtra(table, coins, coin) {
      assert parent.ticker in Extras(table, coins, coins);
      var i :| |coins| <= i < |sent| && sent[i] == parent.ticker;
      assert c.feesTicker in sent;
    }
  }

  /** What is sent is the request and the extras. */
  lemma SentIs(table: CoinTable, coins: seq<string>, sent: seq<string>, coin: string)
    requires Answer(table, coins, sent)
    ensures coin in sent <==> coin in coins || coin in Extras(table, coins, coins)
  {
    assert sent == coins + sent[|coins|..];
  }

  /** Told before the call: the extra pays its own fees, or its fee coin is sent anyway, enabled, active or unknown. */
  predicate ExtraCovered(table: CoinTable, coins: seq<string>, extra: string) {
    var c := Info(table, extra);
    var grandparent := Info(table, c.feesTicker);
    PaysElsewhere(c) ==>
      || c.feesTicker in coins || c.feesTicker in Extras(table, coins, coins)
      || grandparent.ticker == "" || grandparent.currentlyEnabled || grandparent.active
  }

  /** The single pass is the transitive closure exactly when the fee coins it adds need no further one. */
  lemma SinglePassClosesExactly(table: CoinTable, coins: seq<string>, sent: seq<string>)
    requires OwnTickers(table) && Answer(table, coins, sent)
    ensures (forall coin :: coin in sent ==> FeesCovered(table, sent, coin)) <==>
            (forall extra :: extra in Extras(table, coins, coins) ==> ExtraCovered(table, coins, extra))
  {
    forall extra | extra in Extras(table, coins, coins)
      ensures extra in sent && (FeesCovered(table, sent, extra) <==> ExtraCovered(table, coins, extra))
    {
      SentIs(table, coins, sent, extra);
      SentIs(table, coins, sent, Info(table, extra).feesTicker);
    }
    forall coin | coin in sent
      ensures FeesCovered(table, sent, coin) || coin in Extras(table, coins, coins)
    {
      SentIs(table, coins, sent, coin);
      if coin in coins { RequestCovered(table, coins, sent, coin); }
    }
  }

  /** Coins that others pay their fees in pay their own fees in themselves. */
  ghost predicate OneLevel(table: CoinTable) {
    forall t :: t in table && PaysElsewhere(table[t]) && table[t].feesTicker in table ==>
      !PaysElsewhere(table[table[t].feesTicker])
  }

  /** In particular with one level of fee coins, whatever the request. */
  lemma SinglePassCloses(table: CoinTable, coins: seq<string>, sent: seq<string>, coin: string)
    requires OwnTickers(table) && OneLevel(table) && Answer(table, coins, sent) && coin in sent
    ensures FeesCovered(table, sent, coin)
  {
    forall extra | extra in Extras(table, coins, coins) ensures ExtraCovered(table, coins, extra) {
      var child :| child in coins && NeedsExtra(table, coins, child) &&
        Info(table, Info(table, child).feesTicker).ticker == extra;
      assert Info(table, child).feesTicker in table;
    }
    SinglePassClosesExactly(table, coins, sent);
  }

  /** With two levels it is not: the extra's own fee coin stays behind. */
  lemma SinglePassMayMissAGrandparent() returns (table: CoinTable, coins: seq<string>)
    ensures OwnTickers(table)
    ensures forall sent :: Answer(table, coins, sent) ==> exists coin :: coin in sent && !FeesCovered(table, sent, coin)
  {
    table := map["T" := CoinInfo("T", true, "P", false, false),
                 "P" := CoinInfo("P", true, "G", false, false),
                 "G" := CoinInfo("G", false, "G", false, false)];
    coins := ["T"];
    assert Extras(table, coins, coins) == {"P"} by {
      assert NeedsExtra(table, coins, "T");
      assert Info(table, Info(table, "T").feesTicker).ticker == "P";
    }
    assert "P" in Extras(table, coins, coins) && "G" !in coins && "G" !in Extras(table, coins, coins);
    assert !ExtraCovered(table, coins, "P");
    forall sent | Answer(table, coins, sent) ensures exists coin :: coin in sent && !FeesCovered(table, sent, coin) {
      SinglePassClosesExactly(table, coins, sent);
    }
  }

  // ---- disabling ----

  /** What the selection asks of the coin table, the order book and the coin service. */
  datatype Context = Context(
    table: CoinTable,
    swapInProgress: string -> bool,
    ready: string -> bool,
    primary: string,
    secondary: string)

  /** Refused silently, reported as not ready, or disabled: as a token, or as a coin paying its own fees. */
  datatype Fate = Refused | NotReady | Token | Standalone

  function FateOf(ctx: Context, coin: string): Fate {
    if ctx.swapInProgress(coin) || coin == ctx.primary || coin == ctx.secondary then Refused
    else if !ctx.ready(coin) then NotReady
    else if Info(ctx.table, coin).hasParentFees then Token
    else Standalone
  }

  /** The coins meeting a fate, in the order of the request. */
  function Meeting(ctx: Context, fate: Fate, coins: seq<string>): seq<string> {
    if coins == [] then []
    else
      var rest := Meeting(ctx, fate, coins[..|coins| - 1]);
      var last := coins[|coins| - 1];
      if FateOf(ctx, last) == fate then rest + [last] else rest
  }

  function Reversed(s: seq<string>): (r: seq<string>)
    ensures |r| == |s|
    ensures forall i :: 0 <= i < |s| ==> r[i] == s[|s| - 1 - i]
  {
    seq(|s|, i requires 0 <= i < |s| => s[|s| - 1 - i])
  }

  /** Tokens, last requested first, then coins that pay their own fees, in the order of the request. */
  function DisableOrder(ctx: Context, coins: seq<string>): seq<string> {
    Reversed(Meeting(ctx, Token, coins)) + Meeting(ctx, Standalone, coins)
  }

  lemma MeetingNext(ctx: Context, fate: Fate, coins: seq<string>, n: nat)
    requires n < |coins|
    ensures Meeting(ctx, fate, coins[..n + 1])
         == if FateOf(ctx, coins[n]) == fate then Meeting(ctx, fate, coins[..n]) + [coins[n]]
            else Meeting(ctx, fate, coins[..n])
  {
    assert coins[..n + 1][..n] == coins[..n];
  }

  lemma ReversedNext(s: seq<string>, x: string)
    ensures Reversed(s + [x]) == [x] + Reversed(s)
  {
  }

  lemma DisableOrderNext(ctx: Context, coins: seq<string>, n: nat)
    requires n < |coins|
    ensures DisableOrder(ctx, coins[..n + 1])
         == match FateOf(ctx, coins[n])
            case Token => [coins[n]] + DisableOrder(ctx, coins[..n])
            case Standalone => DisableOrder(ctx, coins[..n]) + [coins[n]]
            case _ => DisableOrder(ctx, coins[..n])
  {
    hide Meeting;
    hide Reversed;
    hide FateOf;
    MeetingNext(ctx, Token, coins, n);
    MeetingNext(ctx, Standalone, coins, n);
    ReversedNext(Meeting(ctx, Token, coins[..n]), coins[n]);
  }

  /** May be disabled at all: not being swapped and not a main coin. */
  ghost predicate Free(ctx: Context, coin: string) {
    !ctx.swapInProgress(coin) && coin != ctx.primary && coin != ctx.secondary
  }

  ghost predicate PaysInAnother(table: CoinTable, coin: string) {
    coin in table && table[coin].hasParentFees
  }

  /** What is disabled: the tokens, from the last requested to the first, then the other coins as requested. */
  ghost predicate DisabledAt(ctx: Context, coins: seq<string>, disabled: seq<string>, front: seq<nat>, back: seq<nat>) {
    && Decreasing(front) && Increasing(back) && Picks(coins, front + back, disabled)
    && (forall i: nat :: i in front <==>
          i < |coins| && Free(ctx, coins[i]) && ctx.ready(coins[i]) && PaysInAnother(ctx.table, coins[i]))
    && (forall i: nat :: i in back <==>
          i < |coins| && Free(ctx, coins[i]) && ctx.ready(coins[i]) && !PaysInAnother(ctx.table, coins[i]))
  }

  /** What is reported: the coins that are not ready, as requested. */
  ghost predicate ReportedAt(ctx: Context, coins: seq<string>, failed: seq<string>, at: seq<nat>) {
    && Increasing(at) && Picks(coins, at, failed)
    && (forall i: nat :: i in at <==> i < |coins| && Free(ctx, coins[i]) && !ctx.ready(coins[i]))
  }

  lemma {:induction false} MeetingPicks(ctx: Context, fate: Fate, coins: seq<string>) returns (at: seq<nat>)
    ensures Increasing(at) && Picks(coins, at, Meeting(ctx, fate, coins))
    ensures forall i: nat :: i in at <==> i < |coins| && FateOf(ctx, coins[i]) == fate
  {
    hide FateOf;
    if coins == [] {
      at := [];
    } else {
      var n := |coins| - 1;
      var front := MeetingPicks(ctx, fate, coins[..n]);
      PicksNext(coins, front, Meeting(ctx, fate, coins[..n]));
      hide Picks;
      hide Increasing;
      at := if FateOf(ctx, coins[n]) == fate then front + [n] else front;
    }
  }

  lemma FatesMean(ctx: Context, coin: string)
    ensures FateOf(ctx, coin) == Token <==> Free(ctx, coin) && ctx.ready(coin) && PaysInAnother(ctx.table, coin)
    ensures FateOf(ctx, coin) == Standalone <==> Free(ctx, coin) && ctx.ready(coin) && !PaysInAnother(ctx.table, coin)
    ensures FateOf(ctx, coin) == NotReady <==> Free(ctx, coin) && !ctx.ready(coin)
  {
  }

  lemma ReversedPicks(coins: seq<string>, at: seq<nat>, picked: seq<string>) returns (back: seq<nat>)
    requires Increasing(at) && Picks(coins, at, picked)
    ensures Decreasing(back) && Picks(coins, back, Reversed(picked))
    ensures forall i: nat :: i in back <==> i in at
  {
    back := seq(|at|, k requires 0 <= k < |at| => at[|at| - 1 - k]);
    forall i: nat | i in at ensures i in back {
      var k :| 0 <= k < |at| && at[k] == i;
      assert back[|at| - 1 - k] == i;
    }
  }

  lemma DisableOrderPicks(ctx: Context, coins: seq<string>) returns (front: seq<nat>, back: seq<nat>)
    ensures DisabledAt(ctx, coins, DisableOrder(ctx, coins), front, back)
  {
    hide FateOf;
    hide Free;
    hide PaysInAnother;
    var tokens := MeetingPicks(ctx, Token, coins);
    front := ReversedPicks(coins, tokens, Meeting(ctx, Token, coins));
    back := MeetingPicks(ctx, Standalone, coins);
    forall i | 0 <= i < |coins| { FatesMean(ctx, coins[i]); }
  }

  lemma FailedPicks(ctx: Context, coins: seq<string>) returns (at: seq<nat>)
    ensures ReportedAt(ctx, coins, Meeting(ctx, NotReady, coins), at)
  {
    hide FateOf;
    hide Free;
    at := MeetingPicks(ctx, NotReady, coins);
    forall i | 0 <= i < |coins| { FatesMean(ctx, coins[i]); }
  }

  /** Every occurrence of a ready coin that may be disabled is, every one that is not ready is reported, no other. */
  lemma DisabledExactly(ctx: Context, coins: seq<string>, x: string)
    ensures multiset(DisableOrder(ctx, coins))[x]
         == if Free(ctx, x) && ctx.ready(x) then multiset(coins)[x] else 0
    ensures multiset(Meeting(ctx, NotReady, coins))[x]
         == if Free(ctx, x) && !ctx.ready(x) then multiset(coins)[x] else 0
  {
    hide FateOf;
    hide Free;
    FatesMean(ctx, x);
    ReversedMultiset(Meeting(ctx, Token, coins));
    MeetingAt(ctx, Token, coins, x);
    MeetingAt(ctx, Standalone, coins, x);
    MeetingAt(ctx, NotReady, coins, x);
  }

  /** Pushes tokens to the front and other coins to the back of the list; reports coins that are not ready. */
  method DisableCoins(ctx: Context, coins: seq<string>) returns (disabled: seq<string>, failed: seq<string>)
    ensures disabled == DisableOrder(ctx, coins)
    ensures failed == Meeting(ctx, NotReady, coins)
    ensures exists front, back :: DisabledAt(ctx, coins, disabled, front, back)
    ensures exists at :: ReportedAt(ctx, coins, failed, at)
    ensures forall x :: multiset(disabled)[x] == if Free(ctx, x) && ctx.ready(x) then multiset(coins)[x] else 0
    ensures forall x :: multiset(failed)[x] == if Free(ctx, x) && !ctx.ready(x) then multiset(coins)[x] else 0
  {
    disabled, failed := [], [];
    assert coins[..0] == [] && DisableOrder(ctx, []) == [] && Meeting(ctx, NotReady, []) == [];
    hide DisableOrder;
    hide Meeting;
    hide DisabledAt;
    hide ReportedAt;
    hide Free;
    for n := 0 to |coins|
      invariant disabled == DisableOrder(ctx, coins[..n])
      invariant failed == Meeting(ctx, NotReady, coins[..n])
    {
      var coin := coins[n];
      DisableOrderNext(ctx, coins, n);
      MeetingNext(ctx, NotReady, coins, n);
      if !ctx.swapInProgress(coin) && coin != ctx.primary && coin != ctx.secondary {
        if !ctx.ready(coin) {
          failed := failed + [coin];
        } else if Info(ctx.table, coin).hasParentFees {
          disabled := [coin] + disabled;
        } else {
          disabled := disabled + [coin];
        }
      }
    }
    assert coins[..|coins|] == coins;
    ghost var front, back := DisableOrderPicks(ctx, coins);
    ghost var at := FailedPicks(ctx, coins);
    forall x: string { DisabledExactly(ctx, coins, x); }
  }

  lemma {:induction false} MeetingAt(ctx: Context, fate: Fate, coins: seq<string>, x: string)
    ensures multiset(Meeting(ctx, fate, coins))[x] == if FateOf(ctx, x) == fate then multiset(coins)[x] else 0
  {
    if coins != [] {
      MeetingAt(ctx, fate, coins[..|coins| - 1], x);
      assert coins == coins[..|coins| - 1] + [coins[|coins| - 1]];
    }
  }

  lemma {:induction false} ReversedMultiset(s: seq<string>)
    ensures multiset(Reversed(s)) == multiset(s)
  {
    if s == [] {
      assert Reversed(s) == s;
    } else {
      var front, last := s[..|s| - 1], s[|s| - 1];
      assert s == front + [last];
      ReversedNext(front, last);
      ReversedMultiset(front);
    }
  }

  /** Every occurrence of a requested coin is refused, reported, or disabled, and nothing else is. */
  lemma DisableSplits(ctx: Context, coins: seq<string>)
    ensures multiset(coins) == multiset(Meeting(ctx, Refused, coins)) + multiset(Meeting(ctx, NotReady, coins))
                             + multiset(DisableOrder(ctx, coins))
  {
    hide FateOf;
    ReversedMultiset(Meeting(ctx, Token, coins));
    forall x: string
      ensures multiset(coins)[x]
           == multiset(Meeting(ctx, Refused, coins))[x] + multiset(Meeting(ctx, NotReady, coins))[x]
            + multiset(Meeting(ctx, Token, coins))[x] + multiset(Meeting(ctx, Standalone, coins))[x]
    {
      MeetingAt(ctx, Refused, coins, x);
      MeetingAt(ctx, NotReady, coins, x);
      MeetingAt(ctx, Token, coins, x);
      MeetingAt(ctx, Standalone, coins, x);
    }
  }

  lemma {:induction false} MeetingAll(ctx: Context, fate: Fate, coins: seq<string>)
    ensures forall i :: 0 <= i < |Meeting(ctx, fate, coins)| ==> FateOf(ctx, Meeting(ctx, fate, coins)[i]) == fate
  {
    if coins != [] { MeetingAll(ctx, fate, coins[..|coins| - 1]); }
  }

  /** The list to disable holds no refused coin, and every token stands before every coin that pays its own fees. */
  lemma TokensBeforeCoins(ctx: Context, coins: seq<string>)
    ensures forall i :: 0 <= i < |DisableOrder(ctx, coins)| ==>
              var coin := DisableOrder(ctx, coins)[i];
              !ctx.swapInProgress(coin) && ctx.ready(coin) && coin != ctx.primary && coin != ctx.secondary
    ensures forall i, j :: 0 <= i < j < |DisableOrder(ctx, coins)| &&
              Info(ctx.table, DisableOrder(ctx, coins)[j]).hasParentFees
              ==> Info(ctx.table, DisableOrder(ctx, coins)[i]).hasParentFees
  {
    MeetingAll(ctx, Token, coins);
    MeetingAll(ctx, Standalone, coins);
  }
}
