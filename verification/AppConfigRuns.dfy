/** What holds of the settings and their file over whole runs. */
module AppConfigRuns {
  import opened Wrappers
  import opened Sequences
  import opened JsonValues
  import opened AppConfig

  // ---- write-through ----

  /** The file decodes to exactly the settings in memory. */
  ghost predicate Agrees(s: Store) {
    Decode(s.file) == Some(s.cfg)
  }

  ghost predicate HoldsString(file: Object, key: string, text: string) {
    key in file && file[key] == Str(text)
  }

  ghost predicate HoldsStrings(file: Object, key: string, texts: seq<string>) {
    && key in file && file[key].Arr? && |file[key].items| == |texts|
    && forall i :: 0 <= i < |texts| ==> file[key].items[i] == Str(texts[i])
  }

  ghost predicate HoldsTable(file: Object, key: string, table: map<string, string>) {
    && key in file && file[key].Obj? && file[key].fields.Keys == table.Keys
    && forall k :: k in table ==> file[key].fields[k] == Str(table[k])
  }

  /** A flag that may be missing, and its value then. */
  ghost predicate HoldsFlag(file: Object, key: string, default: bool, flag: bool) {
    if key in file then file[key] == Bool(flag) else flag == default
  }

  /** What a file must hold, key by key, to be read as given settings. */
  ghost predicate Holds(file: Object, c: Cfg) {
    && HoldsString(file, "current_currency", c.currentCurrency)
    && HoldsString(file, "current_fiat", c.currentFiat)
    && HoldsString(file, "current_currency_sign", c.currentCurrencySign)
    && HoldsString(file, "current_fiat_sign", c.currentFiatSign)
    && HoldsStrings(file, "available_fiat", c.availableFiat)
    && HoldsStrings(file, "recommended_fiat", c.recommendedFiat)
    && HoldsStrings(file, "possible_currencies", c.possibleCurrencies)
    && HoldsTable(file, "available_signs", c.availableCurrencySigns)
    && "notification_enabled" in file && file["notification_enabled"] == Bool(c.notificationEnabled)
    && HoldsFlag(file, "spamfilter_enabled", true, c.spamfilterEnabled)
    && HoldsFlag(file, "postorder_enabled", true, c.postorderEnabled)
    && HoldsFlag(file, "static_rpcpass_enabled", false, c.staticRpcpassEnabled)
  }

  lemma StringRead(file: Object, key: string, text: string)
    ensures GetString(Lookup(file, key)) == Some(text) <==> HoldsString(file, key, text)
  {
  }

  lemma StringsRead(file: Object, key: string, texts: seq<string>)
    ensures GetStrings(Lookup(file, key)) == Some(texts) <==> HoldsStrings(file, key, texts)
  {
    if HoldsStrings(file, key, texts) {
      assert file[key].items == OfStrings(texts).items;
      StringsRoundTrip(texts);
    }
  }

  lemma TableRead(file: Object, key: string, table: map<string, string>)
    ensures GetStringMap(Lookup(file, key)) == Some(table) <==> HoldsTable(file, key, table)
  {
    if HoldsTable(file, key, table) {
      assert file[key].fields == OfStringMap(table).fields;
      StringMapRoundTrip(table);
    }
  }

  lemma FlagRead(file: Object, key: string, default: bool, flag: bool)
    ensures GetBoolOr(Lookup(file, key), default) == Some(flag) <==> HoldsFlag(file, key, default, flag)
  {
  }

  /** A file is read as the settings it holds, missing flags included, and as nothing else. */
  lemma DecodesExactly(file: Object, c: Cfg)
    ensures Decode(file) == Some(c) <==> Holds(file, c)
  {
    StringRead(file, "current_currency", c.currentCurrency);
    StringRead(file, "current_fiat", c.currentFiat);
    StringRead(file, "current_currency_sign", c.currentCurrencySign);
    StringRead(file, "current_fiat_sign", c.currentFiatSign);
    StringsRead(file, "available_fiat", c.availableFiat);
    StringsRead(file, "recommended_fiat", c.recommendedFiat);
    StringsRead(file, "possible_currencies", c.possibleCurrencies);
    TableRead(file, "available_signs", c.availableCurrencySigns);
    FlagRead(file, "spamfilter_enabled", true, c.spamfilterEnabled);
    FlagRead(file, "postorder_enabled", true, c.postorderEnabled);
    FlagRead(file, "static_rpcpass_enabled", false, c.staticRpcpassEnabled);
    assert GetBool(Lookup(file, "notification_enabled")) == Some(c.notificationEnabled) <==>
           "notification_enabled" in file && file["notification_enabled"] == Bool(c.notificationEnabled);
    hide Lookup;
    hide GetString;
    hide GetStrings;
    hide GetStringMap;
    hide GetBool;
    hide GetBoolOr;
    hide HoldsString;
    hide HoldsStrings;
    hide HoldsTable;
    hide HoldsFlag;
  }

  const WRITTEN: set<string> := {
    "current_currency", "current_fiat", "recommended_fiat", "possible_currencies", "current_currency_sign",
    "current_fiat_sign", "available_signs", "notification_enabled", "spamfilter_enabled", "postorder_enabled",
    "static_rpcpass_enabled" }

  lemma UpgradedLookups(file: Object, c: Cfg)
    ensures var after := Upgraded(file, c);
            && Lookup(after, "current_currency") == Some(Str(c.currentCurrency))
            && Lookup(after, "current_fiat") == Some(Str(c.currentFiat))
            && Lookup(after, "available_fiat") == Lookup(file, "available_fiat")
            && Lookup(after, "recommended_fiat") == Some(OfStrings(c.recommendedFiat))
            && Lookup(after, "possible_currencies") == Some(OfStrings(c.possibleCurrencies))
            && Lookup(after, "current_currency_sign") == Some(Str(c.currentCurrencySign))
            && Lookup(after, "available_signs") == Some(OfStringMap(c.availableCurrencySigns))
            && Lookup(after, "current_fiat_sign") == Some(Str(c.currentFiatSign))
            && Lookup(after, "notification_enabled") == Some(Bool(c.notificationEnabled))
            && Lookup(after, "spamfilter_enabled") == Some(Bool(c.spamfilterEnabled))
            && Lookup(after, "postorder_enabled") == Some(Bool(c.postorderEnabled))
            && Lookup(after, "static_rpcpass_enabled") == Some(Bool(c.staticRpcpassEnabled))
  {
  }

  /** Writing the settings makes the file decode to them exactly when it already held their available fiats. */
  lemma DecodeUpgraded(file: Object, c: Cfg)
    ensures Decode(Upgraded(file, c)) == Some(c) <==>
            GetStrings(Lookup(file, "available_fiat")) == Some(c.availableFiat)
  {
    hide Upgraded;
    hide GetStrings;
    hide GetStringMap;
    UpgradedLookups(file, c);
    StringsRoundTrip(c.recommendedFiat);
    StringsRoundTrip(c.possibleCurrencies);
    StringMapRoundTrip(c.availableCurrencySigns);
  }

  lemma UpgradedKeepsOtherKeys(file: Object, c: Cfg, key: string)
    requires key !in WRITTEN
    ensures Lookup(Upgraded(file, c), key) == Lookup(file, key)
  {
  }

  /** Disagreement, if any, is confined to the current currency. */
  ghost predicate AgreesButCurrency(s: Store) {
    && Decode(s.file).Some?
    && Decode(s.file).value.(currentCurrency := s.cfg.currentCurrency) == s.cfg
  }

  lemma SavedAgrees(s: Store, cfg: Cfg)
    requires AgreesButCurrency(s) && cfg.availableFiat == s.cfg.availableFiat
    ensures Agrees(Store(cfg, Upgraded(s.file, cfg)))
  {
    DecodeUpgraded(s.file, cfg);
  }

  /** The one call that breaks agreement: choosing another currency whose sign is unknown. */
  ghost predicate Breaks(s: Store, op: Op, linux: bool) {
    op.ChangeCurrency? && !KnownSign(s.cfg, op.currency, linux) && op.currency != s.cfg.currentCurrency
  }

  /** One call keeps agreement exactly when it is not the breaking one. */
  lemma ApplyAgrees(s: Store, op: Op, linux: bool)
    requires Agrees(s) && !Apply(s, op, linux).Undefined?
    ensures Agrees(Apply(s, op, linux).store) <==> !Breaks(s, op, linux)
  {
    hide Upgraded;
    hide Decode;
    hide Promoted;
    if Decide(s.cfg, op, linux).Save? { SavedAgrees(s, Decide(s.cfg, op, linux).cfg); }
  }

  /** Agreement can really break: the currency is assigned before its missing sign makes the call throw. */
  lemma UnknownSignDisagrees() returns (s: Store, op: Op)
    ensures Agrees(s) && Apply(s, op, true).Threw? && !Agrees(Apply(s, op, true).store)
  {
    hide Upgraded;
    var cfg :=
      Cfg("USD", "USD", "$", "$", map["USD" := "$"], ["USD"], ["USD"], ["USD", "BTC"], true, true, true, false);
    var file := map["available_fiat" := OfStrings(["USD"])];
    s, op := Store(cfg, Upgraded(file, cfg)), ChangeCurrency("XYZ");
    StringsRoundTrip(["USD"]);
    DecodeUpgraded(file, cfg);
    assert "XYZ" != "USD" && |"XYZ"| == |"BTC"| && "XYZ"[0] != "BTC"[0];
    assert SignKey("XYZ", true) == "XYZ";
    ApplyAgrees(s, op, true);
  }

  lemma ApplyAgreesButCurrency(s: Store, op: Op, linux: bool)
    requires AgreesButCurrency(s) && !Apply(s, op, linux).Undefined?
    ensures AgreesButCurrency(Apply(s, op, linux).store)
    ensures Apply(s, op, linux).store.file != s.file ==> Agrees(Apply(s, op, linux).store)
  {
    hide Upgraded;
    hide Decode;
    hide Promoted;
    if Decide(s.cfg, op, linux).Save? { SavedAgrees(s, Decide(s.cfg, op, linux).cfg); }
  }

  /** Even past exceptions, only the current currency can ever be ahead of the file. */
  lemma {:induction false} RunAgreesButCurrency(s: Store, ops: seq<Op>, linux: bool)
    requires AgreesButCurrency(s) && Run(s, ops, linux).Some?
    ensures AgreesButCurrency(Run(s, ops, linux).value)
    decreases |ops|
  {
    hide Upgraded;
    if ops != [] {
      ApplyAgreesButCurrency(s, ops[0], linux);
      RunAgreesButCurrency(Apply(s, ops[0], linux).store, ops[1..], linux);
    }
  }

  ghost predicate NeverBreaks(s: Store, ops: seq<Op>, linux: bool)
    requires Run(s, ops, linux).Some?
    decreases |ops|
  {
    ops == [] ||
    (!Breaks(s, ops[0], linux) && NeverBreaks(Apply(s, ops[0], linux).store, ops[1..], linux))
  }

  lemma {:induction false} RunPrefix(s: Store, ops: seq<Op>, n: nat, linux: bool)
    requires n <= |ops| && Run(s, ops, linux).Some?
    ensures Run(s, ops[..n], linux).Some?
    ensures n > 0 ==> Run(s, ops[..n], linux) == Run(Apply(s, ops[0], linux).store, ops[1..][..n - 1], linux)
    decreases n
  {
    hide Upgraded;
    if n > 0 {
      assert ops[..n][1..] == ops[1..][..n - 1];
      RunPrefix(Apply(s, ops[0], linux).store, ops[1..], n - 1, linux);
    }
  }

  /**
   * Write-through over whole runs: memory and file agree after every prefix of a run exactly when
   * no call of the run picks another currency without a known sign.
   */
  lemma {:induction false} RunAgrees(s: Store, ops: seq<Op>, linux: bool)
    requires Agrees(s) && Run(s, ops, linux).Some?
    ensures (forall n :: 0 <= n <= |ops| ==> AgreesAfter(s, ops, n, linux)) <==> NeverBreaks(s, ops, linux)
    decreases |ops|
  {
    hide Upgraded;
    forall n | 0 <= n <= |ops| ensures Run(s, ops[..n], linux).Some? {
      RunPrefix(s, ops, n, linux);
    }
    if ops == [] {
      assert ops[..0] == [];
    } else {
      var next := Apply(s, ops[0], linux).store;
      ApplyAgrees(s, ops[0], linux);
      RunPrefix(s, ops, 1, linux);
      if Breaks(s, ops[0], linux) {
        assert !AgreesAfter(s, ops, 1, linux);
      } else {
        RunAgrees(next, ops[1..], linux);
        forall n | 0 < n <= |ops|
          ensures AgreesAfter(s, ops, n, linux) <==> AgreesAfter(next, ops[1..], n - 1, linux)
        {
          RunPrefix(s, ops, n, linux);
        }
        assert ops[..0] == [];
        if !NeverBreaks(next, ops[1..], linux) {
          var m :| 0 <= m <= |ops[1..]| && !AgreesAfter(next, ops[1..], m, linux);
          assert !AgreesAfter(s, ops, m + 1, linux);
        }
      }
    }
  }

  ghost predicate AgreesAfter(s: Store, ops: seq<Op>, n: int, linux: bool)
    requires 0 <= n <= |ops|
  {
    Run(s, ops[..n], linux).Some? && Agrees(Run(s, ops[..n], linux).value)
  }

  /** Keys outside the eleven written ones are never altered. */
  lemma {:induction false} RunKeepsOtherKeys(s: Store, ops: seq<Op>, linux: bool, key: string)
    requires key !in WRITTEN && Run(s, ops, linux).Some?
    ensures Lookup(Run(s, ops, linux).value.file, key) == Lookup(s.file, key)
    decreases |ops|
  {
    hide Upgraded;
    if ops != [] {
      var next := Apply(s, ops[0], linux).store;
      if Decide(s.cfg, ops[0], linux).Save? { UpgradedKeepsOtherKeys(s.file, next.cfg, key); }
      RunKeepsOtherKeys(next, ops[1..], linux, key);
    }
  }

  /** Settings survive a restart: loading the file after a run gives back the state of the run. */
  lemma RestartRestores(disk: Option<Object>, shipped: Object, ops: seq<Op>, linux: bool)
    requires Load(disk, shipped).Some? && Run(Load(disk, shipped).value, ops, linux).Some?
    requires NeverBreaks(Load(disk, shipped).value, ops, linux)
    ensures var s := Run(Load(disk, shipped).value, ops, linux).value;
            Load(Some(s.file), shipped) == Some(s)
  {
    RunAgrees(Load(disk, shipped).value, ops, linux);
    assert AgreesAfter(Load(disk, shipped).value, ops, |ops|, linux);
    assert ops[..|ops|] == ops;
  }

  // ---- one call, as far as the vectors are concerned ----

  ghost predicate Usable(cfg: Cfg) {
    cfg.possibleCurrencies != [] && cfg.recommendedFiat != []
  }

  /** The fiat that a call puts in front of the recommended ones, if any. */
  ghost function Promotion(cfg: Cfg, op: Op, linux: bool): seq<string> {
    if op.ChangeCurrency? && KnownSign(cfg, op.currency, linux) &&
       op.currency in cfg.availableFiat && op.currency !in cfg.recommendedFiat
    then [op.currency] else []
  }

  lemma PromotedFront(rec: seq<string>, fiat: string)
    requires rec != []
    ensures Promoted(rec, fiat) == ((if fiat in rec then [] else [fiat]) + rec)[..|rec|]
  {
    assert ([] + rec)[..|rec|] == rec;
    assert ([fiat] + rec)[..|rec|] == [fiat] + rec[..|rec| - 1];
  }

  // The proofs about one call split by the call, one obligation each.

  lemma StepFacts(s: Store, op: Op, linux: bool)
    requires Usable(s.cfg)
    ensures !Apply(s, op, linux).Undefined?
    ensures Usable(Apply(s, op, linux).store.cfg)
    ensures Apply(s, op, linux).store.cfg.availableFiat == s.cfg.availableFiat
    ensures Apply(s, op, linux).store.cfg.availableCurrencySigns == s.cfg.availableCurrencySigns
    ensures |Apply(s, op, linux).store.cfg.possibleCurrencies| == |s.cfg.possibleCurrencies|
    ensures |Apply(s, op, linux).store.cfg.recommendedFiat| == |s.cfg.recommendedFiat|
  {
    hide Upgraded;
    hide Promoted;
    match op {
      case ChangeCurrency(_) =>
      case ChangeFiat(_) =>
      case ChangeNotification(_) =>
      case ChangePostorder(_) =>
      case ChangeSpamfilter(_) =>
      case ChangeStaticRpcpass(_) =>
    }
  }

  lemma StepPromotes(s: Store, op: Op, linux: bool)
    requires Usable(s.cfg)
    ensures !Apply(s, op, linux).Undefined?
    ensures Apply(s, op, linux).store.cfg.recommendedFiat
         == (Promotion(s.cfg, op, linux) + s.cfg.recommendedFiat)[..|s.cfg.recommendedFiat|]
  {
    hide Upgraded;
    hide Promoted;
    var rec := s.cfg.recommendedFiat;
    if op.ChangeCurrency? { PromotedFront(rec, op.currency); }
    assert [] + rec == rec && rec[..|rec|] == rec;
  }

  /** From non-empty vectors every run is defined, and the vectors keep their lengths. */
  lemma {:induction false} RunDefined(s: Store, ops: seq<Op>, linux: bool)
    requires Usable(s.cfg)
    ensures Run(s, ops, linux).Some?
    ensures |Run(s, ops, linux).value.cfg.possibleCurrencies| == |s.cfg.possibleCurrencies|
    ensures |Run(s, ops, linux).value.cfg.recommendedFiat| == |s.cfg.recommendedFiat|
    ensures Run(s, ops, linux).value.cfg.availableFiat == s.cfg.availableFiat
    ensures Run(s, ops, linux).value.cfg.availableCurrencySigns == s.cfg.availableCurrencySigns
    decreases |ops|
  {
    hide Apply;
    if ops != [] {
      StepFacts(s, ops[0], linux);
      RunDefined(Apply(s, ops[0], linux).store, ops[1..], linux);
    }
  }

  // ---- the recommended fiats ----

  /** The fiats promoted in a run, newest first. */
  ghost function Promotions(s: Store, ops: seq<Op>, linux: bool): seq<string>
    decreases |ops|
  {
    if ops == [] || Apply(s, ops[0], linux).Undefined? then []
    else Promotions(Apply(s, ops[0], linux).store, ops[1..], linux) + Promotion(s.cfg, ops[0], linux)
  }

  /** The first entries of (promotions, newest first) followed by the initial list. */
  lemma {:induction false} RecommendedLaw(s: Store, ops: seq<Op>, linux: bool)
    requires Usable(s.cfg)
    ensures Run(s, ops, linux).Some?
    ensures Run(s, ops, linux).value.cfg.recommendedFiat
         == (Promotions(s, ops, linux) + s.cfg.recommendedFiat)[..|s.cfg.recommendedFiat|]
    decreases |ops|
  {
    hide Apply;
    var rec := s.cfg.recommendedFiat;
    if ops == [] {
      assert [] + rec == rec;
    } else {
      StepFacts(s, ops[0], linux);
      StepPromotes(s, ops[0], linux);
      var next := Apply(s, ops[0], linux).store;
      RecommendedLaw(next, ops[1..], linux);
      TakeTwice(Promotions(next, ops[1..], linux), Promotion(s.cfg, ops[0], linux), rec);
    }
  }

  lemma TakeTwice<T>(later: seq<T>, promotion: seq<T>, rec: seq<T>)
    ensures (later + (promotion + rec)[..|rec|])[..|rec|] == ((later + promotion) + rec)[..|rec|]
  {
  }

  /** Recommended fiats stay pairwise distinct and among the available ones. */
  lemma {:induction false} RecommendedValid(s: Store, ops: seq<Op>, linux: bool)
    requires Usable(s.cfg) && Distinct(s.cfg.recommendedFiat)
    requires forall f :: f in s.cfg.recommendedFiat ==> f in s.cfg.availableFiat
    ensures Run(s, ops, linux).Some?
    ensures Distinct(Run(s, ops, linux).value.cfg.recommendedFiat)
    ensures forall f :: f in Run(s, ops, linux).value.cfg.recommendedFiat ==> f in s.cfg.availableFiat
    decreases |ops|
  {
    hide Apply;
    if ops != [] {
      StepFacts(s, ops[0], linux);
      StepPromotes(s, ops[0], linux);
      RecommendedValid(Apply(s, ops[0], linux).store, ops[1..], linux);
    }
  }

  /**
   * An entry at position `p` moves back one place per promotion: it is still listed after fewer
   * than `|list| - p` promotions, and gone after exactly that many. Being chosen again does not refresh it.
   */
  lemma {:induction false} SurvivesExactly(s: Store, ops: seq<Op>, linux: bool, p: nat)
    requires Usable(s.cfg) && Distinct(s.cfg.recommendedFiat) && p < |s.cfg.recommendedFiat|
    ensures Run(s, ops, linux).Some?
    ensures |Run(s, ops, linux).value.cfg.recommendedFiat| == |s.cfg.recommendedFiat|
    ensures p + |Promotions(s, ops, linux)| < |s.cfg.recommendedFiat| ==>
              Run(s, ops, linux).value.cfg.recommendedFiat[p + |Promotions(s, ops, linux)|] == s.cfg.recommendedFiat[p]
    ensures p + |Promotions(s, ops, linux)| == |s.cfg.recommendedFiat| ==>
              s.cfg.recommendedFiat[p] !in Run(s, ops, linux).value.cfg.recommendedFiat
    decreases |ops|
  {
    hide Apply;
    var rec := s.cfg.recommendedFiat;
    if ops != [] {
      StepFacts(s, ops[0], linux);
      StepPromotes(s, ops[0], linux);
      var next, rest := Apply(s, ops[0], linux).store, ops[1..];
      var promotion := Promotion(s.cfg, ops[0], linux);
      hide Promotion;
      hide Usable;
      if promotion == [] {
        assert ([] + rec)[..|rec|] == rec;
        SurvivesExactly(next, rest, linux, p);
      } else {
        PushedBack(rec, promotion[0], p);
        if p + 1 < |rec| {
          SurvivesExactly(next, rest, linux, p + 1);
        } else {
          RecommendedLaw(next, rest, linux);
          if Promotions(next, rest, linux) == [] {
            assert ([] + next.cfg.recommendedFiat)[..|rec|] == next.cfg.recommendedFiat;
          }
        }
      }
    }
  }

  lemma PushedBack(rec: seq<string>, fiat: string, p: nat)
    requires Distinct(rec) && p < |rec| && fiat !in rec
    ensures Distinct(([fiat] + rec)[..|rec|])
    ensures p + 1 < |rec| ==> ([fiat] + rec)[..|rec|][p + 1] == rec[p]
    ensures p + 1 == |rec| ==> rec[p] !in ([fiat] + rec)[..|rec|]
  {
  }

  // ---- what a run leaves in the settings ----

  /** The settings that a call replaces outright. */
  datatype Choices = Choices(currency: string, notification: bool, postorder: bool, spamfilter: bool, rpcpass: bool)

  ghost function ChoicesOf(cfg: Cfg): Choices {
    Choices(cfg.currentCurrency, cfg.notificationEnabled, cfg.postorderEnabled, cfg.spamfilterEnabled,
            cfg.staticRpcpassEnabled)
  }

  ghost function Chosen(c: Choices, op: Op): Choices {
    match op
    case ChangeCurrency(currency) => c.(currency := currency)
    case ChangeFiat(_) => c
    case ChangeNotification(on) => c.(notification := on)
    case ChangePostorder(on) => c.(postorder := on)
    case ChangeSpamfilter(on) => c.(spamfilter := on)
    case ChangeStaticRpcpass(on) => c.(rpcpass := on)
  }

  ghost function ChosenAll(c: Choices, ops: seq<Op>): Choices
    decreases |ops|
  {
    if ops == [] then c else ChosenAll(Chosen(c, ops[0]), ops[1..])
  }

  lemma ChosenStep(s: Store, op: Op, linux: bool)
    requires !Apply(s, op, linux).Undefined?
    ensures ChoicesOf(Apply(s, op, linux).store.cfg) == Chosen(ChoicesOf(s.cfg), op)
  {
    hide Upgraded;
    hide Promoted;
    match op {
      case ChangeCurrency(_) =>
      case ChangeFiat(_) =>
      case ChangeNotification(_) =>
      case ChangePostorder(_) =>
      case ChangeSpamfilter(_) =>
      case ChangeStaticRpcpass(_) =>
    }
  }

  /** After a run every flag and the currency are as last asked for, whichever calls wrote, skipped or threw. */
  lemma {:induction false} LastChoiceWins(s: Store, ops: seq<Op>, linux: bool)
    requires Run(s, ops, linux).Some?
    ensures ChoicesOf(Run(s, ops, linux).value.cfg) == ChosenAll(ChoicesOf(s.cfg), ops)
    decreases |ops|
  {
    hide Apply;
    if ops != [] {
      ChosenStep(s, ops[0], linux);
      LastChoiceWins(Apply(s, ops[0], linux).store, ops[1..], linux);
    }
  }

  /** The sign shown for the currency is the currency's own. */
  ghost predicate CurrencySigned(cfg: Cfg, linux: bool) {
    KnownSign(cfg, cfg.currentCurrency, linux) &&
    cfg.currentCurrencySign == cfg.availableCurrencySigns[SignKey(cfg.currentCurrency, linux)]
  }

  /** A call keeps currency and sign together exactly when it does not choose a currency without a known sign. */
  lemma CurrencySignedStep(s: Store, op: Op, linux: bool)
    requires CurrencySigned(s.cfg, linux) && !Apply(s, op, linux).Undefined?
    ensures CurrencySigned(Apply(s, op, linux).store.cfg, linux) <==>
            !(op.ChangeCurrency? && !KnownSign(s.cfg, op.currency, linux))
  {
    hide Upgraded;
    hide Promoted;
    match op {
      case ChangeCurrency(_) =>
      case ChangeFiat(_) =>
      case ChangeNotification(_) =>
      case ChangePostorder(_) =>
      case ChangeSpamfilter(_) =>
      case ChangeStaticRpcpass(_) =>
    }
  }

  /** The sign shown for the fiat is the fiat's own. */
  ghost predicate FiatSigned(cfg: Cfg, linux: bool) {
    KnownSign(cfg, cfg.currentFiat, linux) &&
    cfg.currentFiatSign == cfg.availableCurrencySigns[SignKey(cfg.currentFiat, linux)]
  }

  /** Changing the fiat alone leaves the old sign: it stays right exactly when the new fiat has the same sign. */
  lemma FiatSignedStep(s: Store, op: Op, linux: bool)
    requires FiatSigned(s.cfg, linux) && !Apply(s, op, linux).Undefined?
    ensures FiatSigned(Apply(s, op, linux).store.cfg, linux) <==>
            !op.ChangeFiat? ||
            (KnownSign(s.cfg, op.fiat, linux) &&
             s.cfg.availableCurrencySigns[SignKey(op.fiat, linux)] == s.cfg.currentFiatSign)
  {
    hide Upgraded;
    hide Promoted;
    match op {
      case ChangeCurrency(_) =>
      case ChangeFiat(_) =>
      case ChangeNotification(_) =>
      case ChangePostorder(_) =>
      case ChangeSpamfilter(_) =>
      case ChangeStaticRpcpass(_) =>
    }
  }

  /** It really can: after choosing another fiat, the sign shown is still the old one. */
  lemma StaleFiatSign() returns (s: Store, op: Op)
    ensures FiatSigned(s.cfg, true) && Apply(s, op, true).Done? && !FiatSigned(Apply(s, op, true).store.cfg, true)
  {
    hide Upgraded;
    var signs := map["USD" := "$", "EUR" := "E"];
    var cfg := Cfg("USD", "USD", "$", "$", signs, ["USD", "EUR"], ["USD"], ["USD", "BTC"], true, true, true, false);
    s, op := Store(cfg, map[]), ChangeFiat("EUR");
    assert "USD"[0] != "BTC"[0] && "EUR"[0] != "BTC"[0] && "EUR"[0] != "USD"[0];
    assert signs["USD"] == "$" && signs["EUR"] == "E" && "$"[0] != "E"[0];
    FiatSignedStep(s, op, true);
  }

  // ---- what the whole run leaves, told from the calls ----

  /** What to look for in a run: a currency, one with a sign, one that is a fiat as well, or any fiat. */
  datatype Sought = AnyCurrency | SignedCurrency | FiatCurrency | AnyFiat

  /** The choice that a call makes, if it is of the sort sought. */
  ghost function Choice(start: Cfg, sought: Sought, op: Op, linux: bool): Option<string> {
    match op
    case ChangeFiat(fiat) => if sought.AnyFiat? then Some(fiat) else None
    case ChangeCurrency(currency) =>
      var known := KnownSign(start, currency, linux);
      var fiat := known && currency in start.availableFiat;
      if sought.AnyCurrency? || (if sought.SignedCurrency? then known else fiat) then Some(currency) else None
    case _ => None
  }

  /** The last choice of the sort sought that a run makes. */
  ghost function LastChoice(start: Cfg, sought: Sought, ops: seq<Op>, linux: bool): Option<string> {
    if ops == [] then None
    else
      var later := LastChoice(start, sought, ops[1..], linux);
      if later.Some? then later else Choice(start, sought, ops[0], linux)
  }

  ghost function SignOf(start: Cfg, currency: string, linux: bool): string
    requires KnownSign(start, currency, linux)
  {
    start.availableCurrencySigns[SignKey(currency, linux)]
  }

  lemma {:induction false} LastChoiceKnown(start: Cfg, sought: Sought, ops: seq<Op>, linux: bool)
    ensures var last := LastChoice(start, sought, ops, linux);
            last.Some? && (sought.SignedCurrency? || sought.FiatCurrency?) ==> KnownSign(start, last.value, linux)
  {
    hide KnownSign;
    if ops != [] { LastChoiceKnown(start, sought, ops[1..], linux); }
  }

  /** The currency, the fiat and the signs shown after a run: each as its last choice of the right sort left it. */
  ghost predicate ShowsLast(start: Cfg, before: Cfg, ops: seq<Op>, after: Cfg, linux: bool) {
    var currency := LastChoice(start, AnyCurrency, ops, linux);
    var signed := LastChoice(start, SignedCurrency, ops, linux);
    var selected := LastChoice(start, FiatCurrency, ops, linux);
    var fiat := LastChoice(start, AnyFiat, ops, linux);
    LastChoiceKnown(start, SignedCurrency, ops, linux);
    LastChoiceKnown(start, FiatCurrency, ops, linux);
    && after.currentCurrency == (if currency.Some? then currency.value else before.currentCurrency)
    && after.currentFiat == (if fiat.Some? then fiat.value else before.currentFiat)
    && after.currentCurrencySign ==
       (if signed.Some? then SignOf(start, signed.value, linux) else before.currentCurrencySign)
    && after.currentFiatSign ==
       (if selected.Some? then SignOf(start, selected.value, linux) else before.currentFiatSign)
  }

  lemma OnlyChoice(start: Cfg, sought: Sought, op: Op, linux: bool)
    ensures LastChoice(start, sought, [op], linux) == Choice(start, sought, op, linux)
  {
    assert [op][1..] == [];
  }

  lemma ShowsLastStep(start: Cfg, s: Store, op: Op, linux: bool)
    requires s.cfg.availableFiat == start.availableFiat
    requires s.cfg.availableCurrencySigns == start.availableCurrencySigns
    requires !Apply(s, op, linux).Undefined?
    ensures ShowsLast(start, s.cfg, [op], Apply(s, op, linux).store.cfg, linux)
  {
    hide Upgraded;
    hide Promoted;
    hide LastChoice;
    hide SignKey;
    OnlyChoice(start, AnyCurrency, op, linux);
    OnlyChoice(start, SignedCurrency, op, linux);
    OnlyChoice(start, FiatCurrency, op, linux);
    OnlyChoice(start, AnyFiat, op, linux);
    match op {
      case ChangeCurrency(_) =>
      case ChangeFiat(_) =>
      case ChangeNotification(_) =>
      case ChangePostorder(_) =>
      case ChangeSpamfilter(_) =>
      case ChangeStaticRpcpass(_) =>
    }
  }

  /** No call changes the table of signs or the available fiats. */
  lemma TablesStep(s: Store, op: Op, linux: bool)
    requires !Apply(s, op, linux).Undefined?
    ensures Apply(s, op, linux).store.cfg.availableFiat == s.cfg.availableFiat
    ensures Apply(s, op, linux).store.cfg.availableCurrencySigns == s.cfg.availableCurrencySigns
  {
    hide Upgraded;
    hide Promoted;
    match op {
      case ChangeCurrency(_) =>
      case ChangeFiat(_) =>
      case ChangeNotification(_) =>
      case ChangePostorder(_) =>
      case ChangeSpamfilter(_) =>
      case ChangeStaticRpcpass(_) =>
    }
  }

  lemma ShowsLastCons(start: Cfg, a: Cfg, op: Op, b: Cfg, ops: seq<Op>, c: Cfg, linux: bool)
    requires ShowsLast(start, a, [op], b, linux) && ShowsLast(start, b, ops, c, linux)
    ensures ShowsLast(start, a, [op] + ops, c, linux)
  {
    hide Choice;
    forall sought: Sought
      ensures var later := LastChoice(start, sought, ops, linux);
              LastChoice(start, sought, [op] + ops, linux) ==
              (if later.Some? then later else LastChoice(start, sought, [op], linux))
    {
      assert [op][1..] == [] && ([op] + ops)[1..] == ops;
    }
  }

  lemma {:induction false} RunShowsLast(start: Cfg, s: Store, ops: seq<Op>, linux: bool)
    requires s.cfg.availableFiat == start.availableFiat
    requires s.cfg.availableCurrencySigns == start.availableCurrencySigns
    requires Run(s, ops, linux).Some?
    ensures ShowsLast(start, s.cfg, ops, Run(s, ops, linux).value.cfg, linux)
    decreases |ops|
  {
    hide Apply;
    if ops != [] {
      var next := Apply(s, ops[0], linux).store;
      TablesStep(s, ops[0], linux);
      ShowsLastStep(start, s, ops[0], linux);
      RunShowsLast(start, next, ops[1..], linux);
      ShowsLastCons(start, s.cfg, ops[0], next.cfg, ops[1..], Run(s, ops, linux).value.cfg, linux);
      assert [ops[0]] + ops[1..] == ops;
    }
  }

  /** After a run the currency shows its own sign exactly when the last currency chosen, if any, has a known one. */
  lemma CurrencySignedAfter(s: Store, ops: seq<Op>, linux: bool)
    requires Run(s, ops, linux).Some?
    ensures var last := LastChoice(s.cfg, AnyCurrency, ops, linux);
            CurrencySigned(Run(s, ops, linux).value.cfg, linux) <==>
            if last.Some? then KnownSign(s.cfg, last.value, linux) else CurrencySigned(s.cfg, linux)
  {
    RunShowsLast(s.cfg, s, ops, linux);
    SameTables(s, ops, linux);
    LastSigned(s.cfg, ops, linux);
  }

  lemma {:induction false} SameTables(s: Store, ops: seq<Op>, linux: bool)
    requires Run(s, ops, linux).Some?
    ensures Run(s, ops, linux).value.cfg.availableFiat == s.cfg.availableFiat
    ensures Run(s, ops, linux).value.cfg.availableCurrencySigns == s.cfg.availableCurrencySigns
    decreases |ops|
  {
    hide Apply;
    if ops != [] {
      TablesStep(s, ops[0], linux);
      SameTables(Apply(s, ops[0], linux).store, ops[1..], linux);
    }
  }

  /** When the last currency chosen has a sign, it is the last such. */
  lemma {:induction false} LastSigned(start: Cfg, ops: seq<Op>, linux: bool)
    ensures var last := LastChoice(start, AnyCurrency, ops, linux);
            var signed := LastChoice(start, SignedCurrency, ops, linux);
            && (last.None? ==> signed.None?)
            && (last.Some? && KnownSign(start, last.value, linux) ==> signed == last)
  {
    if ops != [] { LastSigned(start, ops[1..], linux); }
  }

  /**
   * After a run the fiat shows its own sign exactly when it has one and that is the sign of the last fiat
   * chosen as currency, or the sign shown initially when there was none.
   */
  lemma FiatSignedAfter(s: Store, ops: seq<Op>, linux: bool)
    requires Run(s, ops, linux).Some?
    ensures var fiat := LastChoice(s.cfg, AnyFiat, ops, linux);
            var selected := LastChoice(s.cfg, FiatCurrency, ops, linux);
            var now := if fiat.Some? then fiat.value else s.cfg.currentFiat;
            && (selected.Some? ==> KnownSign(s.cfg, selected.value, linux))
            && (FiatSigned(Run(s, ops, linux).value.cfg, linux) <==>
                && KnownSign(s.cfg, now, linux)
                && SignOf(s.cfg, now, linux) ==
                   (if selected.Some? then SignOf(s.cfg, selected.value, linux) else s.cfg.currentFiatSign))
  {
    RunShowsLast(s.cfg, s, ops, linux);
    SameTables(s, ops, linux);
    LastChoiceKnown(s.cfg, FiatCurrency, ops, linux);
  }

  /** The call goes on to write the file. */
  ghost predicate Writes(start: Cfg, c: Choices, op: Op, linux: bool) {
    match op
    case ChangeCurrency(currency) => KnownSign(start, currency, linux)
    case ChangeFiat(_) => true
    case ChangeNotification(on) => c.notification != on
    case ChangePostorder(on) => c.postorder != on
    case ChangeSpamfilter(on) => c.spamfilter != on
    case ChangeStaticRpcpass(on) => c.rpcpass != on
  }

  /** The currency as of the last call that wrote the file. */
  ghost function WrittenCurrency(start: Cfg, written: string, c: Choices, ops: seq<Op>, linux: bool): string
    decreases |ops|
  {
    if ops == [] then written
    else
      var next := Chosen(c, ops[0]);
      WrittenCurrency(start, if Writes(start, c, ops[0], linux) then next.currency else written, next, ops[1..], linux)
  }

  /** A call that writes repairs any disagreement, and no other touches the file. */
  lemma WritesStep(start: Cfg, s: Store, op: Op, linux: bool)
    requires AgreesButCurrency(s) && !Apply(s, op, linux).Undefined?
    requires s.cfg.availableCurrencySigns == start.availableCurrencySigns
    ensures if Writes(start, ChoicesOf(s.cfg), op, linux) then Agrees(Apply(s, op, linux).store)
            else Apply(s, op, linux).store.file == s.file
  {
    hide Upgraded;
    hide Decode;
    hide Promoted;
    if Decide(s.cfg, op, linux).Save? { SavedAgrees(s, Decide(s.cfg, op, linux).cfg); }
  }

  lemma {:induction false} WrittenRun(start: Cfg, s: Store, ops: seq<Op>, linux: bool)
    requires AgreesButCurrency(s) && Run(s, ops, linux).Some?
    requires s.cfg.availableFiat == start.availableFiat
    requires s.cfg.availableCurrencySigns == start.availableCurrencySigns
    ensures var t := Run(s, ops, linux).value;
            var before := Decode(s.file).value.currentCurrency;
            && AgreesButCurrency(t)
            && Decode(t.file).value.currentCurrency == WrittenCurrency(start, before, ChoicesOf(s.cfg), ops, linux)
    decreases |ops|
  {
    hide Apply;
    hide Decode;
    if ops != [] {
      ApplyAgreesButCurrency(s, ops[0], linux);
      TablesStep(s, ops[0], linux);
      ChosenStep(s, ops[0], linux);
      WritesStep(start, s, ops[0], linux);
      WrittenRun(start, Apply(s, ops[0], linux).store, ops[1..], linux);
    }
  }

  /**
   * Memory and file agree after a run exactly when the currency last chosen is the one last written,
   * both told from the calls alone: any later write repairs a disagreement.
   */
  lemma AgreesAfterRun(s: Store, ops: seq<Op>, linux: bool)
    requires Agrees(s) && Run(s, ops, linux).Some?
    ensures Agrees(Run(s, ops, linux).value) <==>
            ChosenAll(ChoicesOf(s.cfg), ops).currency
            == WrittenCurrency(s.cfg, s.cfg.currentCurrency, ChoicesOf(s.cfg), ops, linux)
  {
    hide Decode;
    WrittenRun(s.cfg, s, ops, linux);
    LastChoiceWins(s, ops, linux);
  }

  /** The current fiat heads the possible currencies, whose other entries never change. */
  lemma {:induction false} FiatHeadsCurrencies(s: Store, ops: seq<Op>, linux: bool)
    requires Usable(s.cfg) && s.cfg.possibleCurrencies[0] == s.cfg.currentFiat
    ensures Run(s, ops, linux).Some?
    ensures var t := Run(s, ops, linux).value.cfg;
            && |t.possibleCurrencies| == |s.cfg.possibleCurrencies|
            && t.possibleCurrencies[0] == t.currentFiat
            && t.possibleCurrencies[1..] == s.cfg.possibleCurrencies[1..]
    decreases |ops|
  {
    hide Apply;
    if ops != [] {
      StepFacts(s, ops[0], linux);
      FiatHeadsStep(s, ops[0], linux);
      FiatHeadsCurrencies(Apply(s, ops[0], linux).store, ops[1..], linux);
    }
  }

  lemma FiatHeadsStep(s: Store, op: Op, linux: bool)
    requires Usable(s.cfg) && s.cfg.possibleCurrencies[0] == s.cfg.currentFiat
    requires !Apply(s, op, linux).Undefined?
    ensures var t := Apply(s, op, linux).store.cfg;
            && t.possibleCurrencies != [] && t.possibleCurrencies[0] == t.currentFiat
            && t.possibleCurrencies[1..] == s.cfg.possibleCurrencies[1..]
  {
    hide Upgraded;
    hide Promoted;
    match op {
      case ChangeCurrency(_) =>
      case ChangeFiat(_) =>
      case ChangeNotification(_) =>
      case ChangePostorder(_) =>
      case ChangeSpamfilter(_) =>
      case ChangeStaticRpcpass(_) =>
    }
  }
}
