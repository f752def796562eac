/** The application's settings and the JSON file they are written through to. */
module AppConfig {
  import opened Wrappers
  import opened JsonValues

  datatype Cfg = Cfg(
    currentCurrency: string,
    currentFiat: string,
    currentCurrencySign: string,
    currentFiatSign: string,
    availableCurrencySigns: map<string, string>,
    availableFiat: seq<string>,
    recommendedFiat: seq<string>,
    possibleCurrencies: seq<string>,
    notificationEnabled: bool,
    postorderEnabled: bool,
    spamfilterEnabled: bool,
    staticRpcpassEnabled: bool)

  /** Reads a configuration; missing flags have defaults, anything else missing or ill-typed throws. */
  function Decode(file: Object): Option<Cfg> {
    var currency := GetString(Lookup(file, "current_currency"));
    var fiat := GetString(Lookup(file, "current_fiat"));
    var availableFiat := GetStrings(Lookup(file, "available_fiat"));
    var recommended := GetStrings(Lookup(file, "recommended_fiat"));
    var possible := GetStrings(Lookup(file, "possible_currencies"));
    var currencySign := GetString(Lookup(file, "current_currency_sign"));
    var signs := GetStringMap(Lookup(file, "available_signs"));
    var fiatSign := GetString(Lookup(file, "current_fiat_sign"));
    var notification := GetBool(Lookup(file, "notification_enabled"));
    var spamfilter := GetBoolOr(Lookup(file, "spamfilter_enabled"), true);
    var postorder := GetBoolOr(Lookup(file, "postorder_enabled"), true);
    var rpcpass := GetBoolOr(Lookup(file, "static_rpcpass_enabled"), false);
    if currency.Some? && fiat.Some? && availableFiat.Some? && recommended.Some? && possible.Some? &&
       currencySign.Some? && signs.Some? && fiatSign.Some? && notification.Some? && spamfilter.Some? &&
       postorder.Some? && rpcpass.Some?
    then
      Some(Cfg(currency.value, fiat.value, currencySign.value, fiatSign.value, signs.value, availableFiat.value,
               recommended.value, possible.value, notification.value, postorder.value, spamfilter.value, rpcpass.value))
    else None
  }

  /** The file after all settings but the available fiats have been written into it. */
  function Upgraded(file: Object, c: Cfg): Object {
    file["current_currency" := Str(c.currentCurrency)]
        ["current_fiat" := Str(c.currentFiat)]
        ["recommended_fiat" := OfStrings(c.recommendedFiat)]
        ["possible_currencies" := OfStrings(c.possibleCurrencies)]
        ["current_currency_sign" := Str(c.currentCurrencySign)]
        ["current_fiat_sign" := Str(c.currentFiatSign)]
        ["available_signs" := OfStringMap(c.availableCurrencySigns)]
        ["notification_enabled" := Bool(c.notificationEnabled)]
        ["spamfilter_enabled" := Bool(c.spamfilterEnabled)]
        ["postorder_enabled" := Bool(c.postorderEnabled)]
        ["static_rpcpass_enabled" := Bool(c.staticRpcpassEnabled)]
  }

  /** The in-memory settings beside the contents of the file. */
  datatype Store = Store(cfg: Cfg, file: Object)

  datatype Op =
    | ChangeCurrency(currency: string)
    | ChangeFiat(fiat: string)
    | ChangeNotification(on: bool)
    | ChangePostorder(on: bool)
    | ChangeSpamfilter(on: bool)
    | ChangeStaticRpcpass(on: bool)

  /** `Undefined` stands for reading or popping an element of an empty vector. */
  datatype Effect = Done(store: Store) | Threw(store: Store) | Undefined

  function SignKey(currency: string, linux: bool): string {
    if linux && currency == "BTC" then "BTC_ALT" else currency
  }

  predicate KnownSign(cfg: Cfg, currency: string, linux: bool) {
    SignKey(currency, linux) in cfg.availableCurrencySigns
  }

  /** A fiat that is not yet recommended takes the front and pushes out the last one. */
  function Promoted(recommended: seq<string>, fiat: string): (r: seq<string>)
    requires recommended != []
    ensures |r| == |recommended|
  {
    if fiat in recommended then recommended else [fiat] + recommended[..|recommended| - 1]
  }

  /** What a call does to the settings in memory, and whether it goes on to write them. */
  datatype Decision = Keep | Save(cfg: Cfg) | Throw(cfg: Cfg) | Crash

  function DecideCurrency(cfg: Cfg, currency: string, linux: bool): Decision {
    var chosen := cfg.(currentCurrency := currency);
    if !KnownSign(cfg, currency, linux) then Throw(chosen)
    else
      var sign := cfg.availableCurrencySigns[SignKey(currency, linux)];
      var signed := chosen.(currentCurrencySign := sign);
      if currency !in cfg.availableFiat then Save(signed)
      else if cfg.possibleCurrencies == [] || cfg.recommendedFiat == [] then Crash
      else Save(signed.(currentFiat := currency,
                        currentFiatSign := sign,
                        possibleCurrencies := cfg.possibleCurrencies[0 := currency],
                        recommendedFiat := Promoted(cfg.recommendedFiat, currency)))
  }

  function Decide(cfg: Cfg, op: Op, linux: bool): Decision {
    match op
    case ChangeCurrency(currency) => DecideCurrency(cfg, currency, linux)
    case ChangeFiat(fiat) =>
      if cfg.possibleCurrencies == [] then Crash
      else Save(cfg.(currentFiat := fiat, possibleCurrencies := cfg.possibleCurrencies[0 := fiat]))
    case ChangeNotification(on) =>
      if cfg.notificationEnabled == on then Keep else Save(cfg.(notificationEnabled := on))
    case ChangePostorder(on) =>
      if cfg.postorderEnabled == on then Keep else Save(cfg.(postorderEnabled := on))
    case ChangeSpamfilter(on) =>
      if cfg.spamfilterEnabled == on then Keep else Save(cfg.(spamfilterEnabled := on))
    case ChangeStaticRpcpass(on) =>
      if cfg.staticRpcpassEnabled == on then Keep else Save(cfg.(staticRpcpassEnabled := on))
  }

  function Apply(s: Store, op: Op, linux: bool): Effect {
    match Decide(s.cfg, op, linux)
    case Keep => Done(s)
    case Save(cfg) => Done(Store(cfg, Upgraded(s.file, cfg)))
    case Throw(cfg) => Threw(Store(cfg, s.file))
    case Crash => Undefined
  }

  /**
   * The signs table is asked for "BTC_ALT" when bitcoin is chosen on Linux, whatever it holds under "BTC", and
   * for the currency itself otherwise; the call throws exactly when that key is missing.
   */
  lemma SignShown(s: Store, currency: string, linux: bool)
    ensures var signs := s.cfg.availableCurrencySigns;
            var r := Apply(s, ChangeCurrency(currency), linux);
            && (linux && currency == "BTC" ==>
                  && (r.Threw? <==> "BTC_ALT" !in signs)
                  && (r.Done? ==> r.store.cfg.currentCurrencySign == signs["BTC_ALT"]))
            && (!linux || currency != "BTC" ==>
                  && (r.Threw? <==> currency !in signs)
                  && (r.Done? ==> r.store.cfg.currentCurrencySign == signs[currency]))
  {
    hide Upgraded;
    hide Promoted;
  }

  /** An empty vector is indexed or popped only by changing the fiat or by choosing a fiat with a sign as currency. */
  lemma UndefinedExactly(s: Store, op: Op, linux: bool)
    ensures Apply(s, op, linux).Undefined? <==>
            || (op.ChangeFiat? && s.cfg.possibleCurrencies == [])
            || (&& op.ChangeCurrency? && !Apply(s, op, linux).Threw? && op.currency in s.cfg.availableFiat
                && (s.cfg.possibleCurrencies == [] || s.cfg.recommendedFiat == []))
  {
    hide Upgraded;
    hide Promoted;
    hide SignKey;
  }

  /** A run goes on after an exception, from whatever state the exception left. */
  function Run(s: Store, ops: seq<Op>, linux: bool): Option<Store>
    decreases |ops|
  {
    if ops == [] then Some(s)
    else match Apply(s, ops[0], linux)
      case Done(next) => Run(next, ops[1..], linux)
      case Threw(next) => Run(next, ops[1..], linux)
      case Undefined => None
  }

  /** The shipped file is copied in place when there is none yet; then the settings are read. */
  function Load(disk: Option<Object>, shipped: Object): Option<Store> {
    var file := if disk.Some? then disk.value else shipped;
    match Decode(file)
    case None => None
    case Some(cfg) => Some(Store(cfg, file))
  }

  /**
   * An object whose fields the operations update in place; `disk` is the file's contents.
   */
  class Settings {
    var currentCurrency: string
    var currentFiat: string
    var currentCurrencySign: string
    var currentFiatSign: string
    var availableCurrencySigns: map<string, string>
    var availableFiat: seq<string>
    var recommendedFiat: seq<string>
    var possibleCurrencies: seq<string>
    var notificationEnabled: bool
    var postorderEnabled: bool
    var spamfilterEnabled: bool
    var staticRpcpassEnabled: bool
    var disk: Object

    ghost function Record(): Cfg
      reads this
    {
      Cfg(currentCurrency, currentFiat, currentCurrencySign, currentFiatSign, availableCurrencySigns, availableFiat,
          recommendedFiat, possibleCurrencies, notificationEnabled, postorderEnabled, spamfilterEnabled,
          staticRpcpassEnabled)
    }

    ghost function State(): Store
      reads this
    {
      Store(Record(), disk)
    }

    /** Starts from a file that decodes. */
    constructor (file: Object)
      requires Decode(file).Some?
      ensures Load(Some(file), map[]) == Some(State()) && disk == file
    {
      var c := Decode(file).value;
      currentCurrency, currentFiat := c.currentCurrency, c.currentFiat;
      currentCurrencySign, currentFiatSign := c.currentCurrencySign, c.currentFiatSign;
      availableCurrencySigns, availableFiat := c.availableCurrencySigns, c.availableFiat;
      recommendedFiat, possibleCurrencies := c.recommendedFiat, c.possibleCurrencies;
      notificationEnabled, postorderEnabled := c.notificationEnabled, c.postorderEnabled;
      spamfilterEnabled, staticRpcpassEnabled := c.spamfilterEnabled, c.staticRpcpassEnabled;
      disk := file;
    }

    /**
     * Reads the file, putting the shipped one in place when there is none; null stands for an exception,
     * which leaves the copied file behind.
     */
    static method LoadCfg(file: Option<Object>, shipped: Object) returns (s: Settings?, left: Object)
      ensures left == if file.Some? then file.value else shipped
      ensures s == null <==> Load(file, shipped).None?
      ensures s != null ==> fresh(s) && Load(file, shipped) == Some(s.State()) && s.disk == left
      ensures Load(Some(left), shipped) == Load(file, shipped)
    {
      left := if file.Some? then file.value else shipped;
      if Decode(left).None? {
        return null, left;
      }
      s := new Settings(left);
    }

    method UpgradeCfg()
      modifies this`disk
      ensures State() == Store(old(Record()), Upgraded(old(disk), old(Record())))
    {
      disk := disk["current_currency" := Str(currentCurrency)];
      disk := disk["current_fiat" := Str(currentFiat)];
      disk := disk["recommended_fiat" := OfStrings(recommendedFiat)];
      disk := disk["possible_currencies" := OfStrings(possibleCurrencies)];
      disk := disk["current_currency_sign" := Str(currentCurrencySign)];
      disk := disk["current_fiat_sign" := Str(currentFiatSign)];
      disk := disk["available_signs" := OfStringMap(availableCurrencySigns)];
      disk := disk["notification_enabled" := Bool(notificationEnabled)];
      disk := disk["spamfilter_enabled" := Bool(spamfilterEnabled)];
      disk := disk["postorder_enabled" := Bool(postorderEnabled)];
      disk := disk["static_rpcpass_enabled" := Bool(staticRpcpassEnabled)];
    }

    method ChangeNotificationStatus(on: bool)
      modifies this
      ensures Apply(old(State()), ChangeNotification(on), true) == Done(State())
    {
      hide Upgraded;
      if notificationEnabled != on {
        notificationEnabled := on;
        UpgradeCfg();
      }
    }

    method ChangePostorderStatus(on: bool)
      modifies this
      ensures Apply(old(State()), ChangePostorder(on), true) == Done(State())
    {
      hide Upgraded;
      if postorderEnabled != on {
        postorderEnabled := on;
        UpgradeCfg();
      }
    }

    method ChangeSpamfilterStatus(on: bool)
      modifies this
      ensures Apply(old(State()), ChangeSpamfilter(on), true) == Done(State())
    {
      hide Upgraded;
      if spamfilterEnabled != on {
        spamfilterEnabled := on;
        UpgradeCfg();
      }
    }

    method ChangeStaticRpcpassStatus(on: bool)
      modifies this
      ensures Apply(old(State()), ChangeStaticRpcpass(on), true) == Done(State())
    {
      hide Upgraded;
      if staticRpcpassEnabled != on {
        staticRpcpassEnabled := on;
        UpgradeCfg();
      }
    }

    /** A fiat chosen as currency also becomes the current fiat and a recommended one. */
    method SelectFiat(fiat: string)
      requires possibleCurrencies != [] && recommendedFiat != []
      modifies this`currentFiat, this`currentFiatSign, this`possibleCurrencies, this`recommendedFiat
      ensures Record() == old(Record()).(currentFiat := fiat,
                                         currentFiatSign := currentCurrencySign,
                                         possibleCurrencies := old(possibleCurrencies)[0 := fiat],
                                         recommendedFiat := Promoted(old(recommendedFiat), fiat))
    {
      currentFiat := fiat;
      currentFiatSign := currentCurrencySign;
      possibleCurrencies := possibleCurrencies[0 := fiat];
      if fiat !in recommendedFiat {
        recommendedFiat := recommendedFiat[..|recommendedFiat| - 1];
        recommendedFiat := [fiat] + recommendedFiat;
      }
    }

    /** On Linux bitcoin has a sign of its own in the table. */
    method RetrieveSign(currency: string, linux: bool) returns (sign: Option<string>)
      ensures linux && currency == "BTC" ==>
                sign == if "BTC_ALT" in availableCurrencySigns then Some(availableCurrencySigns["BTC_ALT"]) else None
      ensures !linux || currency != "BTC" ==>
                sign == if currency in availableCurrencySigns then Some(availableCurrencySigns[currency]) else None
      ensures var key := SignKey(currency, linux);
              sign == if key in availableCurrencySigns then Some(availableCurrencySigns[key]) else None
    {
      if linux && currency == "BTC" {
        return if "BTC_ALT" in availableCurrencySigns then Some(availableCurrencySigns["BTC_ALT"]) else None;
      }
      sign := if currency in availableCurrencySigns then Some(availableCurrencySigns[currency]) else None;
    }

    /** The lookup of the sign throws when the currency has none, after the currency was assigned. */
    method ChangeCurrencyTo(currency: string, linux: bool) returns (r: Outcome<()>)
      requires !Decide(Record(), ChangeCurrency(currency), linux).Crash?
      modifies this
      ensures Apply(old(State()), ChangeCurrency(currency), linux) == if r.Pass? then Done(State()) else Threw(State())
      ensures linux && currency == "BTC" ==>
                && (r.Pass? <==> "BTC_ALT" in old(availableCurrencySigns))
                && (r.Pass? ==> currentCurrencySign == old(availableCurrencySigns)["BTC_ALT"])
      ensures !linux || currency != "BTC" ==>
                && (r.Pass? <==> currency in old(availableCurrencySigns))
                && (r.Pass? ==> currentCurrencySign == old(availableCurrencySigns)[currency])
    {
      hide SignKey;
      hide Upgraded;
      hide Promoted;
      currentCurrency := currency;
      var sign := RetrieveSign(currency, linux);
      if sign.None? {
        return Fail(());
      }
      currentCurrencySign := sign.value;
      if currency in availableFiat {
        SelectFiat(currency);
      }
      UpgradeCfg();
      r := Pass;
    }

    method ChangeFiatTo(fiat: string)
      requires possibleCurrencies != []
      modifies this
      ensures Apply(old(State()), ChangeFiat(fiat), true) == Done(State())
    {
      hide Upgraded;
      currentFiat := fiat;
      possibleCurrencies := possibleCurrencies[0 := fiat];
      UpgradeCfg();
    }
  }
}
