/** Where the fee tickers come from, and when they form a single level. */
module FeeTickers {
  import opened CoinSelection

  datatype CoinType =
    | QRC20 | ERC20 | BEP20 | UTXO | SmartChain | SLP | PLG20 | Optimism | Arbitrum | AVX20 | FTM20 | HRC20 | Ubiq
    | KRC20 | Moonriver | Moonbeam | HecoChain | SmartBCH | EthereumClassic | RSK | ZHTLC | TENDERMINT
    | TENDERMINTTOKEN | EWT | Disabled | Invalid | All | Size

  datatype CoinConfig = CoinConfig(
    ticker: string,
    parentCoin: string,
    coinType: CoinType,
    isTestnet: bool,
    currentlyEnabled: bool,
    active: bool)

  predicate HasParentFees(c: CoinConfig) {
    match c.coinType
    case UTXO | SmartChain | ZHTLC | Disabled | Invalid | All | Size => false
    case _ => true
  }

  predicate Tendermint(c: CoinConfig) {
    c.coinType == TENDERMINT || c.coinType == TENDERMINTTOKEN
  }

  /** The coin in which fees are paid, derived from the type of the coin. */
  function FeesTicker(c: CoinConfig): string {
    match c.coinType
    case QRC20 => if c.isTestnet then "tQTUM" else "QTUM"
    case ERC20 => if c.isTestnet then "ETHR" else "ETH"
    case BEP20 => if c.isTestnet then "BNBT" else "BNB"
    case PLG20 => if c.isTestnet then "MATICTEST" else "MATIC"
    case Optimism => "ETH-OPT20"
    case Arbitrum => "ETH-ARB20"
    case EWT => "EWT"
    case AVX20 => if c.isTestnet then "AVAXT" else "AVAX"
    case FTM20 => if c.isTestnet then "FTMT" else "FTM"
    case HRC20 => if c.isTestnet then "ONET" else "ONE"
    case Ubiq => if c.isTestnet then "UBQT" else "UBQ"
    case KRC20 => if c.isTestnet then "KCST" else "KCS"
    case Moonriver => if c.isTestnet then "MOVRT" else "MOVR"
    case Moonbeam => if c.isTestnet then "GLMRT" else "GLMR"
    case HecoChain => if c.isTestnet then "HTT" else "HT"
    case SmartBCH => if c.isTestnet then "SBCHT" else "SBCH"
    case EthereumClassic => if c.isTestnet then "ETCT" else "ETC"
    case RSK => if c.isTestnet then "RBTCT" else "RBTC"
    case SLP => if c.isTestnet then "tBCH" else "BCH"
    case TENDERMINT | TENDERMINTTOKEN => c.parentCoin
    case _ => c.ticker
  }

  function InfoOf(c: CoinConfig): CoinInfo {
    CoinInfo(c.ticker, HasParentFees(c), FeesTicker(c), c.currentlyEnabled, c.active)
  }

  type Registry = map<string, CoinConfig>

  function TableOf(registry: Registry): CoinTable {
    map t | t in registry :: InfoOf(registry[t])
  }

  /** Entries are stored under their own ticker. */
  ghost predicate OwnNames(registry: Registry) {
    forall t :: t in registry ==> registry[t].ticker == t
  }

  /** The fee coin is listed as a coin of the same network, or as one that cannot have a fee coin of its own. */
  ghost predicate HomeOf(parent: CoinConfig, child: CoinConfig) {
    || !HasParentFees(parent)
    || (Tendermint(parent) && parent.parentCoin == parent.ticker)
    || (!Tendermint(parent) && parent.coinType == child.coinType && parent.isTestnet == child.isTestnet)
  }

  /** When fee coins are listed on their own networks, fee tickers are their own fee tickers. */
  lemma HomesMakeOneLevel(registry: Registry)
    requires OwnNames(registry)
    requires forall t :: t in registry && HasParentFees(registry[t]) && FeesTicker(registry[t]) in registry ==>
               HomeOf(registry[FeesTicker(registry[t])], registry[t])
    ensures OwnTickers(TableOf(registry)) && OneLevel(TableOf(registry))
  {
    forall t | t in registry && HasParentFees(registry[t]) && FeesTicker(registry[t]) in registry
      ensures !PaysElsewhere(InfoOf(registry[FeesTicker(registry[t])]))
    {
      var parent := registry[FeesTicker(registry[t])];
      if HasParentFees(parent) && !Tendermint(parent) {
        assert FeesTicker(parent) == FeesTicker(registry[t]);
      }
    }
  }

  /** Then one pass over an accepted request covers the fees of everything that is sent. */
  lemma RequestsClose(registry: Registry, coins: seq<string>, sent: seq<string>, coin: string)
    requires OwnNames(registry)
    requires forall t :: t in registry && HasParentFees(registry[t]) && FeesTicker(registry[t]) in registry ==>
               HomeOf(registry[FeesTicker(registry[t])], registry[t])
    requires Answer(TableOf(registry), coins, sent) && coin in sent
    ensures FeesCovered(TableOf(registry), sent, coin)
  {
    HomesMakeOneLevel(registry);
    SinglePassCloses(TableOf(registry), coins, sent, coin);
  }
}
