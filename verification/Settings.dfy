/** The constants the model needs of Settings (cryptomarket/project/settings/core.py). */
module Settings {

  const DERIBIT_QUEUE_SIZE: nat := 5000
  const DERIBIT_MAX_CONCURRENT: nat := 40

  /** CURRENCY_FOR_CHOOSING, cut into four so that each piece is cheap to inspect. */
  const CURRENCIES: seq<string> := TICKERS_1 + TICKERS_2 + TICKERS_3 + TICKERS_4

  const TICKERS_1: seq<string> := [
    "btc_usd", "eth_usd", "ada_usdc", "algo_usdc", "avax_usdc", "bch_usdc", "bnb_usdc", "btc_usdc",
    "btcdvol_usdc", "buidl_usdc"
  ]

  const TICKERS_2: seq<string> := [
    "doge_usdc", "dot_usdc", "eurr_usdc", "eth_usdc", "ethdvol_usdc", "link_usdc", "ltc_usdc", "near_usdc",
    "paxg_usdc", "shib_usdc", "sol_usdc", "steth_usdc"
  ]

  const TICKERS_3: seq<string> := [
    "ton_usdc", "trump_usdc", "trx_usdc", "uni_usdc", "usde_usdc", "usyc_usdc", "xrp_usdc", "btc_usdt",
    "eth_usdt", "eurr_usdt", "sol_usdt", "steth_usdt", "usdc_usdt", "usde_usdt"
  ]

  const TICKERS_4: seq<string> := [
    "btc_eurr", "btc_usde", "btc_usyc", "eth_btc", "eth_eurr", "eth_usde", "eth_usyc", "steth_eth", "paxg_btc",
    "drbfix-btc_usdc", "drbfix-eth_usdc"
  ]

  predicate NoCapital(s: string) {
    forall i :: 0 <= i < |s| ==> !('A' <= s[i] <= 'Z')
  }

  lemma LowerCase1(t: string)
    requires t in TICKERS_1
    ensures NoCapital(t)
  {
  }

  lemma LowerCase2(t: string)
    requires t in TICKERS_2
    ensures NoCapital(t)
  {
  }

  lemma LowerCase3(t: string)
    requires t in TICKERS_3
    ensures NoCapital(t)
  {
  }

  lemma LowerCase4(t: string)
    requires t in TICKERS_4
    ensures NoCapital(t)
  {
  }

  lemma CurrenciesAreLowerCase(t: string)
    requires t in CURRENCIES
    ensures NoCapital(t)
  {
    if t in TICKERS_1 {
      LowerCase1(t);
    } else if t in TICKERS_2 {
      LowerCase2(t);
    } else if t in TICKERS_3 {
      LowerCase3(t);
    } else {
      LowerCase4(t);
    }
  }
}
