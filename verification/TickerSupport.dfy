/**
  Which tickers the fetch loop supports and what it asks for them (func in
  cryptomarket/tasks/celery/task_add_every_60_seconds.py), said by the letters of the ticker.
*/
module TickerSupport {
  import opened Prelude
  import opened Settings
  import opened DatabaseConnection
  import opened PriceFetch

  /** The ticker's base currency is its first n characters: all up to the first underscore. */
  predicate BaseEndsAt(ticker: string, n: nat) {
    n <= |ticker| && '_' !in ticker[..n] && (n < |ticker| ==> ticker[n] == '_')
  }

  /** The word in any mixture of small and capital letters. */
  predicate AnyCase(s: string, small: string, capital: string)
    requires |small| == |capital|
  {
    |s| == |small| && forall i :: 0 <= i < |s| ==> s[i] == small[i] || s[i] == capital[i]
  }

  predicate IsBtc(base: string) {
    AnyCase(base, "btc", "BTC")
  }

  predicate IsEth(base: string) {
    AnyCase(base, "eth", "ETH")
  }

  predicate IsDot(base: string) {
    AnyCase(base, "dot", "DOT")
  }

  lemma {:induction false} HeaderIsCapital(ticker: string, n: nat)
    requires BaseEndsAt(ticker, n)
    ensures |Header(ticker)| == n && forall i :: 0 <= i < n ==> Header(ticker)[i] == UpperChar(ticker[i])
  {
    if n > 0 {
      assert ticker[0] in ticker[..n];
      forall c | c in ticker[1..][..n - 1] ensures c in ticker[..n] {
        var i :| 0 <= i < n - 1 && ticker[1..][i] == c;
        assert ticker[..n][i + 1] == c;
      }
      HeaderIsCapital(ticker[1..], n - 1);
    }
  }

  /** A word is a name in capitals exactly when it is that name in any case. */
  lemma CapitalIffAnyCase(word: string, upper: string, small: string, capital: string)
    requires |small| == |capital| && |upper| == |word| && forall i :: 0 <= i < |word| ==> upper[i] == UpperChar(word[i])
    requires forall i :: 0 <= i < |small| ==> 'a' <= small[i] <= 'z' && capital[i] as int == small[i] as int - 32
    ensures upper == capital <==> AnyCase(word, small, capital)
  {
    if |word| == |small| {
      forall i | 0 <= i < |word|
        ensures upper[i] == capital[i] <==> word[i] == small[i] || word[i] == capital[i]
      {
      }
    }
  }

  /** A ticker is supported exactly when the part before its first underscore is btc, eth or dot in any
      case, and then it is the perpetual of that currency that is asked for. */
  lemma SupportedIff(ticker: string, n: nat)
    requires BaseEndsAt(ticker, n)
    ensures var base := ticker[..n];
            && (Supported(ticker) <==> IsBtc(base) || IsEth(base) || IsDot(base))
            && (IsBtc(base) ==> Supported(ticker) && InstrumentOf(ticker) == "BTC-PERPETUAL")
            && (IsEth(base) ==> Supported(ticker) && InstrumentOf(ticker) == "ETH-PERPETUAL")
            && (IsDot(base) ==> Supported(ticker) && InstrumentOf(ticker) == "DOT-PERPETUAL")
  {
    HeaderIsCapital(ticker, n);
    CapitalIffAnyCase(ticker[..n], Header(ticker), "btc", "BTC");
    CapitalIffAnyCase(ticker[..n], Header(ticker), "eth", "ETH");
    CapitalIffAnyCase(ticker[..n], Header(ticker), "dot", "DOT");
  }

  /** Every ticker has a base currency. */
  lemma {:induction false} BaseExists(ticker: string) returns (n: nat)
    ensures BaseEndsAt(ticker, n)
  {
    n := 0;
    if ticker != "" && ticker[0] != '_' {
      var m := BaseExists(ticker[1..]);
      n := m + 1;
      assert ticker[..n] == [ticker[0]] + ticker[1..][..m];
    }
  }

  /** Of a table's tickers a run asks for exactly those of these three currencies that somebody is listed
      for, and the i-th request names the perpetual of the i-th ticker's currency. */
  lemma RequestsArePerpetuals(db: Database, asked: seq<string>, xs: seq<Exchange>, i: nat, n: nat)
    requires |asked| == |xs| && forall t :: t in asked ==> Supported(t)
    requires i < |Requests(Trace(db, asked, xs))| && i < |asked| && BaseEndsAt(asked[i], n)
    ensures var base, sent := asked[i][..n], Requests(Trace(db, asked, xs))[i];
            && (IsBtc(base) ==> sent == "BTC-PERPETUAL")
            && (IsEth(base) ==> sent == "ETH-PERPETUAL")
            && (IsDot(base) ==> sent == "DOT-PERPETUAL")
            && (IsBtc(base) || IsEth(base) || IsDot(base))
  {
    RequestsInOrder(db, asked, xs);
    assert asked[i] in asked;
    SupportedIff(asked[i], n);
  }

  /** Of small letters: the ticker starts with the currency and an underscore. */
  lemma SmallLettersSupported(ticker: string)
    requires NoCapital(ticker) && '_' in ticker
    ensures Supported(ticker) <==> "btc_" <= ticker || "eth_" <= ticker || "dot_" <= ticker
  {
    var n := BaseExists(ticker);
    SupportedIff(ticker, n);
    assert n < |ticker|;
    SmallWord(ticker, n, "btc", "BTC");
    SmallWord(ticker, n, "eth", "ETH");
    SmallWord(ticker, n, "dot", "DOT");
  }

  lemma SmallWord(ticker: string, n: nat, small: string, capital: string)
    requires NoCapital(ticker) && BaseEndsAt(ticker, n) && n < |ticker| && |small| == |capital|
    requires forall i :: 0 <= i < |small| ==> small[i] != '_' && 'A' <= capital[i] <= 'Z'
    ensures AnyCase(ticker[..n], small, capital) <==> small + "_" <= ticker
  {
    var start := small + "_";
    if AnyCase(ticker[..n], small, capital) {
      assert forall i :: 0 <= i < n ==> ticker[..n][i] == ticker[i] == small[i];
      assert ticker[..n] == small && start == ticker[..n + 1];
    }
    if start <= ticker {
      assert start[|small|] == '_' && ticker[|small|] == '_';
      assert forall i :: 0 <= i < |small| ==> start[i] == small[i] == ticker[i];
      assert forall i :: 0 <= i < |small| ==> ticker[i] != '_';
      assert forall i :: 0 <= i < n ==> ticker[..n][i] == ticker[i] && ticker[i] in ticker[..n];
    }
  }

  lemma Underscore1(t: string)
    requires t in TICKERS_1
    ensures '_' in t
  {
  }

  lemma Underscore2(t: string)
    requires t in TICKERS_2
    ensures '_' in t
  {
  }

  lemma Underscore3(t: string)
    requires t in TICKERS_3
    ensures '_' in t
  {
  }

  lemma Underscore4(t: string)
    requires t in TICKERS_4
    ensures '_' in t
  {
  }

  /** Of the tickers a user may choose, those quoted by the three currencies' names. */
  lemma ChoosableSupported(t: string)
    requires t in CURRENCIES
    ensures Supported(t) <==> "btc_" <= t || "eth_" <= t || "dot_" <= t
  {
    CurrenciesAreLowerCase(t);
    if t in TICKERS_1 {
      Underscore1(t);
    } else if t in TICKERS_2 {
      Underscore2(t);
    } else if t in TICKERS_3 {
      Underscore3(t);
    } else {
      Underscore4(t);
    }
    SmallLettersSupported(t);
  }
}
