/**
 * The fetch-and-display loop of the stock price fetcher, as a pure function
 * from the ticker tokens and the market-data provider's answers to the
 * ordered list of things the program writes.
 */
module Fetcher {
  import opened Wrappers
  import opened Tickers
  import opened Stats
  import opened Volume
  import opened Text

  /** One daily price record as the provider returns it. */
  datatype Row = Row(open: real, high: real, low: real, close: real, volume: int)

  /** What one provider request yields: a (possibly empty) frame of rows,
      or an exception whose text is `msg`. */
  datatype Outcome = Rows(rows: seq<Row>) | Failed(msg: string)

  /** The provider's answer to the fetch made at loop position `i` for
      `ticker`; two requests for the same symbol need not agree. */
  type Provider = (nat, string) -> Outcome

  /** What the program writes, in order. */
  datatype Event =
    | Fetching(ticker: string, days: nat)                         // "Fetching {days} days of ... for {ticker}..."
    | Report(ticker: string, summary: Summary, table: seq<Row>) // header, statistics and table
    | Separator                                                   // the rule between two reports
    | ErrLine(text: string)                                       // one line on standard error

  /** Days of history the loop requests (`fetch_stock_prices`' default, which
      the loop does not override); the report header also says 30. */
  const LookbackDays: nat := 30

  /** The symbol used when no ticker argument is given. */
  const DefaultTicker: string := "AAPL"

  /** Message of the exception raised when the provider returns no rows. */
  function NoDataMessage(ticker: string): string
  {
    "No data found for ticker '" + ticker + "'. Please check the ticker symbol."
  }

  /** The catch-all wrapping every exception raised while fetching. */
  function FetchErrorMessage(ticker: string, inner: string): string
  {
    "Error fetching data for " + ticker + ": " + inner
  }

  /** `fetch_stock_prices`: the rows on success; otherwise the error message of
      the exception it raises, always wrapped once by its catch-all, so the
      "no data" exception ends up wrapped inside it. */
  function FetchStockPrices(ticker: string, outcome: Outcome): (r: Result<seq<Row>, string>)
    ensures r.Success? <==> outcome.Rows? && |outcome.rows| > 0
    ensures r.Success? ==> r.value == outcome.rows
    ensures outcome == Rows([]) ==> r == Failure(FetchErrorMessage(ticker, NoDataMessage(ticker)))
    ensures outcome.Failed? ==> r == Failure(FetchErrorMessage(ticker, outcome.msg))
  {
    match outcome
    case Failed(msg) => Failure(FetchErrorMessage(ticker, msg))
    case Rows(rows) =>
      if |rows| == 0 then Failure(FetchErrorMessage(ticker, NoDataMessage(ticker)))
      else Success(rows)
  }

  /** The Close column; the ensures only expose the comprehension to the proofs. */
  function Closes(rows: seq<Row>): (r: seq<real>)
    ensures |r| == |rows|
    ensures forall k :: 0 <= k < |rows| ==> r[k] == rows[k].close
  {
    seq(|rows|, k requires 0 <= k < |rows| => rows[k].close)
  }

  /** `display_stock_data`: statistics over the Close column and the Volume
      column of every row, in the provider's order. */
  function DisplayStockData(rows: seq<Row>, ticker: string): (e: Event)
    requires |rows| > 0
    ensures e.Report? && e.ticker == ticker && e.table == rows
  {
    Report(ticker, Summarize(Closes(rows)), rows)
  }

  /** The statistics a report shows: the highest and lowest close are closes
      of some row and bound every row's close, the average is the arithmetic
      mean of the closes and lies between them, and the day count is the
      number of rows. */
  lemma ReportStatistics(rows: seq<Row>, ticker: string)
    requires |rows| > 0
    ensures var s := DisplayStockData(rows, ticker).summary;
            && s.days == |rows|
            && (forall k :: 0 <= k < |rows| ==> s.lowest <= rows[k].close <= s.highest)
            && (exists k :: 0 <= k < |rows| && rows[k].close == s.highest)
            && (exists k :: 0 <= k < |rows| && rows[k].close == s.lowest)
            && s.lowest <= s.average <= s.highest
            && s.average == Sum(Closes(rows)) / |rows| as real
            && (|rows| == 1 ==> s.highest == s.lowest == s.average == rows[0].close)
  {
    var cs := Closes(rows);
    var s := Summarize(cs);
    AverageBetween(cs);
    MaxIsElement(cs);
    MinIsElement(cs);
    assert s.highest in cs && s.lowest in cs;
    var i :| 0 <= i < |cs| && cs[i] == s.highest;
    var j :| 0 <= j < |cs| && cs[j] == s.lowest;
    assert rows[i].close == s.highest && rows[j].close == s.lowest;
  }

  /** The Volume cells of a report's table, one per row in the provider's
      order: each at least the column width, and for a non-negative volume
      the comma-grouped digits followed only by padding spaces. */
  function VolumeColumn(rows: seq<Row>): (vs: seq<string>)
    ensures |vs| == |rows|
    ensures forall k :: 0 <= k < |rows| ==> |vs[k]| >= Width
    ensures forall k :: 0 <= k < |rows| && rows[k].volume >= 0 ==>
              TrimEnd(vs[k]) == Group(Digits(rows[k].volume))
  {
    seq(|rows|, k requires 0 <= k < |rows| => FormatVolume(rows[k].volume))
  }

  /** Whether the fetch for raw position `i` ends in a report. */
  predicate Succeeds(tickers: seq<string>, provider: Provider, i: nat)
    requires i < |tickers|
  {
    FetchStockPrices(tickers[i], provider(i, tickers[i])).Success?
  }

  /** The shape of what one loop iteration writes for token `t`: nothing for
      an empty token; otherwise the fetch line, then a report or an error
      line, then possibly a separator, which only ever follows a report. */
  predicate IsBlockFor(b: seq<Event>, t: string)
  {
    if t == [] then b == []
    else
      && 2 <= |b| <= 3
      && b[0] == Fetching(t, LookbackDays)
      && (b[1].Report? || b[1].ErrLine?)
      && (|b| == 3 ==> b[1].Report? && b[2] == Separator)
  }

  /** What one iteration of the loop, at raw position `i`, writes. */
  function Step(tickers: seq<string>, provider: Provider, i: nat): (es: seq<Event>)
    requires i < |tickers|
    ensures IsBlockFor(es, tickers[i])
    ensures tickers[i] != [] ==> (es[1].Report? <==> Succeeds(tickers, provider, i))
    ensures Separator in es <==> tickers[i] != [] && Succeeds(tickers, provider, i) && i < |tickers| - 1
    ensures tickers[i] != [] && Succeeds(tickers, provider, i) ==>
              es[1] == DisplayStockData(provider(i, tickers[i]).rows, tickers[i])
    ensures tickers[i] != [] && !Succeeds(tickers, provider, i) ==>
              es[1] == ErrLine("Error: " + FetchStockPrices(tickers[i], provider(i, tickers[i])).error)
  {
    var t := tickers[i];
    if t == [] then []
    else
      var fetched := FetchStockPrices(t, provider(i, t));
      if fetched.Failure? then [Fetching(t, LookbackDays), ErrLine("Error: " + fetched.error)]
      else if i < |tickers| - 1 then [Fetching(t, LookbackDays), DisplayStockData(fetched.value, t), Separator]
      else [Fetching(t, LookbackDays), DisplayStockData(fetched.value, t)]
  }

  /** One block of output per raw token, in input order; the ensures only
      expose the comprehension to the proofs. */
  function Blocks(tickers: seq<string>, provider: Provider): (bs: seq<seq<Event>>)
    ensures |bs| == |tickers|
    ensures forall i :: 0 <= i < |tickers| ==> bs[i] == Step(tickers, provider, i)
  {
    seq(|tickers|, i requires 0 <= i < |tickers| => Step(tickers, provider, i))
  }

  function Flatten<T>(bs: seq<seq<T>>): seq<T>
  {
    if |bs| == 0 then [] else bs[0] + Flatten(bs[1..])
  }

  /** The whole `for i, ticker in enumerate(tickers)` loop: the blocks, one
      after the other. Exactly the non-empty tokens are fetched, once each
      and in input order; every fetch ends in exactly one report or error
      line; and a separator only ever follows a report, never an error line. */
  function Run(tickers: seq<string>, provider: Provider): (r: seq<Event>)
    ensures Fetched(r) == NonEmpty(tickers)
    ensures Verdicts(r) == |NonEmpty(tickers)|
    ensures SeparatorsFollowReports(r)
  {
    var bs := Blocks(tickers, provider);
    FetchedFlatten(bs, tickers);
    VerdictsFlatten(bs, tickers);
    SeparatorsFlatten(bs, tickers);
    Flatten(bs)
  }

  /** `main` after argument parsing: a given argument is tokenised and run;
      without one, the loop runs on the single default symbol. */
  function Program(arg: Option<string>, provider: Provider): (r: seq<Event>)
    ensures arg.Some? ==> r == Run(Tokenize(arg.value), provider)
    ensures arg.None? ==> r == Run([DefaultTicker], provider)
  {
    match arg
    case Some(a) => Run(Tokenize(a), provider)
    case None => DefaultTokens(DefaultTicker); Run(Tokenize(DefaultTicker), provider)
  }

  /** The default symbol tokenises to itself alone. */
  lemma DefaultTokens(t: string)
    requires t == DefaultTicker
    ensures Tokenize(t) == [t]
  {
    assert ',' !in t && Trimmed(t) && NoLower(t);
    TokenizeNoComma(t);
    NormalizeFixed(t);
  }

  /** The tickers of the `Fetching` events, in order: the fetches made. */
  function Fetched(es: seq<Event>): seq<string>
  {
    if |es| == 0 then []
    else (if es[0].Fetching? then [es[0].ticker] else []) + Fetched(es[1..])
  }

  lemma {:induction false} FetchedAppend(a: seq<Event>, b: seq<Event>)
    ensures Fetched(a + b) == Fetched(a) + Fetched(b)
    decreases |a|
  {
    if |a| == 0 {
      assert a + b == b;
    } else {
      assert (a + b)[0] == a[0];
      assert (a + b)[1..] == a[1..] + b;
      FetchedAppend(a[1..], b);
    }
  }

  /** What one block contributes to the fetch list and to the verdict count. */
  lemma BlockCounts(b: seq<Event>, t: string)
    requires IsBlockFor(b, t)
    ensures Fetched(b) == if t == [] then [] else [t]
    ensures Verdicts(b) == if t == [] then 0 else 1
  {
    if t != [] {
      var rest := b[1..];
      var tail := rest[1..];
      assert Fetched(tail) == [] && Verdicts(tail) == 0 by {
        if |tail| == 1 {
          assert tail[0] == Separator && tail[1..] == [];
        }
      }
      assert Fetched(rest) == Fetched(tail) && Verdicts(rest) == 1 + Verdicts(tail);
      assert Fetched(b) == [t] + Fetched(rest) && Verdicts(b) == Verdicts(rest);
    }
  }

  lemma {:induction false} FetchedFlatten(bs: seq<seq<Event>>, ts: seq<string>)
    requires |bs| == |ts|
    requires forall i :: 0 <= i < |bs| ==> IsBlockFor(bs[i], ts[i])
    ensures Fetched(Flatten(bs)) == NonEmpty(ts)
    decreases |bs|
  {
    if |bs| > 0 {
      FetchedFlatten(bs[1..], ts[1..]);
      FetchedAppend(bs[0], Flatten(bs[1..]));
      BlockCounts(bs[0], ts[0]);
    }
  }

  /** Tokens that are all empty after trimming produce no output at all. */
  lemma BlankTokensAreSilent(tickers: seq<string>, provider: Provider)
    requires forall k :: 0 <= k < |tickers| ==> tickers[k] == []
    ensures Run(tickers, provider) == []
  {
    BlankFlatten(Blocks(tickers, provider));
  }

  lemma {:induction false} BlankFlatten(bs: seq<seq<Event>>)
    requires forall i :: 0 <= i < |bs| ==> bs[i] == []
    ensures Flatten(bs) == []
    decreases |bs|
  {
    if |bs| > 0 {
      BlankFlatten(bs[1..]);
    }
  }

  /** An argument made only of commas and whitespace, such as ",", yields
      empty tokens only and therefore no output at all; the default symbol is
      not used for it. */
  lemma BlankArgumentIsSilent(arg: string, provider: Provider)
    requires forall k :: 0 <= k < |arg| ==> arg[k] == ',' || IsSpace(arg[k])
    ensures Program(Some(arg), provider) == []
  {
    var ts := Tokenize(arg);
    var pieces := Split(arg, ',');
    forall k | 0 <= k < |ts|
      ensures ts[k] == []
    {
      SplitKeepsChars(arg, ',', k);
      assert AllSpace(pieces[k]);
    }
    BlankTokensAreSilent(ts, provider);
  }

  /** Without an argument the default symbol AAPL is fetched, alone. */
  lemma DefaultFetchesAapl(arg: Option<string>, provider: Provider)
    requires arg.None?
    ensures Fetched(Program(arg, provider)) == [DefaultTicker]
  {
    var t := DefaultTicker;
    assert NonEmpty([t]) == [t] + NonEmpty([]);
  }

  /** Isolation: changing what the provider answers at one position changes
      only that position's own block; the output before and after it is the same. */
  lemma FailureIsIsolated(tickers: seq<string>, p: Provider, q: Provider, i: nat)
    requires i < |tickers|
    requires forall j :: 0 <= j < |tickers| && j != i ==> p(j, tickers[j]) == q(j, tickers[j])
    ensures var bs := Blocks(tickers, p);
            var before, after := Flatten(bs[..i]), Flatten(bs[i + 1..]);
            && Run(tickers, p) == before + Step(tickers, p, i) + after
            && Run(tickers, q) == before + Step(tickers, q, i) + after
  {
    var bp, bq := Blocks(tickers, p), Blocks(tickers, q);
    forall j | 0 <= j < |tickers| && j != i
      ensures bp[j] == bq[j]
    {
      assert p(j, tickers[j]) == q(j, tickers[j]);
    }
    assert bp[..i] == bq[..i];
    assert bp[i + 1..] == bq[i + 1..];
    SplitAround(bp, i);
    SplitAround(bq, i);
  }

  /** The output splits around any one block. */
  lemma {:induction false} SplitAround<T>(bs: seq<seq<T>>, i: nat)
    requires i < |bs|
    ensures Flatten(bs) == Flatten(bs[..i]) + bs[i] + Flatten(bs[i + 1..])
    decreases i
  {
    if i == 0 {
      assert bs[..0] == [];
      assert bs[1..] == bs[i + 1..];
    } else {
      var tl := bs[1..];
      SplitAround(tl, i - 1);
      assert tl[..i - 1] == bs[..i][1..];
      assert tl[i..] == bs[i + 1..];
      assert tl[i - 1] == bs[i];
      assert bs[..i][0] == bs[0];
      assert Flatten(bs) == bs[0] + Flatten(tl);
      assert Flatten(bs[..i]) == bs[0] + Flatten(tl[..i - 1]);
    }
  }

  /** A position whose provider answer is an empty frame writes the fetch line
      and one error line, whose text carries the "no data" message wrapped twice. */
  lemma NoDataErrorLine(tickers: seq<string>, provider: Provider, i: nat)
    requires i < |tickers| && tickers[i] != []
    requires provider(i, tickers[i]) == Rows([])
    ensures var t := tickers[i];
            Step(tickers, provider, i)
            == [Fetching(t, LookbackDays),
                ErrLine("Error: " + ("Error fetching data for " + t + ": "
                                     + ("No data found for ticker '" + t + "'. Please check the ticker symbol.")))]
  {
    var t := tickers[i];
    assert FetchStockPrices(t, provider(i, t)) == Failure(FetchErrorMessage(t, NoDataMessage(t)));
  }

  /** A position whose provider request raised writes the fetch line and one
      error line carrying the exception's text, wrapped once. */
  lemma FailedErrorLine(tickers: seq<string>, provider: Provider, i: nat)
    requires i < |tickers| && tickers[i] != []
    requires provider(i, tickers[i]).Failed?
    ensures var t := tickers[i];
            Step(tickers, provider, i)
            == [Fetching(t, LookbackDays), ErrLine("Error: " + ("Error fetching data for " + t + ": " + provider(i, t).msg))]
  {
    var t := tickers[i];
    assert FetchStockPrices(t, provider(i, t)) == Failure(FetchErrorMessage(t, provider(i, t).msg));
  }

  /** Number of `Report` and of `ErrLine` events. */
  function Verdicts(es: seq<Event>): nat
  {
    if |es| == 0 then 0 else (if es[0].Report? || es[0].ErrLine? then 1 else 0) + Verdicts(es[1..])
  }

  lemma {:induction false} VerdictsAppend(a: seq<Event>, b: seq<Event>)
    ensures Verdicts(a + b) == Verdicts(a) + Verdicts(b)
    decreases |a|
  {
    if |a| == 0 {
      assert a + b == b;
    } else {
      assert (a + b)[0] == a[0];
      assert (a + b)[1..] == a[1..] + b;
      VerdictsAppend(a[1..], b);
    }
  }

  lemma {:induction false} VerdictsFlatten(bs: seq<seq<Event>>, ts: seq<string>)
    requires |bs| == |ts|
    requires forall i :: 0 <= i < |bs| ==> IsBlockFor(bs[i], ts[i])
    ensures Verdicts(Flatten(bs)) == |Fetched(Flatten(bs))|
    decreases |bs|
  {
    if |bs| > 0 {
      VerdictsFlatten(bs[1..], ts[1..]);
      VerdictsAppend(bs[0], Flatten(bs[1..]));
      FetchedAppend(bs[0], Flatten(bs[1..]));
      BlockCounts(bs[0], ts[0]);
    }
  }

  /** A separator is only ever written right after a report. */
  predicate SeparatorsFollowReports(es: seq<Event>)
  {
    forall k :: 0 <= k < |es| && es[k] == Separator ==> 0 < k && es[k - 1].Report?
  }

  lemma {:induction false} SeparatorsFlatten(bs: seq<seq<Event>>, ts: seq<string>)
    requires |bs| == |ts|
    requires forall i :: 0 <= i < |bs| ==> IsBlockFor(bs[i], ts[i])
    ensures SeparatorsFollowReports(Flatten(bs))
    decreases |bs|
  {
    if |bs| > 0 {
      SeparatorsFlatten(bs[1..], ts[1..]);
      var b, rest := bs[0], Flatten(bs[1..]);
      var es := b + rest;
      forall k | 0 <= k < |es| && es[k] == Separator
        ensures 0 < k && es[k - 1].Report?
      {
        if k < |b| {
          assert b[k] == Separator;
        } else {
          assert rest[k - |b|] == Separator;
          if k - |b| == 0 {
            assert false;
          }
        }
      }
    }
  }

  /** A successful symbol followed only by an empty token still gets a
      separator, because the empty token counts in the loop's length test. */
  lemma {:induction false} SeparatorBeforeEmptyToken(tickers: seq<string>, provider: Provider)
    requires |tickers| == 2 && tickers[0] != [] && tickers[1] == []
    requires Succeeds(tickers, provider, 0)
    ensures Run(tickers, provider)
            == [Fetching(tickers[0], LookbackDays), DisplayStockData(provider(0, tickers[0]).rows, tickers[0]), Separator]
  {
    var bs := Blocks(tickers, provider);
    SplitAround(bs, 0);
    assert bs[1..] == [[]];
    assert Flatten(bs[1..]) == [];
    assert Flatten<Event>([]) == [];
  }

  /** So an argument such as "AAPL," ends its output with a separator when
      the fetch succeeds. */
  lemma TrailingCommaSeparator(piece: string, provider: Provider)
    requires ',' !in piece && !AllSpace(piece)
    requires var t := Normalize(piece); provider(0, t).Rows? && |provider(0, t).rows| > 0
    ensures var t := Normalize(piece);
            Program(Some(piece + ","), provider)
            == [Fetching(t, LookbackDays), DisplayStockData(provider(0, t).rows, t), Separator]
  {
    var t := Normalize(piece);
    var ts := [t, ""];
    TokenizeTrailingComma(piece);
    assert Succeeds(ts, provider, 0);
    SeparatorBeforeEmptyToken(ts, provider);
  }
}
