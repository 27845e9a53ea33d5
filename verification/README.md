# Stock price fetcher: a Dafny model of its core

`stock_fetcher.py` is a command-line script with one optional argument, a
comma-separated list of ticker symbols that defaults to `AAPL`. It does the
following:

- It splits the argument on commas, then strips and upper-cases each piece.
- For every non-empty symbol, it asks Yahoo Finance for 30 days of daily
  prices.
- For a successful fetch, it prints a report: summary statistics of the
  Close column, then a table of the rows.
- For a failed fetch, it prints one error line instead.

This project models that core as pure functions and proves what the script
promises about it.

- `text.dfy` (module `Text`) holds the string operations the tokeniser uses,
  over ASCII:
  - `str.split(',')` as `Split` and its inverse `Join`;
  - `str.strip()` as `Strip`, described through `TrimStart` and `TrimEnd`;
  - `str.upper()` as `Upper`.
- `tickers.dfy` (module `Tickers`) turns the argument into the token list
  `[t.strip().upper() for t in arg.split(',')]`. Empty tokens are kept, as in
  the script.
- `stats.dfy` (module `Stats`) computes the "Summary Statistics" block:
  highest, lowest and average close, and the number of trading days. It uses
  exact real arithmetic.
- `volume.dfy` (module `Volume`) computes the Volume cell
  `f"{int(v):<15,}"`. The digits are grouped in threes with commas, and the
  result is left-aligned and padded with spaces to width 15.
- `fetcher.dfy` (module `Fetcher`) covers the fetching and the batch loop:
  - `fetch_stock_prices` as `FetchStockPrices`, with its double-wrapped
    error messages;
  - `display_stock_data` as `DisplayStockData`;
  - the `for i, ticker in enumerate(tickers)` loop as `Run`, and `main` after
    argument parsing as `Program`.

  The loop produces an ordered list of events: `Fetching`, `Report`,
  `Separator` and `ErrLine`.
- `wrappers.dfy` (module `Wrappers`) holds `Option`, for the optional
  argument, and `Result`, for a fetch that either yields rows or raises.

The market-data provider is a parameter. `Provider` maps a loop position and
a symbol to an `Outcome`: either a frame of rows, possibly empty, or a failure
with an exception text. So two requests for the same symbol need not agree.

Three behaviours of the script are easy to miss and are modelled as written:

- **The default symbol.** `AAPL` comes from the argument parser, so it is used
  only when the argument is absent. An argument that tokenises to nothing,
  such as `","`, produces no output at all.
- **Rows as returned.** Rows are shown in the order the provider returns them;
  the script neither sorts, de-duplicates nor drops any of them.
- **Empty tokens.** They are skipped, but they still count in the
  "not the last ticker" test. So `"AAPL,"` prints a separator after the AAPL
  report.

## Model

| member | source | states |
|---|---|---|
| Text.Split | stock_fetcher.py:109 | a string with n commas splits into n + 1 pieces, and no piece contains a comma |
| Text.JoinSplit | stock_fetcher.py:109 | rejoining the pieces with the separator gives back the original string, so splitting loses no character |
| Text.SplitJoin | stock_fetcher.py:109 | splitting a join of separator-free pieces gives back exactly those pieces, the other direction of the round trip |
| Text.SplitNoSep | stock_fetcher.py:109 | a string without the separator splits into itself alone |
| Text.SplitAppend | stock_fetcher.py:109 | splitting `a + sep + b` gives the pieces of `a` followed by the pieces of `b` |
| Text.SplitKeepsChars | stock_fetcher.py:109 | every character of a piece occurs in the split string |
| Text.Strip | stock_fetcher.py:109 | the stripped string is no longer than the input, has no whitespace at either end, and is empty exactly when the input is all whitespace |
| Text.StripIsSlice | stock_fetcher.py:109 | the stripped string is a contiguous slice of the input, with only whitespace before and after it |
| Text.StripIsBothTrims | stock_fetcher.py:109 | `strip()` equals `lstrip()` applied after `rstrip()` |
| Text.Upper | stock_fetcher.py:109 | upper-casing keeps the length and leaves no lower-case letter; each a-z moves down 32 code points onto its capital and every other character is unchanged |
| Tickers.Normalize | stock_fetcher.py:109 | `t.strip().upper()` is no longer than the piece, has no surrounding whitespace and no lower-case letter, and is empty exactly when the piece is all whitespace (so exactly those pieces are skipped by the loop) |
| Tickers.UpperOfTrimmed | stock_fetcher.py:109 | upper-casing a trimmed string keeps its length and keeps it trimmed |
| Tickers.NormalizeFixed | stock_fetcher.py:109 | a trimmed string without lower-case letters is unchanged by `strip().upper()` |
| Tickers.NormalizeIdempotent | stock_fetcher.py:109 | normalising a token twice gives the same result as normalising it once |
| Tickers.Tokenize | stock_fetcher.py:109 | one token per comma-separated piece (commas + 1 of them), each the normalised piece at the same position |
| Tickers.NormalForm | stock_fetcher.py:109 | any normalised piece is trimmed, has no lower-case letter, and is a fixed point of normalisation |
| Tickers.TokensAreNormal | stock_fetcher.py:109 | every token of the list is trimmed, upper-case and a fixed point of normalisation |
| Tickers.NonEmpty | stock_fetcher.py:111-113 | the tokens the loop processes are non-empty members of the token list, and there are no more of them than tokens |
| Tickers.TokenizeNoComma | stock_fetcher.py:109 | an argument without a comma is a single token, the normalised argument |
| Tickers.TokenizeTrailingComma | stock_fetcher.py:109 | a trailing comma leaves an empty second token behind |
| Tickers.OnlyCommaTokens | stock_fetcher.py:109 | the argument "," yields two empty tokens |
| Stats.Max | stock_fetcher.py:69 | the highest close is at least every close |
| Stats.Min | stock_fetcher.py:70 | the lowest close is at most every close |
| Stats.MaxIsElement | stock_fetcher.py:69 | the highest close is one of the closes |
| Stats.MinIsElement | stock_fetcher.py:70 | the lowest close is one of the closes |
| Stats.SumBounds | stock_fetcher.py:71 | a sum of n values within [lo, hi] lies within [n * lo, n * hi] |
| Stats.MeanTimesCount | stock_fetcher.py:71 | the mean multiplied by the number of closes gives back their sum |
| Stats.MeanBounds | stock_fetcher.py:69-71 | the mean lies between the smallest and the largest close |
| Stats.Summarize | stock_fetcher.py:69-72 | the day count is the number of rows, and every close lies between the reported lowest and highest |
| Stats.AverageIsMean | stock_fetcher.py:71-72 | the reported average times the reported day count equals the sum of the closes |
| Stats.AverageBetween | stock_fetcher.py:69-71 | lowest <= average <= highest |
| Stats.SingleClose | stock_fetcher.py:69-72 | for a single row, highest, lowest and average are all that row's close |
| Volume.Digits | stock_fetcher.py:80 | the decimal text of a number is non-empty, all digits, and starts with 0 only for zero itself |
| Volume.DigitsRoundTrip | stock_fetcher.py:80 | reading the printed digits as a decimal number gives back the number |
| Volume.CommasRemoved | stock_fetcher.py:80 | removing commas leaves none and shortens the text by exactly the number of commas |
| Volume.UngroupGroup | stock_fetcher.py:80 | removing the thousands separators from the grouped digits gives back the plain digits |
| Volume.GroupShape | stock_fetcher.py:80 | a grouped d-digit string has ceil(d / 3) comma-separated groups: the first of 1-3 characters and every later one of exactly 3 |
| Volume.PadRight | stock_fetcher.py:80 | left alignment: the text comes first, followed only by U+0020 spaces up to the field width; the text is never truncated |
| Volume.FormatVolume | stock_fetcher.py:80 | the cell is the signed, comma-grouped number followed only by U+0020 spaces, 15 characters wide or as wide as the number when wider; without padding and commas it is the sign and decimal digits of the volume; for a non-negative volume, without padding it is the grouped digits |
| Volume.VolumeGroups | stock_fetcher.py:80 | the cell of a d-digit volume splits at its commas into ceil(d / 3) groups: the first of 1-3 digits and every later one of exactly 3 |
| Fetcher.FetchStockPrices | stock_fetcher.py:36-52 | the fetch succeeds exactly when the provider returns at least one row, and then yields those rows; an empty frame yields the "no data" message inside the catch-all message; a provider exception yields its text inside the catch-all message |
| Fetcher.DisplayStockData | stock_fetcher.py:55-80 | the display is a report for the given ticker whose table is exactly the fetched rows, in the provider's order |
| Fetcher.ReportStatistics | stock_fetcher.py:69-72 | the day count is the number of rows; the highest and lowest are closes of actual rows and bound every close; the average is the sum of the closes divided by the number of rows and lies between lowest and highest; a single row makes all three equal to its close |
| Fetcher.VolumeColumn | stock_fetcher.py:78-80 | one Volume cell per row, in the provider's order, each at least 15 characters wide; for a non-negative volume the cell without its padding is the comma-grouped digits of that row's volume |
| Fetcher.Step | stock_fetcher.py:111-129 | an empty token writes nothing. Otherwise: the "Fetching" line for that token and 30 days; then, exactly when the fetch succeeds, the report of that token over the rows the provider returned at that position, else the error line "Error: " + the fetch's error message; then a separator exactly when the fetch succeeded and the raw position is not the last |
| Fetcher.Run | stock_fetcher.py:111-129 | the symbols fetched are exactly the non-empty tokens, each once, in input order; the number of reports plus error lines equals the number of non-empty tokens; every separator comes directly after a report, never after an error line |
| Fetcher.Program | stock_fetcher.py:98-109 | a given argument is tokenised and run; without one, the loop runs on the single token AAPL |
| Fetcher.DefaultTokens | stock_fetcher.py:101-109 | the default symbol AAPL tokenises to itself alone |
| Fetcher.BlankTokensAreSilent | stock_fetcher.py:111-113 | a token list of empty tokens only produces no output |
| Fetcher.BlankArgumentIsSilent | stock_fetcher.py:109-113 | an argument of commas and whitespace only produces no output; the default symbol is not substituted |
| Fetcher.DefaultFetchesAapl | stock_fetcher.py:98-109 | without an argument, exactly one fetch is made, for AAPL |
| Fetcher.FailureIsIsolated | stock_fetcher.py:111-129 | changing the provider's answer at one position changes only that position's block; the output before it and after it is identical |
| Fetcher.SplitAround | stock_fetcher.py:111 | the output is the output before a position, then that position's block, then the output after it |
| Fetcher.NoDataErrorLine | stock_fetcher.py:46-52 | a non-empty token whose frame comes back empty writes the fetch line and one error line: "Error: ", then the catch-all prefix, then the "no data" message |
| Fetcher.FailedErrorLine | stock_fetcher.py:51-52 | a non-empty token whose request raised writes the fetch line and one error line: "Error: ", then the catch-all prefix, then the exception text |
| Fetcher.SeparatorBeforeEmptyToken | stock_fetcher.py:123-124 | a successful symbol followed only by an empty token still gets a separator |
| Fetcher.TrailingCommaSeparator | stock_fetcher.py:109-124 | for an argument "X," whose fetch succeeds, the whole output is the fetch line, the report and a closing separator |

## Left out

- The network call (`yf.Ticker(...).history`, lines 43-44) is replaced by the
  `Provider` parameter. Its rows, empty frames and exceptions are all
  covered, by position.
- Dates are not modelled: the clock (`datetime.now()`, lines 38-39), the
  date range and the date column (`strftime`, line 79).
- Prices are exact reals, not IEEE doubles. The `.2f` and `<9.2f`
  renderings (lines 69-71, 80) are not modelled. NaN closes, which pandas'
  `max`, `min` and `mean` skip, are not modelled either.
- Volume is an integer in `Row`. Line 80 converts a float with `int(...)`,
  which truncates it. That conversion is not modelled, and neither is the
  `ValueError` it raises for a NaN volume after part of the table is printed.
- Fixed text is represented by events, not by its characters:
  - the banners and table header (lines 63-65, 68, 75-76);
  - the leading newlines of the fetch, separator and error lines (lines 42,
    124, 127);
  - the exact wording of the "Fetching ..." line.

  `ErrLine` marks the lines that go to standard error.
- Argument parsing (`argparse`, lines 87-106) is not modelled, including the
  help flag and the duplicated `parse_args` call. `Program` takes the parsed
  argument as an `Option<string>`.
- The `days` parameter of `fetch_stock_prices` is fixed at 30
  (`LookbackDays`, carried by every `Fetching` event), because the loop at
  line 117 always uses the default. Other values are not modelled.
- The "Unexpected error" branch (lines 128-129) has no counterpart. In the
  model, displaying well-formed rows cannot raise.
- `strip()` and `upper()` are modelled over ASCII only. Unicode whitespace
  and case mappings are not modelled.
- Text.Strip: its function contract states only shape. Text.StripIsSlice and
  Text.StripIsBothTrims give the full characterisation.
- Tickers.NonEmpty: its contract does not state that order is kept or that
  no non-empty token is dropped. The contract of Fetcher.Run relates it to the
  fetches the loop makes.
