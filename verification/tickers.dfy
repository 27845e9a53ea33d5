/**
 * Turning the ticker argument into the list the batch loop walks over:
 * split on commas, then strip and upper-case each piece. Pieces that end
 * up empty stay in the list (the loop skips them, but they still count
 * for its separator rule).
 */
module Tickers {
  import opened Text

  /** One piece after `strip().upper()`: no longer than the piece, without
      surrounding whitespace or lower-case letters, and empty exactly when
      the piece is all whitespace. */
  function Normalize(piece: string): (r: string)
    ensures |r| <= |piece|
    ensures Trimmed(r)
    ensures NoLower(r)
    ensures r == [] <==> AllSpace(piece)
  {
    UpperOfTrimmed(Strip(piece));
    Upper(Strip(piece))
  }

  /** Upper-casing a trimmed string keeps it trimmed and leaves no
      lower-case letter. */
  lemma UpperOfTrimmed(t: string)
    requires Trimmed(t)
    ensures var r := Upper(t);
            && |r| == |t|
            && Trimmed(r)
            && NoLower(r)
  {
  }

  /** A token without surrounding whitespace or lower-case letters is left
      unchanged by normalisation. */
  lemma NormalizeFixed(t: string)
    requires Trimmed(t)
    requires NoLower(t)
    ensures Normalize(t) == t
  {
    assert Strip(t) == t by {
      if t != [] {
        assert ContentEnd(t) == |t| && LeadingSpace(t) == 0;
      }
    }
    var u := Upper(t);
    assert forall k :: 0 <= k < |t| ==> u[k] == t[k];
  }

  /** Normalising an already normalised token changes nothing. */
  lemma NormalizeIdempotent(piece: string)
    ensures Normalize(Normalize(piece)) == Normalize(piece)
  {
    NormalizeFixed(Normalize(piece));
  }

  /** `[t.strip().upper() for t in arg.split(',')]`, empty tokens included. */
  function Tokenize(arg: string): (r: seq<string>)
    ensures |r| == Count(arg, ',') + 1
    ensures forall k :: 0 <= k < |r| ==> r[k] == Normalize(Split(arg, ',')[k])
  {
    var pieces := Split(arg, ',');
    seq(|pieces|, k requires 0 <= k < |pieces| => Normalize(pieces[k]))
  }

  /** A normalised piece is trimmed, has no lower-case letter, and is a
      fixed point of normalisation. */
  lemma NormalForm(t: string, piece: string)
    requires t == Normalize(piece)
    ensures Trimmed(t) && NoLower(t) && Normalize(t) == t
  {
    NormalizeFixed(t);
  }

  /** Every token is trimmed, has no lower-case letter, and is a fixed point
      of normalisation. */
  lemma TokensAreNormal(arg: string, k: nat)
    requires k < |Tokenize(arg)|
    ensures var t := Tokenize(arg)[k]; Trimmed(t) && NoLower(t) && Normalize(t) == t
  {
    NormalForm(Tokenize(arg)[k], Split(arg, ',')[k]);
  }

  /** The tokens the loop actually processes: the non-empty ones, in order. */
  function NonEmpty(tokens: seq<string>): (r: seq<string>)
    ensures |r| <= |tokens|
    ensures forall k :: 0 <= k < |r| ==> r[k] != [] && r[k] in tokens
  {
    if |tokens| == 0 then []
    else (if tokens[0] == [] then [] else [tokens[0]]) + NonEmpty(tokens[1..])
  }

  /** An argument without commas is one token. */
  lemma TokenizeNoComma(piece: string)
    requires ',' !in piece
    ensures Tokenize(piece) == [Normalize(piece)]
  {
    SplitNoSep(piece, ',');
    OnePieceTokens(piece, piece);
  }

  lemma OnePieceTokens(arg: string, a: string)
    requires Split(arg, ',') == [a]
    ensures Tokenize(arg) == [Normalize(a)]
  {
    var r := Tokenize(arg);
    assert |r| == 1 && r[0] == Normalize(a);
    SingleExt(r, Normalize(a));
  }

  lemma SingleExt<T>(r: seq<T>, x: T)
    requires |r| == 1 && r[0] == x
    ensures r == [x]
  {
  }

  /** A trailing comma leaves an empty last token behind. */
  lemma TokenizeTrailingComma(piece: string)
    requires ',' !in piece
    ensures Tokenize(piece + ",") == [Normalize(piece), ""]
  {
    SplitTrailingComma(piece);
    TwoPieceTokens(piece + ",", piece, "");
    NormalizeFixed("");
  }

  lemma SplitTrailingComma(piece: string)
    requires ',' !in piece
    ensures Split(piece + ",", ',') == [piece, ""]
  {
    assert piece + "," == piece + [','] + "";
    SplitAppend(piece, "", ',');
    SplitNoSep(piece, ',');
  }

  lemma TwoPieceTokens(arg: string, a: string, b: string)
    requires Split(arg, ',') == [a, b]
    ensures Tokenize(arg) == [Normalize(a), Normalize(b)]
  {
    var r := Tokenize(arg);
    assert |r| == 2 && r[0] == Normalize(a) && r[1] == Normalize(b);
    PairExt(r, Normalize(a), Normalize(b));
  }

  lemma PairExt<T>(r: seq<T>, x: T, y: T)
    requires |r| == 2 && r[0] == x && r[1] == y
    ensures r == [x, y]
  {
  }

  /** Worked example: the argument "," gives two empty tokens (the general
      statement for blank arguments is Fetcher.BlankArgumentIsSilent). */
  lemma OnlyCommaTokens()
    ensures Tokenize(",") == ["", ""]
  {
    SplitTrailingComma("");
    assert "" + "," == ",";
    TwoPieceTokens(",", "", "");
    NormalizeFixed("");
  }
}
