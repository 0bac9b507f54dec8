/** The WATCHLIST setting: a comma-separated list of symbols, each stripped
    of surrounding whitespace and upper-cased. */
module Watchlist {
  import opened Text

  /** Line 23: [s.strip().upper() for s in raw.split(",")]. */
  function ParseWatchlist(raw: string): seq<string> {
    var parts := Split(raw, ',');
    seq(|parts|, i requires 0 <= i < |parts| => Upper(Strip(parts[i])))
  }

  /** A symbol as the comprehension produces it: no comma, no lower-case
      ASCII letter and no whitespace at either end. */
  predicate Normalised(sym: string) {
    ',' !in sym &&
    (forall i :: 0 <= i < |sym| ==> !IsLowerAscii(sym[i])) &&
    (sym == [] || (!IsSpace(sym[0]) && !IsSpace(sym[|sym| - 1])))
  }

  /** Upper-casing a stripped piece without commas gives a normalised symbol. */
  lemma {:induction false} PieceIsNormalised(piece: string)
    requires ',' !in piece
    ensures Normalised(Upper(Strip(piece)))
  {
    var lo, hi := StripIsTrimmedSlice(piece);
    var t := Strip(piece);
    UpperProperties(t);
    var u := Upper(t);
    forall i | 0 <= i < |u| ensures u[i] != ',' {
      assert t[i] == piece[lo + i];
    }
    if u != [] {
      assert !IsSpace(u[0]) && !IsSpace(u[|u| - 1]);
    }
  }

  /** One symbol per comma-separated piece, empty pieces included, each the
      upper-cased, stripped piece and each normalised. */
  lemma {:induction false} WatchlistShape(raw: string)
    ensures |ParseWatchlist(raw)| == Count(raw, ',') + 1
    ensures forall i :: 0 <= i < |ParseWatchlist(raw)| ==> ParseWatchlist(raw)[i] == Upper(Strip(Split(raw, ',')[i]))
    ensures forall i :: 0 <= i < |ParseWatchlist(raw)| ==> Normalised(ParseWatchlist(raw)[i])
  {
    SplitJoin(raw, ',');
    var parts := Split(raw, ',');
    forall i | 0 <= i < |parts| ensures Normalised(ParseWatchlist(raw)[i]) {
      PieceIsNormalised(parts[i]);
    }
  }

  /** A normalised symbol comes through strip() and upper() unchanged. */
  lemma {:induction false} NormalisedIsFixed(sym: string)
    requires Normalised(sym)
    ensures Upper(Strip(sym)) == sym
  {
    StripKeepsTrimmed(sym);
    UpperProperties(sym);
  }

  /** Writing normalised symbols out comma-separated and parsing gives them back. */
  lemma {:induction false} ParseOfJoin(symbols: seq<string>)
    requires |symbols| >= 1
    requires forall i :: 0 <= i < |symbols| ==> Normalised(symbols[i])
    ensures ParseWatchlist(Join(symbols, ',')) == symbols
  {
    JoinSplit(symbols, ',');
    forall i | 0 <= i < |symbols| ensures ParseWatchlist(Join(symbols, ','))[i] == symbols[i] {
      NormalisedIsFixed(symbols[i]);
    }
  }

  /** Parsing is stable: re-joining a parsed watchlist and parsing it again
      gives the same symbols. */
  lemma {:induction false} ParseIsStable(raw: string)
    ensures ParseWatchlist(Join(ParseWatchlist(raw), ',')) == ParseWatchlist(raw)
  {
    WatchlistShape(raw);
    ParseOfJoin(ParseWatchlist(raw));
  }

  /** A symbol spelt with capital letters and dots is normalised. */
  lemma {:induction false} PlainSymbolIsNormalised(sym: string)
    requires forall i :: 0 <= i < |sym| ==> 'A' <= sym[i] <= 'Z' || sym[i] == '.'
    ensures Normalised(sym)
  {
  }

  /** The default setting "AAPL,MSFT,TSLA,RELIANCE.NS", written piece by
      piece, names four symbols. */
  lemma {:induction false} DefaultWatchlist()
    ensures ParseWatchlist("AAPL" + "," + "MSFT" + "," + "TSLA" + "," + "RELIANCE.NS") == ["AAPL", "MSFT", "TSLA", "RELIANCE.NS"]
  {
    var symbols := ["AAPL", "MSFT", "TSLA", "RELIANCE.NS"];
    assert symbols[1..][1..][1..] == ["RELIANCE.NS"];
    assert Join(symbols, ',') == "AAPL" + "," + "MSFT" + "," + "TSLA" + "," + "RELIANCE.NS";
    PlainSymbolIsNormalised(symbols[0]);
    PlainSymbolIsNormalised(symbols[1]);
    PlainSymbolIsNormalised(symbols[2]);
    PlainSymbolIsNormalised(symbols[3]);
    ParseOfJoin(symbols);
  }
}
