/**
 The Frankfurter currency converter: flag validation, upper-casing of the
 currency codes, the request URL, the rate lookup and the choice of output
 form, plus the `-list` path. Each HTTP exchange, already decoded, is an input;
 number formatting (`%f`, `%.2f`) is a parameter.
 */
module Frankfurter {

  import opened Wrappers
  import Text

  /** A Go `float64` as far as comparisons are concerned: a finite value, an
      infinity or NaN. Rounding to 53 bits is not modelled. */
  datatype Float64 = Finite(r: real) | PosInf | NegInf | NaN

  /** Go's `x <= 0` on a float64: false for NaN and for +Inf. */
  predicate AtMostZero(x: Float64) {
    match x
    case Finite(r) => r <= 0.0
    case NegInf => true
    case PosInf => false
    case NaN => false
  }

  /** The display symbol of each supported code. */
  const Symbols: map<string, string> := map[
    "USD" := "$",
    "CAD" := "$",
    "EUR" := "\U{20AC}",
    "GBP" := "\U{00A3}",
    "JPY" := "\U{00A5}",
    "AUD" := "$",
    "NZD" := "$",
    "CHF" := "CHF",
    "CNY" := "\U{00A5}",
    "SEK" := "kr",
    "NOK" := "kr",
    "DKK" := "kr",
    "INR" := "\U{20B9}"
  ]

  /** The command-line flags of one run. */
  datatype Options = Options(list: bool, amount: Float64, from: string, to: string, symbol: bool)

  /** The body of the conversion response; only `rates` is used. */
  datatype ConvertResponse = ConvertResponse(amount: Float64, base: string, rates: map<string, Float64>)

  /** One HTTP exchange followed by JSON decoding: the decoded value, or the
      error of the request or of the decoding. */
  datatype Reply<T> = Decoded(value: T) | RequestFailed(err: string) | DecodeFailed(err: string)

  /** The chosen output form, before `%.2f` is applied. */
  datatype Display =
    | WithSymbol(symbol: string, value: Float64)   // "%s%.2f"
    | WithCode(value: Float64, code: string)       // "%.2f %s"
    | Bare(value: Float64)                         // "%.2f"

  /** How a run ends; every outcome but `Listed` and `Shown` exits with 1. */
  datatype Outcome =
    | Listed(currencies: map<string, string>)
    | Usage
    | Failed(message: string)
    | Unsupported
    | Shown(display: Display)

  /** What one run did: the URLs requested, in order, and how it ended. */
  datatype Run = Run(requests: seq<string>, outcome: Outcome)

  const CurrenciesUrl: string := "https://api.frankfurter.app/currencies"
  const LatestUrl: string := "https://api.frankfurter.app/latest"

  function ExitCode(o: Outcome): int {
    if o.Listed? || o.Shown? then 0 else 1
  }

  /** Go's `Println("...:", err)`: the two operands joined by a space. */
  function FailureMessage<T>(reply: Reply<T>): string
    requires !reply.Decoded?
  {
    match reply
    case RequestFailed(err) => "Request failed: " + err
    case DecodeFailed(err) => "Failed to decode response: " + err
  }

  /** The conversion flags are rejected when the amount is not positive or a
      code is missing. */
  predicate Invalid(opts: Options) {
    AtMostZero(opts.amount) || opts.from == "" || opts.to == ""
  }

  /** The request URL; `fixed` stands for `%f`. Codes are used as given. */
  function RequestUrl(amount: Float64, from: string, to: string, fixed: Float64 -> string): string {
    LatestUrl + "?amount=" + fixed(amount) + "&from=" + from + "&to=" + to
  }

  /** The output form for the rate of `to`. */
  function Choose(symbol: bool, to: string, rate: Float64): (d: Display)
    ensures d.value == rate
    ensures d.WithSymbol? <==> symbol && to in Symbols
    ensures d.WithSymbol? ==> d.symbol == Symbols[to]
    ensures d.WithCode? <==> symbol && to !in Symbols
    ensures d.WithCode? ==> d.code == to
    ensures d.Bare? <==> !symbol
  {
    if symbol then
      if to in Symbols then WithSymbol(Symbols[to], rate) else WithCode(rate, to)
    else
      Bare(rate)
  }

  /** The conversion path of `main`, after validation: `convert` stands for
      the request to a URL and the decoding of its body. */
  function Convert(opts: Options, fixed: Float64 -> string, convert: string -> Reply<ConvertResponse>): (r: Run)
  {
    var from := Text.ToUpper(opts.from);
    var to := Text.ToUpper(opts.to);
    var url := RequestUrl(opts.amount, from, to, fixed);
    match convert(url)
    case RequestFailed(err) => Run([url], Failed(FailureMessage(convert(url))))
    case DecodeFailed(err) => Run([url], Failed(FailureMessage(convert(url))))
    case Decoded(data) =>
      if to !in data.rates then Run([url], Unsupported)
      else Run([url], Shown(Choose(opts.symbol, to, data.rates[to])))
  }

  /** `main` after flag parsing. `listing` is the decoded reply of the
      currencies request. */
  function Execute(opts: Options, fixed: Float64 -> string, listing: Reply<map<string, string>>,
                convert: string -> Reply<ConvertResponse>): (r: Run)
    ensures opts.list ==> r.requests == [CurrenciesUrl]
    ensures opts.list && listing.Decoded? ==> r.outcome == Listed(listing.value)
    ensures opts.list && listing.RequestFailed? ==> r.outcome == Failed("Request failed: " + listing.err)
    ensures opts.list && listing.DecodeFailed? ==> r.outcome == Failed("Failed to decode response: " + listing.err)
    ensures !opts.list && Invalid(opts) <==> r.outcome == Usage
    ensures r.outcome == Usage ==> r.requests == []
    ensures !opts.list && !Invalid(opts) ==>
              r.requests == [RequestUrl(opts.amount, Text.ToUpper(opts.from), Text.ToUpper(opts.to), fixed)]
    ensures r.outcome.Listed? ==> opts.list && listing == Decoded(r.outcome.currencies)
    ensures r.outcome.Shown? || r.outcome == Unsupported ==> !opts.list && !Invalid(opts)
    ensures |r.requests| <= 1
  {
    if opts.list then
      match listing
      case Decoded(currencies) => Run([CurrenciesUrl], Listed(currencies))
      case RequestFailed(_) => Run([CurrenciesUrl], Failed(FailureMessage(listing)))
      case DecodeFailed(_) => Run([CurrenciesUrl], Failed(FailureMessage(listing)))
    else if Invalid(opts) then
      Run([], Usage)
    else
      Convert(opts, fixed, convert)
  }

  /** The printed result line (without its newline); `twoPlaces` stands for `%.2f`. */
  function Render(d: Display, twoPlaces: Float64 -> string): string {
    match d
    case WithSymbol(symbol, value) => symbol + twoPlaces(value)
    case WithCode(value, code) => twoPlaces(value) + " " + code
    case Bare(value) => twoPlaces(value)
  }

  const UsageText: seq<string> := [
    "Usage for conversion:",
    "  -amount <value> -from <currency> -to <currency>",
    "  -symbol   Show the currency symbol in the output",
    "Usage to list currencies:",
    "  -list"
  ]

  /** `listCurrencies`' lines for the codes in `order`, the order in which
      Go's map iteration happens to visit them. */
  function ListingLines(currencies: map<string, string>, order: seq<string>): (lines: seq<string>)
    requires forall k :: 0 <= k < |order| ==> order[k] in currencies
  {
    ["Supported currencies:"] + seq(|order|, k requires 0 <= k < |order| => order[k] + " - " + currencies[order[k]])
  }

  /** Everything a run prints (without newlines). */
  function Output(o: Outcome, twoPlaces: Float64 -> string, order: seq<string>): seq<string>
    requires o.Listed? ==> forall k :: 0 <= k < |order| ==> order[k] in o.currencies
  {
    match o
    case Listed(currencies) => ListingLines(currencies, order)
    case Usage => UsageText
    case Failed(message) => [message]
    case Unsupported => ["Currency not supported"]
    case Shown(d) => [Render(d, twoPlaces)]
  }

  /** Visiting every code once, the listing has one line per currency after
      its header, each naming the code and its name. */
  lemma ListingComplete(currencies: map<string, string>, order: seq<string>)
    requires forall k :: 0 <= k < |order| ==> order[k] in currencies
    requires |order| == |currencies.Keys|
    requires forall i, j :: 0 <= i < j < |order| ==> order[i] != order[j]
    ensures |ListingLines(currencies, order)| == |currencies| + 1
    ensures forall code :: code in currencies ==>
              exists k :: 1 <= k < |ListingLines(currencies, order)|
                          && ListingLines(currencies, order)[k] == code + " - " + currencies[code]
  {
    var lines := ListingLines(currencies, order);
    var visited := set k | 0 <= k < |order| :: order[k];
    DistinctCount(order);
    assert visited == currencies.Keys by {
      SubsetOfEqualSize(visited, currencies.Keys);
    }
    forall code | code in currencies
      ensures exists k :: 1 <= k < |lines| && lines[k] == code + " - " + currencies[code]
    {
      var k :| 0 <= k < |order| && order[k] == code;
      assert lines[k + 1] == code + " - " + currencies[code];
    }
  }

  /** A sequence without repetitions has as many distinct elements as entries. */
  lemma {:induction false} DistinctCount(order: seq<string>)
    requires forall i, j :: 0 <= i < j < |order| ==> order[i] != order[j]
    ensures |set k | 0 <= k < |order| :: order[k]| == |order|
  {
    if order != [] {
      var init := order[..|order| - 1];
      DistinctCount(init);
      var last := order[|order| - 1];
      assert (set k | 0 <= k < |order| :: order[k])
          == (set k | 0 <= k < |init| :: init[k]) + {last};
      assert last !in (set k | 0 <= k < |init| :: init[k]);
    }
  }

  lemma SubsetOfEqualSize<T>(a: set<T>, b: set<T>)
    requires a <= b && |a| == |b|
    ensures a == b
  {
    if a != b {
      var x :| x in b && x !in a;
      SubsetNoLarger(a, b - {x});
    }
  }

  lemma {:induction false} SubsetNoLarger<T>(a: set<T>, b: set<T>)
    requires a <= b
    ensures |a| <= |b|
    decreases |a|
  {
    if a != {} {
      var x :| x in a;
      SubsetNoLarger(a - {x}, b - {x});
    }
  }

  // Properties

  /** With `-list` nothing but the currencies request happens: the amount, the
      codes, the symbol flag and the conversion endpoint play no part. */
  lemma ListSkipsConversion(opts: Options, opts': Options, fixed: Float64 -> string, fixed': Float64 -> string,
                            listing: Reply<map<string, string>>,
                            convert: string -> Reply<ConvertResponse>, convert': string -> Reply<ConvertResponse>)
    requires opts.list && opts'.list
    ensures Execute(opts, fixed, listing, convert) == Execute(opts', fixed', listing, convert')
    ensures Execute(opts, fixed, listing, convert).outcome.Listed?
         || Execute(opts, fixed, listing, convert).outcome.Failed?
  {
  }

  /** A decoded listing ends the `-list` run with exit 0 and prints the header
      and one `code - name` line per currency. */
  lemma ListedRun(opts: Options, fixed: Float64 -> string, twoPlaces: Float64 -> string,
                  currencies: map<string, string>, convert: string -> Reply<ConvertResponse>, order: seq<string>)
    requires opts.list
    requires forall k :: 0 <= k < |order| ==> order[k] in currencies
    requires |order| == |currencies.Keys|
    requires forall i, j :: 0 <= i < j < |order| ==> order[i] != order[j]
    ensures var o := Execute(opts, fixed, Decoded(currencies), convert).outcome;
            && o == Listed(currencies)
            && ExitCode(o) == 0
            && |Output(o, twoPlaces, order)| == |currencies| + 1
            && Output(o, twoPlaces, order)[0] == "Supported currencies:"
            && forall code :: code in currencies ==>
                 exists k :: 1 <= k < |Output(o, twoPlaces, order)|
                             && Output(o, twoPlaces, order)[k] == code + " - " + currencies[code]
  {
    ListingComplete(currencies, order);
  }

  /** Without `-list`, the usage text ends the run, with exit code 1 and no
      request, exactly when the amount is not above zero or a code is empty. */
  lemma RejectedIff(opts: Options, fixed: Float64 -> string, twoPlaces: Float64 -> string,
                    listing: Reply<map<string, string>>, convert: string -> Reply<ConvertResponse>)
    requires !opts.list
    ensures var r := Execute(opts, fixed, listing, convert);
            (r.outcome == Usage <==> AtMostZero(opts.amount) || opts.from == "" || opts.to == "")
            && (r.outcome == Usage ==> r.requests == [] && ExitCode(r.outcome) == 1)
            && (r.outcome == Usage ==> Output(r.outcome, twoPlaces, []) == UsageText)
  {
  }

  /** A NaN amount passes the `<= 0` check; an infinite one is judged by its sign. */
  lemma NonFiniteAmounts(opts: Options)
    requires opts.from != "" && opts.to != ""
    ensures !Invalid(opts.(amount := NaN))
    ensures !Invalid(opts.(amount := PosInf))
    ensures Invalid(opts.(amount := NegInf))
  {
  }

  /** Codes that differ only in the case of ASCII letters make the same run. */
  lemma CodesCaseInsensitive(opts: Options, from': string, to': string, fixed: Float64 -> string,
                             listing: Reply<map<string, string>>, convert: string -> Reply<ConvertResponse>)
    requires Text.ToUpper(from') == Text.ToUpper(opts.from) && Text.ToUpper(to') == Text.ToUpper(opts.to)
    ensures Execute(opts.(from := from', to := to'), fixed, listing, convert) == Execute(opts, fixed, listing, convert)
  {
  }

  /** The request carries the upper-cased codes, so codes with no lower-case
      letter go out unchanged; upper-casing them again changes nothing. */
  lemma UpperCodesUnchanged(opts: Options, fixed: Float64 -> string, listing: Reply<map<string, string>>,
                            convert: string -> Reply<ConvertResponse>)
    requires !opts.list && !Invalid(opts)
    requires Text.NoLowerAscii(opts.from) && Text.NoLowerAscii(opts.to)
    ensures Execute(opts, fixed, listing, convert).requests == [RequestUrl(opts.amount, opts.from, opts.to, fixed)]
    ensures Text.ToUpper(Text.ToUpper(opts.from)) == Text.ToUpper(opts.from) == opts.from
    ensures Text.ToUpper(Text.ToUpper(opts.to)) == Text.ToUpper(opts.to) == opts.to
  {
    Text.ToUpperFixedIff(opts.from);
    Text.ToUpperFixedIff(opts.to);
    Text.ToUpperIdempotent(opts.from);
    Text.ToUpperIdempotent(opts.to);
  }

  /** A failed request or decoding ends the run with its message and exit 1,
      before any rate is looked up. */
  lemma ReplyFailure(opts: Options, fixed: Float64 -> string, listing: Reply<map<string, string>>,
                     convert: string -> Reply<ConvertResponse>)
    requires !opts.list && !Invalid(opts)
    requires !convert(RequestUrl(opts.amount, Text.ToUpper(opts.from), Text.ToUpper(opts.to), fixed)).Decoded?
    ensures var reply := convert(RequestUrl(opts.amount, Text.ToUpper(opts.from), Text.ToUpper(opts.to), fixed));
            && Execute(opts, fixed, listing, convert).outcome == Failed(FailureMessage(reply))
            && (reply.RequestFailed? ==> FailureMessage(reply) == "Request failed: " + reply.err)
            && (reply.DecodeFailed? ==> FailureMessage(reply) == "Failed to decode response: " + reply.err)
            && ExitCode(Execute(opts, fixed, listing, convert).outcome) == 1
  {
  }

  /** A target code missing from the returned rates is "Currency not supported". */
  lemma MissingRateUnsupported(opts: Options, fixed: Float64 -> string, twoPlaces: Float64 -> string,
                               listing: Reply<map<string, string>>, convert: string -> Reply<ConvertResponse>)
    requires !opts.list && !Invalid(opts)
    requires var reply := convert(RequestUrl(opts.amount, Text.ToUpper(opts.from), Text.ToUpper(opts.to), fixed));
             reply.Decoded? && Text.ToUpper(opts.to) !in reply.value.rates
    ensures Execute(opts, fixed, listing, convert).outcome == Unsupported
    ensures Output(Execute(opts, fixed, listing, convert).outcome, twoPlaces, []) == ["Currency not supported"]
    ensures ExitCode(Execute(opts, fixed, listing, convert).outcome) == 1
  {
  }

  /** The rate of the upper-cased target code, when the reply has one. */
  predicate HasRate(opts: Options, fixed: Float64 -> string, convert: string -> Reply<ConvertResponse>, rate: Float64) {
    var to := Text.ToUpper(opts.to);
    var reply := convert(RequestUrl(opts.amount, Text.ToUpper(opts.from), to, fixed));
    reply.Decoded? && to in reply.value.rates && reply.value.rates[to] == rate
  }

  /** With `-symbol` and a code in the table the line is the symbol followed by
      the two-decimal rate. */
  lemma SymbolLine(opts: Options, fixed: Float64 -> string, listing: Reply<map<string, string>>,
                   convert: string -> Reply<ConvertResponse>, rate: Float64, twoPlaces: Float64 -> string)
    requires !opts.list && !Invalid(opts) && HasRate(opts, fixed, convert, rate)
    requires opts.symbol && Text.ToUpper(opts.to) in Symbols
    ensures var o := Execute(opts, fixed, listing, convert).outcome;
            o.Shown? && Output(o, twoPlaces, []) == [Symbols[Text.ToUpper(opts.to)] + twoPlaces(rate)]
  {
  }

  /** With `-symbol` and a code outside the table the line is the rate, a
      space and the code. */
  lemma CodeFallbackLine(opts: Options, fixed: Float64 -> string, listing: Reply<map<string, string>>,
                         convert: string -> Reply<ConvertResponse>, rate: Float64, twoPlaces: Float64 -> string)
    requires !opts.list && !Invalid(opts) && HasRate(opts, fixed, convert, rate)
    requires opts.symbol && Text.ToUpper(opts.to) !in Symbols
    ensures var o := Execute(opts, fixed, listing, convert).outcome;
            o.Shown? && Output(o, twoPlaces, []) == [twoPlaces(rate) + " " + Text.ToUpper(opts.to)]
  {
  }

  /** Without `-symbol` the line is the bare rate, whatever the code. */
  lemma BareLine(opts: Options, fixed: Float64 -> string, listing: Reply<map<string, string>>,
                 convert: string -> Reply<ConvertResponse>, rate: Float64, twoPlaces: Float64 -> string)
    requires !opts.list && !Invalid(opts) && HasRate(opts, fixed, convert, rate)
    requires !opts.symbol
    ensures var o := Execute(opts, fixed, listing, convert).outcome;
            o.Shown? && Output(o, twoPlaces, []) == [twoPlaces(rate)]
            && ExitCode(o) == 0
  {
  }

  /** The dollar codes share "$" and the Scandinavian codes share "kr". */
  lemma SharedSymbols()
    ensures Symbols["USD"] == Symbols["CAD"] == Symbols["AUD"] == Symbols["NZD"] == "$"
    ensures Symbols["SEK"] == Symbols["NOK"] == Symbols["DKK"] == "kr"
  {
  }

  /** No other code of the table shows "$" or "kr". */
  lemma SymbolGroups(code: string)
    requires code in Symbols
    ensures Symbols[code] == "$" <==> code in {"USD", "CAD", "AUD", "NZD"}
    ensures Symbols[code] == "kr" <==> code in {"SEK", "NOK", "DKK"}
  {
  }
}
