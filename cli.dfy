/**
 * The pure logic of `main` in cnb-fxrates.py: the fixed list of accepted
 * currency codes, the `?date=DD.MM.YYYY` query appended to the rates-file
 * address, and one whole invocation with the network served by a parameter.
 */
module CnbCli {
  import opened Strings
  import opened CnbRates

  datatype Option<T> = None | Some(value: T)

  /** The ISO codes the program accepts, in the order of its error message. */
  const ValidCurrencies: seq<string> := [
    "AUD", "BGN", "BRL", "CAD", "CHF", "CNY", "DKK", "EUR", "GBP", "HKD", "HRK",
    "HUF", "IDR", "ILS", "INR", "ISK", "JPY", "KRW", "MXN", "MYR", "NOK", "NZD",
    "PHP", "PLN", "RON", "RUB", "SEK", "SGD", "THB", "TRY", "USD", "XDR", "ZAR"
  ]

  /** Address of the daily fixing file; the date goes into its query string. */
  const RatesFileUrl: string :=
    "https://www.cnb.cz/en/financial-markets/foreign-exchange-market/central-bank-exchange-rate-fixing/central-bank-exchange-rate-fixing/daily.txt"

  const InvalidCurrencyPrefix: string := "error: invalid currency code; valid codes: "

  /**
   * The line printed for a code outside the list: the prefix, then exactly
   * the accepted codes, in list order, separated by spaces.
   */
  function InvalidCurrencyMessage(): (m: string)
    ensures |InvalidCurrencyPrefix| <= |m| && m[..|InvalidCurrencyPrefix|] == InvalidCurrencyPrefix
    ensures Split(m[|InvalidCurrencyPrefix|..], ' ') == ValidCurrencies
  {
    var m := InvalidCurrencyPrefix + Join(ValidCurrencies, ' ');
    ValidCurrenciesShape();
    assert m[|InvalidCurrencyPrefix|..] == Join(ValidCurrencies, ' ');
    SplitJoin(ValidCurrencies, ' ');
    m
  }

  /** The membership test of `main`; only three-capital-letter codes can pass it. */
  predicate IsValidCurrency(code: string)
    ensures IsValidCurrency(code) ==> |code| == 3 && forall j :: 0 <= j < 3 ==> IsUpperLetter(code[j])
  {
    ValidCurrenciesShape();
    code in ValidCurrencies
  }

  predicate IsUpperLetter(c: char)
  {
    'A' <= c <= 'Z'
  }

  /** The list holds 33 distinct codes, each of three capital letters. */
  lemma ValidCurrenciesShape()
    ensures |ValidCurrencies| == 33
    ensures forall i :: 0 <= i < |ValidCurrencies| ==>
      |ValidCurrencies[i]| == 3 && forall j :: 0 <= j < 3 ==> IsUpperLetter(ValidCurrencies[i][j])
    ensures forall i, j :: 0 <= i < j < |ValidCurrencies| ==> ValidCurrencies[i] != ValidCurrencies[j]
  {
  }

  // ---------------------------------------------------------------------
  // The date query

  /** A calendar date as Python's `date` holds it. */
  datatype Date = Date(year: int, month: int, day: int)

  predicate IsLeapYear(year: int)
  {
    year % 4 == 0 && (year % 100 != 0 || year % 400 == 0)
  }

  function DaysInMonth(year: int, month: int): int
    requires 1 <= month <= 12
  {
    if month == 2 then (if IsLeapYear(year) then 29 else 28)
    else if month == 4 || month == 6 || month == 9 || month == 11 then 30
    else 31
  }

  /** The dates a Python `date` can hold: years 1 to 9999 of the Gregorian calendar. */
  predicate ValidDate(d: Date)
  {
    1 <= d.year <= 9999 && 1 <= d.month <= 12 && 1 <= d.day <= DaysInMonth(d.year, d.month)
  }

  function Pow10(n: nat): nat
  {
    if n == 0 then 1 else 10 * Pow10(n - 1)
  }

  predicate IsDigit(c: char)
  {
    '0' <= c <= '9'
  }

  predicate AllDigits(s: string)
  {
    forall i :: 0 <= i < |s| ==> IsDigit(s[i])
  }

  /** The number a string of decimal digits denotes. */
  function DigitsValue(s: string): nat
    requires AllDigits(s)
  {
    if s == [] then 0
    else 10 * DigitsValue(s[..|s| - 1]) + (s[|s| - 1] as int - '0' as int)
  }

  /**
   * `n` written in decimal with exactly `width` digits, padded with leading
   * zeros, as strftime writes `%d`, `%m` and `%Y`.
   */
  function Digits(n: nat, width: nat): (s: string)
    requires n < Pow10(width)
    ensures |s| == width && AllDigits(s)
    ensures DigitsValue(s) == n
  {
    if width == 0 then ""
    else
      var s := Digits(n / 10, width - 1) + [('0' as int + n % 10) as char];
      assert s[..|s| - 1] == Digits(n / 10, width - 1);
      s
  }

  /**
   * The query string `?date=DD.MM.YYYY`: two-digit day, two-digit month and
   * four-digit year, zero-padded and separated by dots.
   */
  function DateQuery(d: Date): (q: string)
    requires ValidDate(d)
    ensures |q| == 16 && q[..6] == "?date=" && q[8] == '.' && q[11] == '.'
    ensures AllDigits(q[6..8]) && DigitsValue(q[6..8]) == d.day
    ensures AllDigits(q[9..11]) && DigitsValue(q[9..11]) == d.month
    ensures AllDigits(q[12..16]) && DigitsValue(q[12..16]) == d.year
  {
    var q := "?date=" + Digits(d.day, 2) + "." + Digits(d.month, 2) + "." + Digits(d.year, 4);
    assert q[6..8] == Digits(d.day, 2);
    assert q[9..11] == Digits(d.month, 2);
    assert q[12..16] == Digits(d.year, 4);
    q
  }

  /** Reads the date back from a query string of the form `DateQuery` writes. */
  function ParseDateQuery(q: string): Option<Date>
  {
    if |q| == 16 && q[..6] == "?date=" && q[8] == '.' && q[11] == '.'
       && AllDigits(q[6..8]) && AllDigits(q[9..11]) && AllDigits(q[12..16])
    then Some(Date(DigitsValue(q[12..16]), DigitsValue(q[9..11]), DigitsValue(q[6..8])))
    else None
  }

  /** The query carries the whole date: reading it back gives the date again. */
  lemma DateQueryRoundTrip(d: Date)
    requires ValidDate(d)
    ensures ParseDateQuery(DateQuery(d)) == Some(d)
  {
  }

  /** Distinct dates give distinct queries. */
  lemma DateQueryInjective(d: Date, e: Date)
    requires ValidDate(d) && ValidDate(e)
    requires DateQuery(d) == DateQuery(e)
    ensures d == e
  {
    DateQueryRoundTrip(d);
    DateQueryRoundTrip(e);
  }

  // ---------------------------------------------------------------------
  // One invocation

  /** The exceptions that escape `main`: `fields[-2]` and then `fx_rates[currency]`. */
  datatype Exception = IndexError(line: string) | KeyError(code: string)

  /** What the invocation ends with: one printed line, or an exception. */
  datatype Outcome =
    | Printed(rate: string)
    | InvalidCurrency(message: string)
    | Raised(exception: Exception)

  /** The addresses fetched, in order, and how the invocation ended. */
  datatype Invocation = Invocation(requested: seq<string>, outcome: Outcome)

  /** Exit status: 0 after printing a rate; 1 after `sys.exit(1)` or an uncaught exception. */
  function ExitStatus(outcome: Outcome): nat
  {
    if outcome.Printed? then 0 else 1
  }

  /**
   * `main` for a currency argument and an already parsed date; `serve` gives
   * the decoded body the server returns for an address.
   */
  function Run(currency: string, date: Date, serve: string -> string): (r: Invocation)
    requires ValidDate(date)
    // An unknown code: the error line, status 1, and nothing fetched.
    ensures !IsValidCurrency(currency) ==>
      r.requested == [] && r.outcome == InvalidCurrency(InvalidCurrencyMessage()) && ExitStatus(r.outcome) == 1
    // A known code: the rates file for the date is fetched once, and the check is passed.
    ensures IsValidCurrency(currency) ==>
      r.requested == [RatesFileUrl + DateQuery(date)] && !r.outcome.InvalidCurrency?
    // A known code: `IndexError` on the first malformed line, else `fx_rates[currency]` or `KeyError`.
    ensures IsValidCurrency(currency) ==>
      var body := Body(serve(RatesFileUrl + DateQuery(date)));
      match FoldRates(body)
      case Err(e) => r.outcome == Raised(IndexError(e.line))
      case Ok(rates) =>
        r.outcome == (if currency in rates then Printed(rates[currency]) else Raised(KeyError(currency)))
    // Status 0 exactly when the code is known, the file parses and holds the code.
    ensures ExitStatus(r.outcome) == 0 <==>
      var parsed := FoldRates(Body(serve(RatesFileUrl + DateQuery(date))));
      IsValidCurrency(currency) && parsed.Ok? && currency in parsed.value
    // A printed rate is that of the last body line carrying the code.
    ensures r.outcome.Printed? ==>
      var body := Body(serve(RatesFileUrl + DateQuery(date)));
      IsValidCurrency(currency) &&
      exists i :: (0 <= i < |body| && IsRateLine(body[i]) && Code(body[i]) == currency &&
                   Rate(body[i]) == r.outcome.rate &&
                   forall j :: i < j < |body| && IsRateLine(body[j]) ==> Code(body[j]) != currency)
    // `KeyError`: the file parsed, but no body line carries the code.
    ensures r.outcome.Raised? && r.outcome.exception.KeyError? ==>
      var body := Body(serve(RatesFileUrl + DateQuery(date)));
      IsValidCurrency(currency) && FoldRates(body).Ok? &&
      forall i :: 0 <= i < |body| && IsRateLine(body[i]) ==> Code(body[i]) != currency
  {
    var query := DateQuery(date);
    if !IsValidCurrency(currency) then
      Invocation([], InvalidCurrency(InvalidCurrencyMessage()))
    else
      var url := RatesFileUrl + query;
      var body := Body(serve(url));
      match FoldRates(body)
      case Err(e) => Invocation([url], Raised(IndexError(e.line)))
      case Ok(rates) =>
        FoldRatesKeys(body);
        if currency in rates then
          FoldRatesOrigin(body, currency);
          Invocation([url], Printed(rates[currency]))
        else
          Invocation([url], Raised(KeyError(currency)))
  }

  /** The codes the tests pass as invalid stop the program with status 1 before any fetch. */
  lemma TestedCodesRejected(date: Date, serve: string -> string)
    requires ValidDate(date)
    ensures Run("foo", date, serve).requested == []
    ensures ExitStatus(Run("foo", date, serve).outcome) == 1
    ensures Run("2022-01-01", date, serve).requested == []
    ensures ExitStatus(Run("2022-01-01", date, serve).outcome) == 1
  {
    assert !IsUpperLetter("foo"[0]);
    assert !IsValidCurrency("foo");
    assert |"2022-01-01"| != 3;
    assert !IsValidCurrency("2022-01-01");
  }

  /** The query for the tests' date 2022-02-01. */
  lemma DateQueryExample()
    ensures DateQuery(Date(2022, 2, 1)) == "?date=01.02.2022"
  {
  }
}
