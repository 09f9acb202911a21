# cnb-fxrates in Dafny

A model of `cnb-fxrates.py`, a command-line tool that prints the Czech
National Bank's exchange rate of one currency against the Czech koruna for
a given day. The tool fetches the bank's daily fixing file, a text file whose
first line identifies the fixing (date and sequence number), whose second
line names the columns, and whose remaining lines read
`country|currency|amount|code|rate`. It turns the file into a dictionary from
currency code to rate text and prints the entry for the requested code.

The project has three modules:

- `Strings` (`strings.dfy`): Python's `str.split(sep)` and `sep.join(...)`
  for a one-character separator, with the round trip between them and the
  facts the parser needs (when a line splits into more than one field, what
  splitting does around the first and the last separator).
- `CnbRates` (`rates.dfy`): the parsing loop of `get_fx_rates`. `FoldRates`
  is the loop as a function over the lines after the header (stop at the
  first error, skip empty lines, store the last two fields as code and rate);
  `GetFxRates` is the loop itself as a method with a `while` loop that builds the
  dictionary line by line in a local variable, proved equal to `ParseRates`. The
  lemmas state what the result is for every input: which lines contribute,
  which line's rate wins, when the loop raises and on which line.
- `CnbCli` (`cli.dfy`): the pure parts of `main`: the list of 33 accepted
  codes and the error line that lists them, the `?date=DD.MM.YYYY` query
  with its inverse, and `Run`, one whole invocation in which the network is
  a parameter `serve` (address to decoded body), so that which addresses are
  fetched is part of the result.

Python's `IndexError` on a non-empty line without `|` (`fields[-2]` of a
one-element list) is the error value `MissingSeparator(line)`; the
`KeyError` of the final lookup and the status-1 exit on an unknown code are
outcomes of `Run`. An uncaught exception ends the Python process with status
1, so `ExitStatus` is 0 only when a rate was printed.

## Model

| member | source | states |
|---|---|---|
| `CnbRates.GetFxRates` | cnb-fxrates.py:17-25 | the loop, building the dictionary line by line in a local variable, returns exactly the parser's result: blank lines skipped, code to rate stored per line, first malformed line raises |
| `CnbRates.ParseRates` | cnb-fxrates.py:17-25 | the result for the decoded file: success exactly when no line after the header is malformed; then the codes are exactly the second-to-last fields of the body lines, and each code maps to the last field of the last line carrying it |
| `CnbRates.FoldRates` | cnb-fxrates.py:17-25 | the loop over the body lines; an error always names a non-empty body line without `\|` |
| `CnbRates.Step` | cnb-fxrates.py:19-23 | one pass: an empty line leaves the dictionary alone; a non-empty line without `\|` is the error, carrying that line; otherwise the line's code maps to its rate, the keys are the old keys plus that code, and every other entry is kept |
| `CnbRates.Body` | cnb-fxrates.py:18 | empty when the file has at most two lines, and no body line contains a newline; that the body is exactly the lines after the first two is stated through `ParseRates` by `HeaderIgnored` and `HeaderOnlyFile` |
| `CnbRates.HeaderOnlyFile` | cnb-fxrates.py:18 | a file of at most two lines yields an empty dictionary |
| `CnbRates.HeaderIgnored` | cnb-fxrates.py:18 | whatever the identifier and header lines hold, the result is that of the loop over the lines after them |
| `CnbRates.BlankLineIgnored` | cnb-fxrates.py:20-22 | inserting an empty line anywhere in the body does not change the result |
| `CnbRates.TrailingNewlineIgnored` | cnb-fxrates.py:20-22 | a file with a trailing newline parses exactly like the same file without it |
| `CnbRates.FoldRatesOutcome` | cnb-fxrates.py:19-23 | parsing succeeds if and only if no kept line is malformed; on failure the error names the first malformed line |
| `CnbRates.MalformedIffNoSeparator` | cnb-fxrates.py:19-23 | a kept line makes `fields[-2]` fail exactly when it is non-empty and has no `\|` |
| `CnbRates.FoldRatesErrPersists` | cnb-fxrates.py:23 | once a line has raised, later lines do not change the outcome |
| `CnbRates.FoldRatesKeyAt` | cnb-fxrates.py:17-25 | on success, a given code is in the dictionary exactly when some non-empty body line carries it |
| `CnbRates.FoldRatesKeys` | cnb-fxrates.py:17-25 | on success the dictionary's codes are exactly the second-to-last fields of the non-empty lines |
| `CnbRates.FoldRatesLastWins` | cnb-fxrates.py:23 | the rate stored for a code is the last field of the last line carrying that code |
| `CnbRates.LaterLineWins` | cnb-fxrates.py:23 | of two adjacent lines with the same code, wherever they stand in the body, the first can be dropped: the later line's rate replaces it |
| `CnbRates.FoldRatesOrigin` | cnb-fxrates.py:17-25 | every entry comes from a non-empty body line with that code and that rate, the last line carrying the code; nothing is invented |
| `CnbRates.FoldRatesSize` | cnb-fxrates.py:17-25 | the dictionary has at most as many entries as the body has non-empty lines |
| `CnbRates.EarlierFieldsIgnored` | cnb-fxrates.py:19-23 | fields before the last two do not matter: code and rate are the last two fields whatever precedes them |
| `CnbRates.SingleLineFile` | cnb-fxrates.py:17-25 | a header plus one rate line plus the final newline yields exactly that line's code and rate |
| `Strings.Split` | cnb-fxrates.py:18-19 | `split` returns at least one piece, no piece holds the separator, and joining the pieces gives the input back |
| `Strings.SplitJoin` | cnb-fxrates.py:18-19 | splitting a join of separator-free pieces gives those pieces back |
| `Strings.SplitCount` | cnb-fxrates.py:19 | a line splits into two or more fields exactly when it contains the separator |
| `CnbCli.ValidCurrenciesShape` | cnb-fxrates.py:41-75 | the accepted list holds 33 distinct codes of three capital letters |
| `CnbCli.IsValidCurrency` | cnb-fxrates.py:80 | the membership test against the list; only a code of three capital letters can pass |
| `CnbCli.InvalidCurrencyMessage` | cnb-fxrates.py:81-83 | the error line is the fixed prefix followed by exactly the accepted codes, space-separated, in list order |
| `CnbCli.TestedCodesRejected` | cnb-fxrates.py:80-84 | the codes `foo` and `2022-01-01` end with status 1 and nothing is fetched |
| `CnbCli.Digits` | cnb-fxrates.py:78 | zero-padded decimal text of a fixed width whose digits denote the number |
| `CnbCli.DateQuery` | cnb-fxrates.py:78 | the query is `?date=`, two-digit day, dot, two-digit month, dot, four-digit year, each denoting the date's field |
| `CnbCli.DateQueryRoundTrip` | cnb-fxrates.py:78 | the date can be read back from its query |
| `CnbCli.DateQueryInjective` | cnb-fxrates.py:78 | different dates give different queries |
| `CnbCli.DateQueryExample` | cnb-fxrates.py:78 | the date 2022-02-01 gives `?date=01.02.2022` |
| `CnbCli.Run` | cnb-fxrates.py:76-87 | an unknown code prints the error line, exits with status 1 and fetches nothing; a known code passes the check and fetches the file address plus the date query once; then the outcome is an `IndexError` on the first malformed body line, else the dictionary's entry for the code (the last body line carrying it) is printed, else a `KeyError`; status 0 exactly when a rate is printed |

## Left out

- Fetching and decoding (`urlopen`, UTF-8 decoding, cnb-fxrates.py:14-15) are network I/O and a library call; the parser takes the decoded text, and `Run` takes the server as the function `serve`.
- Argument parsing (`argparse`, usage errors, cnb-fxrates.py:31-39) and the default date `date.today()` are library and clock behaviour; `Run` receives the currency text and a date value.
- `date.fromisoformat` (cnb-fxrates.py:76) is a library call; `Run` receives an already valid date, so malformed date text, and swapped arguments, which fail there before the currency check, are not modelled.
- `print` and `sys.exit` are represented by the `Outcome` value and `ExitStatus`; which stream a line goes to, the trailing newline of `print` and the text of a traceback are not modelled.
- `CnbCli.DateQuery`: states four zero-padded year digits; for years below 1000 some platforms' `strftime('%Y')` writes fewer digits, and that platform dependence is not modelled.
- `CnbCli.Run`: `serve` always returns a decoded body, so a failed fetch (`HTTPError`, `URLError`) or a failed UTF-8 decoding (`UnicodeDecodeError`), which in Python also end with status 1, is never an outcome of the model.
- The dictionary's insertion order is not modelled (a Dafny `map` has none); nothing in `main` depends on it.
- The line carried by the model's `IndexError(line)` and `MissingSeparator(line)` is a detail of the model: Python's exception only says "list index out of range".
- Rates stay text, as in the source; the amount column (rates quoted per 100 units for some currencies) is ignored by the source and by the model.
- The other tools of the repository (homesync, normname, motd, bashlib, medik-tedik-dl, and the `fxrates` executable its tests run) are separate programs, outside this model.
