/**
 * The parser of the Czech National Bank daily exchange-rate file
 * (`get_fx_rates` in cnb-fxrates.py), over the already decoded text.
 *
 * The file is a header of two lines (the date with a sequence number, then
 * the column names) followed by one line per currency, with `|` between the
 * columns: country, currency, amount, code, rate. The parser keeps, for every
 * non-empty line after the header, the last two columns as code and rate.
 */
module CnbRates {
  import opened Strings

  const LineSeparator: char := '\n'
  const FieldSeparator: char := '|'

  /** Number of leading lines (identifier and column header) that are skipped. */
  const HeaderLines: nat := 2

  /**
   * A non-empty line of the body with no `|` splits into one field, and
   * reading its second-to-last field raises Python's IndexError.
   */
  datatype ParseError = MissingSeparator(line: string)

  datatype Result<T> = Ok(value: T) | Err(error: ParseError)

  /** Currency code to rate, both kept as the text of the file. */
  type Rates = map<string, string>

  function Fields(line: string): seq<string>
  {
    Split(line, FieldSeparator)
  }

  /** A line that contributes an entry: not empty, and at least two fields. */
  predicate IsRateLine(line: string)
  {
    line != "" && |Fields(line)| >= 2
  }

  /** The second-to-last field of a rate line. */
  function Code(line: string): string
    requires IsRateLine(line)
  {
    var fields := Fields(line);
    fields[|fields| - 2]
  }

  /** The last field of a rate line. */
  function Rate(line: string): string
    requires IsRateLine(line)
  {
    var fields := Fields(line);
    fields[|fields| - 1]
  }

  /** The lines after the header: `data.split("\n")[2:]`. */
  function Body(data: string): (body: seq<string>)
    ensures |Split(data, LineSeparator)| <= HeaderLines ==> body == []
    ensures forall i :: 0 <= i < |body| ==> LineSeparator !in body[i]
  {
    var lines := Split(data, LineSeparator);
    if |lines| < HeaderLines then [] else lines[HeaderLines..]
  }

  /**
   * One pass of the loop: skip an empty line, raise on a line without `|`,
   * otherwise store code -> rate and leave every other entry as it was.
   */
  function Step(rates: Rates, line: string): (r: Result<Rates>)
    ensures r.Err? <==> line != "" && FieldSeparator !in line
    ensures r.Err? ==> r.error.line == line
    ensures line == "" ==> r == Ok(rates)
    ensures r.Ok? && line != "" ==> Code(line) in r.value && r.value[Code(line)] == Rate(line)
    ensures r.Ok? && line != "" ==> r.value.Keys == rates.Keys + {Code(line)}
    ensures r.Ok? ==> forall k :: k in rates && (line == "" || k != Code(line)) ==> k in r.value && r.value[k] == rates[k]
  {
    SplitCount(line, FieldSeparator);
    if line == "" then Ok(rates)
    else if !IsRateLine(line) then Err(MissingSeparator(line))
    else Ok(rates[Code(line) := Rate(line)])
  }

  /**
   * The loop over `lines`, from an empty dictionary, stopping at the first
   * error; an error always names one of the lines, a non-empty one without `|`.
   */
  function FoldRates(lines: seq<string>): (r: Result<Rates>)
    ensures r.Err? ==> r.error.line in lines && r.error.line != "" && FieldSeparator !in r.error.line
  {
    if lines == [] then Ok(map[])
    else
      match FoldRates(lines[..|lines| - 1])
      case Err(e) => Err(e)
      case Ok(rates) => Step(rates, lines[|lines| - 1])
  }

  /** What `get_fx_rates` returns (or raises) for the decoded file `data`. */
  function ParseRates(data: string): (r: Result<Rates>)
    ensures r.Ok? <==> forall i :: 0 <= i < |Body(data)| ==> !IsMalformed(Body(data)[i])
    ensures r.Ok? ==> forall k :: k in r.value <==>
      exists i :: 0 <= i < |Body(data)| && IsRateLine(Body(data)[i]) && Code(Body(data)[i]) == k
    ensures r.Ok? ==> forall i :: (0 <= i < |Body(data)| && IsRateLine(Body(data)[i]) &&
                                   (forall j :: i < j < |Body(data)| && IsRateLine(Body(data)[j]) ==>
                                                Code(Body(data)[j]) != Code(Body(data)[i]))) ==>
                                  Code(Body(data)[i]) in r.value && r.value[Code(Body(data)[i])] == Rate(Body(data)[i])
  {
    var body := Body(data);
    var r := FoldRates(body);
    FoldRatesOutcome(body);
    if r.Ok? then
      FoldRatesKeys(body);
      forall i | 0 <= i < |body| && IsRateLine(body[i]) &&
        (forall j :: i < j < |body| && IsRateLine(body[j]) ==> Code(body[j]) != Code(body[i]))
        ensures Code(body[i]) in r.value && r.value[Code(body[i])] == Rate(body[i])
      {
        FoldRatesLastWins(body, i);
      }
      r
    else r
  }

  /**
   * The parsing loop of `get_fx_rates`, filling a dictionary line by line.
   */
  method GetFxRates(data: string) returns (r: Result<Rates>)
    ensures r == ParseRates(data)
  {
    var lines := Split(data, LineSeparator);
    var body := if |lines| < HeaderLines then [] else lines[HeaderLines..];
    var fxRates: Rates := map[];
    var i := 0;
    while i < |body|
      invariant 0 <= i <= |body|
      invariant FoldRates(body[..i]) == Ok(fxRates)
    {
      var line := body[i];
      var fields := Split(line, FieldSeparator);
      assert body[..i + 1][..i] == body[..i];
      if line == "" {
        i := i + 1;
        continue;
      }
      if |fields| < 2 {
        r := Err(MissingSeparator(line));
        FoldRatesErrPersists(body[..i + 1], body[i + 1..]);
        assert body[..i + 1] + body[i + 1..] == body;
        return;
      }
      fxRates := fxRates[fields[|fields| - 2] := fields[|fields| - 1]];
      i := i + 1;
    }
    assert body[..i] == body;
    r := Ok(fxRates);
  }

  // ---------------------------------------------------------------------
  // Properties of the parser

  /** Once a line has raised, the lines after it change nothing. */
  lemma {:induction false} FoldRatesErrPersists(lines: seq<string>, more: seq<string>)
    requires FoldRates(lines).Err?
    ensures FoldRates(lines + more) == FoldRates(lines)
    decreases |more|
  {
    if more != [] {
      var init := more[..|more| - 1];
      assert (lines + more)[..|lines + more| - 1] == lines + init;
      FoldRatesErrPersists(lines, init);
    } else {
      assert lines + more == lines;
    }
  }

  /** A kept line that makes `fields[-2]` raise: non-empty with a single field. */
  predicate IsMalformed(line: string)
  {
    line != "" && !IsRateLine(line)
  }

  /** Number of non-empty lines. */
  function NonEmptyCount(lines: seq<string>): nat
  {
    if lines == [] then 0
    else NonEmptyCount(lines[..|lines| - 1]) + (if lines[|lines| - 1] == "" then 0 else 1)
  }

  /** A line is malformed exactly when it is non-empty and holds no `|`. */
  lemma MalformedIffNoSeparator(line: string)
    ensures IsMalformed(line) <==> line != "" && FieldSeparator !in line
  {
    SplitCount(line, FieldSeparator);
  }

  /**
   * The identifier line and the column header never contribute, whatever
   * they hold: the result is that of the loop over the lines after them.
   */
  lemma HeaderIgnored(id: string, header: string, rest: string)
    requires LineSeparator !in id && LineSeparator !in header
    ensures ParseRates(id + [LineSeparator] + header + [LineSeparator] + rest)
         == FoldRates(Split(rest, LineSeparator))
  {
    var data := id + [LineSeparator] + header + [LineSeparator] + rest;
    assert data == id + [LineSeparator] + (header + [LineSeparator] + rest);
    SplitAfterFirst(id, header + [LineSeparator] + rest, LineSeparator);
    SplitAfterFirst(header, rest, LineSeparator);
    var lines := Split(data, LineSeparator);
    assert lines == [id] + ([header] + Split(rest, LineSeparator));
    assert lines[HeaderLines..] == Split(rest, LineSeparator);
  }

  /** An empty line anywhere in the body is skipped. */
  lemma {:induction false} BlankLineIgnored(before: seq<string>, after: seq<string>)
    ensures FoldRates(before + [""] + after) == FoldRates(before + after)
    decreases |after|
  {
    if after == [] {
      assert (before + [""] + after)[..|before|] == before;
      assert before + after == before;
    } else {
      var init := after[..|after| - 1];
      var last := after[|after| - 1];
      var xs := before + [""] + after;
      var ys := before + after;
      assert xs[..|xs| - 1] == before + [""] + init;
      assert ys[..|ys| - 1] == before + init;
      assert xs[|xs| - 1] == last && ys[|ys| - 1] == last;
      BlankLineIgnored(before, init);
    }
  }

  /** A file that ends with a newline parses as the same file without it. */
  lemma TrailingNewlineIgnored(data: string)
    ensures ParseRates(data + [LineSeparator]) == ParseRates(data)
  {
    var lines := Split(data, LineSeparator);
    SplitBeforeLast(data, "", LineSeparator);
    assert data + [LineSeparator] + "" == data + [LineSeparator];
    var longer := Split(data + [LineSeparator], LineSeparator);
    assert longer == lines + [""];
    if |lines| >= HeaderLines {
      assert longer[HeaderLines..] == lines[HeaderLines..] + [""];
      BlankLineIgnored(lines[HeaderLines..], []);
      assert lines[HeaderLines..] + [""] + [] == lines[HeaderLines..] + [""];
      assert lines[HeaderLines..] + [] == lines[HeaderLines..];
    }
  }

  /**
   * The loop succeeds exactly when no line is malformed, and otherwise
   * reports the first malformed line.
   */
  lemma {:induction false} FoldRatesOutcome(lines: seq<string>)
    ensures FoldRates(lines).Ok? <==> forall i :: 0 <= i < |lines| ==> !IsMalformed(lines[i])
    ensures FoldRates(lines).Err? ==>
      exists i :: 0 <= i < |lines| && IsMalformed(lines[i])
        && FoldRates(lines).error.line == lines[i]
        && forall j :: 0 <= j < i ==> !IsMalformed(lines[j])
    decreases |lines|
  {
    if lines != [] {
      var n := |lines| - 1;
      var init := lines[..n];
      FoldRatesOutcome(init);
      assert forall i :: 0 <= i < n ==> lines[i] == init[i];
      if FoldRates(init).Err? {
        var i :| 0 <= i < |init| && IsMalformed(init[i])
          && FoldRates(init).error.line == init[i]
          && forall j :: 0 <= j < i ==> !IsMalformed(init[j]);
        assert IsMalformed(lines[i]);
      } else if IsMalformed(lines[n]) {
        assert FoldRates(lines).error.line == lines[n];
      }
    }
  }

  /** Whether some rate line of `lines` carries the code `k`. */
  predicate HasCode(lines: seq<string>, k: string)
  {
    exists i :: 0 <= i < |lines| && IsRateLine(lines[i]) && Code(lines[i]) == k
  }

  /** On success, `k` is a code of the dictionary exactly when some rate line carries it. */
  lemma {:induction false} FoldRatesKeyAt(lines: seq<string>, k: string)
    requires FoldRates(lines).Ok?
    ensures k in FoldRates(lines).value <==> HasCode(lines, k)
    decreases |lines|
  {
    if lines != [] {
      var n := |lines| - 1;
      var init := lines[..n];
      FoldRatesKeyAt(init, k);
      var prev := FoldRates(init).value;
      assert Step(prev, lines[n]) == FoldRates(lines);
      if HasCode(init, k) {
        var i :| 0 <= i < |init| && IsRateLine(init[i]) && Code(init[i]) == k;
        assert lines[i] == init[i];
      }
      if HasCode(lines, k) {
        var i :| 0 <= i < |lines| && IsRateLine(lines[i]) && Code(lines[i]) == k;
        if i < n {
          assert lines[i] == init[i];
        }
      }
    }
  }

  /**
   * On success, the codes in the dictionary are exactly the second-to-last
   * fields of the non-empty lines.
   */
  lemma FoldRatesKeys(lines: seq<string>)
    requires FoldRates(lines).Ok?
    ensures forall k :: k in FoldRates(lines).value <==>
      exists i :: 0 <= i < |lines| && IsRateLine(lines[i]) && Code(lines[i]) == k
  {
    forall k
      ensures k in FoldRates(lines).value <==>
        exists i :: 0 <= i < |lines| && IsRateLine(lines[i]) && Code(lines[i]) == k
    {
      FoldRatesKeyAt(lines, k);
    }
  }

  /**
   * The rate stored for a code is that of the last line with that code:
   * plain dictionary assignment, so a later line overwrites an earlier one.
   */
  lemma {:induction false} FoldRatesLastWins(lines: seq<string>, i: nat)
    requires FoldRates(lines).Ok?
    requires i < |lines| && IsRateLine(lines[i])
    requires forall j :: i < j < |lines| && IsRateLine(lines[j]) ==> Code(lines[j]) != Code(lines[i])
    ensures Code(lines[i]) in FoldRates(lines).value
    ensures FoldRates(lines).value[Code(lines[i])] == Rate(lines[i])
    decreases |lines|
  {
    var n := |lines| - 1;
    var init := lines[..n];
    if i < n {
      assert forall j :: 0 <= j < n ==> lines[j] == init[j];
      FoldRatesLastWins(init, i);
    }
  }

  /** Every entry comes from some non-empty line that carries that code and rate. */
  lemma {:induction false} FoldRatesOrigin(lines: seq<string>, code: string)
    requires FoldRates(lines).Ok? && code in FoldRates(lines).value
    ensures exists i :: (0 <= i < |lines| && IsRateLine(lines[i]) &&
                         Code(lines[i]) == code && Rate(lines[i]) == FoldRates(lines).value[code] &&
                         forall j :: i < j < |lines| && IsRateLine(lines[j]) ==> Code(lines[j]) != code)
    decreases |lines|
  {
    var n := |lines| - 1;
    var init := lines[..n];
    var m := FoldRates(lines).value;
    assert FoldRates(init).Ok? && Step(FoldRates(init).value, lines[n]) == FoldRates(lines);
    if IsRateLine(lines[n]) && Code(lines[n]) == code {
      assert Rate(lines[n]) == m[code];
      assert 0 <= n < |lines| && IsRateLine(lines[n]) && Code(lines[n]) == code && Rate(lines[n]) == m[code];
    } else {
      var prev := FoldRates(init).value;
      assert code in prev && prev[code] == m[code];
      FoldRatesOrigin(init, code);
      var i :| 0 <= i < |init| && IsRateLine(init[i])
        && Code(init[i]) == code && Rate(init[i]) == prev[code]
        && forall j :: i < j < |init| && IsRateLine(init[j]) ==> Code(init[j]) != code;
      assert lines[i] == init[i];
      forall j | i < j < |lines| && IsRateLine(lines[j])
        ensures Code(lines[j]) != code
      {
        if j < n {
          assert lines[j] == init[j];
        }
      }
    }
  }

  /** The dictionary has at most one entry per non-empty line. */
  lemma {:induction false} FoldRatesSize(lines: seq<string>)
    requires FoldRates(lines).Ok?
    ensures |FoldRates(lines).value| <= NonEmptyCount(lines)
    decreases |lines|
  {
    if lines != [] {
      var n := |lines| - 1;
      var init := lines[..n];
      FoldRatesSize(init);
      var m := FoldRates(init).value;
      if IsRateLine(lines[n]) {
        var k := Code(lines[n]);
        assert m[k := Rate(lines[n])].Keys == m.Keys + {k};
        assert |m.Keys + {k}| <= |m.Keys| + |{k}|;
      }
    }
  }

  /**
   * Of two consecutive lines with the same code, wherever they stand, the
   * first one can be dropped: the second one's rate replaces it.
   */
  lemma {:induction false} LaterLineWins(lines: seq<string>, first: string, second: string, more: seq<string>)
    requires IsRateLine(first) && IsRateLine(second)
    requires Code(first) == Code(second)
    ensures FoldRates(lines + [first, second] + more) == FoldRates(lines + [second] + more)
    decreases |more|
  {
    if more == [] {
      assert lines + [first, second] + more == lines + [first, second];
      assert lines + [second] + more == lines + [second];
      LastTwoLines(lines, first, second);
    } else {
      var init := more[..|more| - 1];
      var xs := lines + [first, second] + more;
      var ys := lines + [second] + more;
      assert xs[..|xs| - 1] == lines + [first, second] + init;
      assert ys[..|ys| - 1] == lines + [second] + init;
      assert xs[|xs| - 1] == ys[|ys| - 1];
      LaterLineWins(lines, first, second, init);
    }
  }

  lemma LastTwoLines(lines: seq<string>, first: string, second: string)
    requires IsRateLine(first) && IsRateLine(second)
    requires Code(first) == Code(second)
    ensures FoldRates(lines + [first, second]) == FoldRates(lines + [second])
  {
    var xs := lines + [first, second];
    assert xs[..|xs| - 1] == lines + [first];
    assert (lines + [first])[..|lines|] == lines;
    assert (lines + [second])[..|lines|] == lines;
    match FoldRates(lines)
    case Err(e) =>
    case Ok(m) =>
      var k := Code(first);
      assert m[k := Rate(first)][k := Rate(second)] == m[k := Rate(second)];
  }

  /**
   * Only the last two fields of a line matter: whatever stands before them,
   * the code is the second-to-last and the rate the last field.
   */
  lemma EarlierFieldsIgnored(before: string, code: string, rate: string)
    requires FieldSeparator !in code && FieldSeparator !in rate
    ensures var line := before + [FieldSeparator] + code + [FieldSeparator] + rate;
      IsRateLine(line) && Code(line) == code && Rate(line) == rate
  {
    SplitBeforeLast(before + [FieldSeparator] + code, rate, FieldSeparator);
    SplitBeforeLast(before, code, FieldSeparator);
  }

  /** A file with a header and one rate line yields exactly that line's entry. */
  lemma SingleLineFile(id: string, header: string, line: string)
    requires LineSeparator !in id && LineSeparator !in header && LineSeparator !in line
    requires IsRateLine(line)
    ensures ParseRates(id + [LineSeparator] + header + [LineSeparator] + line + [LineSeparator])
         == Ok(map[Code(line) := Rate(line)])
  {
    var data := id + [LineSeparator] + header + [LineSeparator] + line + [LineSeparator];
    assert data == id + [LineSeparator] + header + [LineSeparator] + (line + [LineSeparator]);
    HeaderIgnored(id, header, line + [LineSeparator]);
    SplitBeforeLast(line, "", LineSeparator);
    assert line + [LineSeparator] + "" == line + [LineSeparator];
    SplitCount(line, LineSeparator);
    assert Split(line, LineSeparator) == [line];
    assert Split(line + [LineSeparator], LineSeparator) == [line, ""];
    assert [line][..0] == [];
    assert FoldRates([line]) == Ok(map[Code(line) := Rate(line)]);
    assert [line, ""][..1] == [line];
    assert FoldRates([line, ""]) == FoldRates([line]);
  }

  /** A file of at most two lines has only a header, and no rates. */
  lemma HeaderOnlyFile(data: string)
    requires |Split(data, LineSeparator)| <= HeaderLines
    ensures ParseRates(data) == Ok(map[])
  {
  }
}
