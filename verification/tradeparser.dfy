/** The line parser of script.js (`parseTradeData`): one trade record per
    non-blank line that has at least 11 tab-run-separated fields and a gross
    value (field 9) above zero. */
module TradeParser {
  import opened Wrappers
  import opened Text
  import Numbers
  import Seqs

  /** One kept line: origin state, activity (NCM description) and gross value. */
  datatype Record = Record(state: string, activity: string, total: real)

  const MIN_FIELDS: nat := 11
  const STATE_FIELD: nat := 1
  const ACTIVITY_FIELD: nat := 6
  const VALUE_FIELD: nat := 9
  const UNKNOWN_STATE: string := "Desconhecido"
  const UNKNOWN_ACTIVITY: string := "Atividade Desconhecida"

  /** Every record has a positive gross value, the parser's validity filter. */
  predicate AllPositive(data: seq<Record>) {
    forall k :: 0 <= k < |data| ==> data[k].total > 0.0
  }

  lemma AllPositiveAppend(a: seq<Record>, b: seq<Record>)
    ensures AllPositive(a + b) <==> AllPositive(a) && AllPositive(b)
  {
    if AllPositive(a + b) {
      forall k | 0 <= k < |a|
        ensures a[k].total > 0.0
      {
        assert a[k] == (a + b)[k];
      }
      forall k | 0 <= k < |b|
        ensures b[k].total > 0.0
      {
        assert b[k] == (a + b)[|a| + k];
      }
    }
  }

  /** `parseFloat(parts[9]) || 0`: a missing field and NaN both count as 0. */
  function GrossValue(parts: seq<string>): real {
    if |parts| > VALUE_FIELD then Numbers.ParseNumber(parts[VALUE_FIELD]).GetOr(0.0) else 0.0
  }

  /** `s || fallback` for a string: only the empty string is falsy. */
  function OrElse(s: string, fallback: string): string {
    if s == "" then fallback else s
  }

  /** The record one line yields, if any. */
  function ParseLine(line: string): (r: Option<Record>)
    ensures r.Some? ==> r.value.total > 0.0
    ensures |SplitRuns(line, TAB)| < MIN_FIELDS ==> r.None?
  {
    var parts := SplitRuns(line, TAB);
    var total := GrossValue(parts);
    if total > 0.0 && |parts| >= MIN_FIELDS then
      Some(Record(OrElse(parts[STATE_FIELD], UNKNOWN_STATE),
                  OrElse(Trim(parts[ACTIVITY_FIELD]), UNKNOWN_ACTIVITY),
                  total))
    else None
  }

  /** A line is kept exactly when it has at least 11 fields and field 9 reads as
      a number above zero; the kept record carries that number. */
  lemma ParseLineKept(line: string)
    ensures var parts := SplitRuns(line, TAB);
      ParseLine(line).Some? <==>
        (|parts| >= MIN_FIELDS
         && Numbers.ParseNumber(parts[VALUE_FIELD]).Some?
         && Numbers.ParseNumber(parts[VALUE_FIELD]).value > 0.0)
    ensures ParseLine(line).Some? ==>
      Numbers.ParseNumber(SplitRuns(line, TAB)[VALUE_FIELD]) == Some(ParseLine(line).value.total)
  {
  }

  /** The state is field 1 exactly as written: with at least 11 fields it lies
      between two tab runs, so it is never empty and the "Desconhecido" fallback
      is never taken. The activity is field 6 trimmed, or the fallback when that
      field is only whitespace; either way it has no tab and no surrounding space. */
  lemma ParseLineFields(line: string)
    requires ParseLine(line).Some?
    ensures var parts := SplitRuns(line, TAB);
      var rec := ParseLine(line).value;
      && rec.state == parts[STATE_FIELD]
      && rec.state != ""
      && TAB !in rec.state
      && (IsBlank(parts[ACTIVITY_FIELD]) ==> rec.activity == UNKNOWN_ACTIVITY)
      && (!IsBlank(parts[ACTIVITY_FIELD]) ==> rec.activity == Trim(parts[ACTIVITY_FIELD]))
      && rec.activity != ""
      && !IsSpace(rec.activity[0]) && !IsSpace(rec.activity[|rec.activity| - 1])
  {
    var parts := SplitRuns(line, TAB);
    assert 0 < STATE_FIELD < |parts| - 1;
    assert ParseLine(line).value.activity == OrElse(Trim(parts[ACTIVITY_FIELD]), UNKNOWN_ACTIVITY);
    ActivityShape(parts[ACTIVITY_FIELD]);
  }

  /** `field?.trim() || "Atividade Desconhecida"` is never empty and never starts
      or ends with whitespace. */
  lemma ActivityShape(field: string)
    ensures var a := OrElse(Trim(field), UNKNOWN_ACTIVITY);
      && (IsBlank(field) ==> a == UNKNOWN_ACTIVITY)
      && (!IsBlank(field) ==> a == Trim(field))
      && a != ""
      && !IsSpace(a[0]) && !IsSpace(a[|a| - 1])
  {
    var u := UNKNOWN_ACTIVITY;
    assert u[0] == 'A' && u[|u| - 1] == 'a';
  }

  /** A blank line yields no record even without the blank-line filter: every
      field of it is blank, so field 9 never reads as a number. */
  lemma BlankLineYieldsNothing(line: string)
    requires IsBlank(line)
    ensures ParseLine(line).None?
  {
    var parts := SplitRuns(line, TAB);
    SplitRunsBlank(line, TAB);
    if |parts| > VALUE_FIELD {
      var f := parts[VALUE_FIELD];
      assert IsBlank(f);
      assert TrimStart(f) == [];
      assert !Numbers.StartsNumeric(f);
    }
  }

  /** A line built from at least 11 non-empty tab-free fields, whose field 9 is
      the digits of a positive whole number and whose field 6 has no surrounding
      whitespace, parses to the record made of fields 1, 6 and that number. */
  lemma ParseJoinedFields(fields: seq<string>, n: nat)
    requires |fields| >= MIN_FIELDS
    requires forall i :: 0 <= i < |fields| ==> fields[i] != "" && TAB !in fields[i]
    requires fields[VALUE_FIELD] == Numbers.FormatNat(n) && n > 0
    requires Trim(fields[ACTIVITY_FIELD]) == fields[ACTIVITY_FIELD]
    ensures ParseLine(Join(fields, TAB)) == Some(Record(fields[STATE_FIELD], fields[ACTIVITY_FIELD], n as real))
  {
    SplitRunsJoin(fields, TAB);
    Numbers.ParseFormatNat(n);
  }

  /** The same for a gross value written as a plain decimal `w.d` (such as
      `1000.00`): the line is kept exactly when that value is above zero, and
      then the record carries it. */
  lemma ParseJoinedDecimal(fields: seq<string>, w: string, d: string)
    requires |fields| >= MIN_FIELDS
    requires forall i :: 0 <= i < |fields| ==> fields[i] != "" && TAB !in fields[i]
    requires |w| > 0 && Numbers.AllDigits(w) && Numbers.AllDigits(d)
    requires fields[VALUE_FIELD] == w + "." + d
    requires Trim(fields[ACTIVITY_FIELD]) == fields[ACTIVITY_FIELD]
    ensures var total := Numbers.DigitsValue(w) as real + Numbers.FractionValue(d);
      ParseLine(Join(fields, TAB)) ==
        if total > 0.0 then Some(Record(fields[STATE_FIELD], fields[ACTIVITY_FIELD], total)) else None
  {
    var line := Join(fields, TAB);
    SplitRunsJoin(fields, TAB);
    DecimalGrossValue(fields, w, d);
    assert ParseLine(line).Some? <==> GrossValue(fields) > 0.0;
  }

  /** Field 9 written as `w.d` is read as w plus the fraction 0.d. */
  lemma DecimalGrossValue(parts: seq<string>, w: string, d: string)
    requires |parts| > VALUE_FIELD
    requires |w| > 0 && Numbers.AllDigits(w) && Numbers.AllDigits(d)
    requires parts[VALUE_FIELD] == w + "." + d
    ensures GrossValue(parts) == Numbers.DigitsValue(w) as real + Numbers.FractionValue(d)
  {
    Numbers.ParseFixedPoint(w, d);
  }

  /** The lines of `text` that are not blank, in order (`split("\n")` followed
      by the `trim() !== ""` filter). */
  function NonBlankLines(lines: seq<string>): (r: seq<string>)
    ensures |r| <= |lines|
    ensures forall i :: 0 <= i < |r| ==> !IsBlank(r[i])
    ensures forall l :: l in r <==> l in lines && !IsBlank(l)
  {
    if |lines| == 0 then []
    else
      var init := lines[..|lines| - 1];
      var last := lines[|lines| - 1];
      var rest := NonBlankLines(init);
      assert lines == init + [last];
      if IsBlank(last) then rest else rest + [last]
  }

  /** The filter works line by line: filtering concatenated lines gives the
      kept lines of each part, in order. */
  lemma {:induction false} NonBlankLinesAppend(a: seq<string>, b: seq<string>)
    ensures NonBlankLines(a + b) == NonBlankLines(a) + NonBlankLines(b)
  {
    if |b| == 0 {
      assert a + b == a;
    } else {
      var b', last := b[..|b| - 1], b[|b| - 1];
      NonBlankLinesAppend(a, b');
      assert (a + b)[..|a + b| - 1] == a + b';
      assert (a + b)[|a + b| - 1] == last;
      var tail := if IsBlank(last) then [] else [last];
      assert NonBlankLines(a + b) == NonBlankLines(a + b') + tail;
      assert NonBlankLines(b) == NonBlankLines(b') + tail;
    }
  }

  /** What one line adds to the output: its record, or nothing. */
  function Contribution(line: string): (r: seq<Record>)
    ensures |r| <= 1
    ensures AllPositive(r)
  {
    match ParseLine(line)
    case Some(rec) => [rec]
    case None => []
  }

  /** The records of `lines`, taken line by line in order. */
  function ParseLines(lines: seq<string>): (r: seq<Record>)
    ensures |r| <= |lines|
    ensures AllPositive(r)
  {
    var r := Seqs.FlatMap(Contribution, lines);
    Seqs.FlatMapAtMostOne(Contribution, lines);
    Seqs.FlatMapOrigin(Contribution, lines);
    r
  }

  /** `parseTradeData(text)`. */
  function Parse(text: string): (r: seq<Record>)
    ensures AllPositive(r)
    ensures |r| <= |NonBlankLines(Split(text, NEWLINE))|
  {
    ParseLines(NonBlankLines(Split(text, NEWLINE)))
  }

  /** Parsing distributes over concatenation of lines: records keep the order of
      the lines they come from. */
  lemma ParseLinesAppend(a: seq<string>, b: seq<string>)
    ensures ParseLines(a + b) == ParseLines(a) + ParseLines(b)
  {
    Seqs.FlatMapAppend(Contribution, a, b);
  }

  /** A single line contributes its record, or nothing. */
  lemma ParseOneLine(line: string)
    ensures ParseLines([line]) == Contribution(line)
  {
    assert [line][..0] == [];
    assert Seqs.FlatMap(Contribution, [line]) == Seqs.FlatMap(Contribution, []) + Contribution(line);
  }

  /** Every record comes from some line of the input. */
  lemma ParseLinesOrigin(lines: seq<string>)
    ensures forall k :: 0 <= k < |ParseLines(lines)| ==>
      exists i :: 0 <= i < |lines| && ParseLine(lines[i]) == Some(ParseLines(lines)[k])
  {
    Seqs.FlatMapOrigin(Contribution, lines);
    var r := ParseLines(lines);
    forall k | 0 <= k < |r|
      ensures exists i :: 0 <= i < |lines| && ParseLine(lines[i]) == Some(r[k])
    {
      var i :| 0 <= i < |lines| && r[k] in Contribution(lines[i]);
      assert ParseLine(lines[i]) == Some(r[k]);
    }
  }

  /** Dropping blank lines first changes nothing: they yield no record anyway. */
  lemma {:induction false} BlankFilterRedundant(lines: seq<string>)
    ensures ParseLines(NonBlankLines(lines)) == ParseLines(lines)
  {
    if |lines| > 0 {
      var p := lines[..|lines| - 1];
      var l := lines[|lines| - 1];
      BlankFilterRedundant(p);
      if IsBlank(l) {
        BlankLineYieldsNothing(l);
      } else {
        ParseLinesAppend(NonBlankLines(p), [l]);
        ParseOneLine(l);
      }
    }
  }
}
