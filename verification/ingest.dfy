/** The file loop of script.js (`processNextFile`): the chosen files are read
    one after another, each text is parsed, and the records are concatenated
    into `allData`, which is charted once every file has been read. File
    reading and the timer between files are left to the caller: a file is its
    text. */
module Ingest {
  import opened Wrappers
  import opened Seqs
  import opened TradeParser
  import opened ChartData

  /** One `reader.onload`: `allData = allData.concat(parsedData)` when the file
      yielded records. The guard changes nothing: appending no records is a no-op. */
  function AddFile(acc: seq<Record>, parsed: seq<Record>): (r: seq<Record>)
    ensures r == acc + parsed
  {
    if |parsed| > 0 then acc + parsed else acc
  }

  /** `allData` once all files have been read, in the order they were chosen. */
  function LoadAll(texts: seq<string>): (r: seq<Record>)
    ensures AllPositive(r)
  {
    if |texts| == 0 then []
    else
      var acc := LoadAll(texts[..|texts| - 1]);
      var parsed := Parse(texts[|texts| - 1]);
      AllPositiveAppend(acc, parsed);
      AddFile(acc, parsed)
  }

  /** The chart `updateChart(allData)` draws once every file has been read. */
  function Dashboard(texts: seq<string>): (r: Option<Chart>)
    ensures r.None? <==> forall i :: 0 <= i < |texts| ==> Parse(texts[i]) == []
  {
    LoadAllEmpty(texts);
    Build(LoadAll(texts))
  }

  /** The accumulated records are the records of every file, file after file. */
  lemma {:induction false} LoadAllIsConcat(texts: seq<string>)
    ensures LoadAll(texts) == FlatMap(Parse, texts)
  {
    if |texts| > 0 {
      LoadAllIsConcat(texts[..|texts| - 1]);
    }
  }

  /** Reading two batches of files one after the other accumulates the records
      of the first batch followed by those of the second. */
  lemma LoadAllAppend(a: seq<string>, b: seq<string>)
    ensures LoadAll(a + b) == LoadAll(a) + LoadAll(b)
  {
    LoadAllIsConcat(a + b);
    LoadAllIsConcat(a);
    LoadAllIsConcat(b);
    FlatMapAppend(Parse, a, b);
  }

  /** Nothing is charted exactly when no file yields a record. */
  lemma DashboardEmpty(texts: seq<string>)
    ensures Dashboard(texts).None? <==> forall i :: 0 <= i < |texts| ==> Parse(texts[i]) == []
  {
    LoadAllEmpty(texts);
  }

  lemma LoadAllEmpty(texts: seq<string>)
    ensures LoadAll(texts) == [] <==> forall i :: 0 <= i < |texts| ==> Parse(texts[i]) == []
  {
    LoadAllIsConcat(texts);
    FlatMapEmpty(Parse, texts);
  }

  /** A single file contributes exactly its own records. */
  lemma LoadOne(text: string)
    ensures LoadAll([text]) == Parse(text)
  {
    assert [text][..0] == [];
  }

  /** The same file chosen twice contributes its records twice: nothing is
      de-duplicated, so `BuildDoubled` describes the resulting chart. */
  lemma SameFileTwice(text: string)
    ensures LoadAll([text, text]) == Parse(text) + Parse(text)
  {
    LoadAllAppend([text], [text]);
    LoadOne(text);
    assert [text] + [text] == [text, text];
  }
}
