/** `scripts/parse_texts.py`: reads the two source lists, one record per PDF
    row of `sources.csv` and per row of `web_sources.csv`, PDFs first.

    Reading a file under an encoding, `csv.DictReader`, PyMuPDF and the web
    download are parameters: `CsvFile` for the first two, `pdfText` and
    `webText` (which already turn their own failures into an error text) for
    the others. */
module ParseTexts {
  import opened Results
  import opened Text
  import opened ChunkRecords

  /** The encodings `read_csv` tries, in order. */
  const Encodings: seq<string> := ["utf-8-sig", "utf-8", "cp1252", "latin-1"]

  /** `f.read(2048)`: the characters the delimiter is guessed from. */
  const SampleSize: nat := 2048

  const PdfDir: string := "./data/pdf_data"
  const PdfSourceFile: string := "./metadata/sources.csv"
  const WebSourceFile: string := "./metadata/web_sources.csv"

  /** One row of `csv.DictReader`: column name to cell. */
  type Row = map<string, string>

  /** What `csv.DictReader` yields: its `fieldnames` (empty for a file
      without a header line) and the rows. */
  datatype Table = Table(fieldnames: seq<string>, rows: seq<Row>)

  /** A CSV file: its text under an encoding (`None` when decoding raises)
      and the reader over a text with a delimiter (`None` when it raises). */
  datatype CsvFile = CsvFile(decode: string -> Option<string>, parse: (string, char) -> Option<Table>)

  function Sample(text: string): (s: string)
    ensures s <= text && |s| == if |text| < SampleSize then |text| else SampleSize
  {
    if |text| < SampleSize then text else text[..SampleSize]
  }

  /** Line 24: the delimiter is the more frequent of ';' and ',' in the
      sample, and ',' on a tie. */
  function Delimiter(sample: string): (d: char)
    ensures d == ';' || d == ','
    ensures d == ';' ==> Count(sample, ';') > Count(sample, ',')
    ensures d == ',' ==> Count(sample, ',') >= Count(sample, ';')
  {
    if Count(sample, ';') > Count(sample, ',') then ';' else ','
  }

  /** One pass of the `try` block (lines 22-32): the rows, or `None` when
      decoding or reading raised or the file has no header. */
  function Attempt(file: CsvFile, encoding: string): (rows: Option<seq<Row>>)
    ensures rows.Some? <==>
      && file.decode(encoding).Some?
      && var text := file.decode(encoding).value;
         file.parse(text, Delimiter(Sample(text))).Some? && file.parse(text, Delimiter(Sample(text))).value.fieldnames != []
  {
    match file.decode(encoding)
    case None => None
    case Some(text) =>
      match file.parse(text, Delimiter(Sample(text)))
      case None => None
      case Some(table) => if table.fieldnames == [] then None else Some(table.rows)
  }

  /** The outcome of trying `encodings` in order. */
  function FirstReadable(path: string, file: CsvFile, encodings: seq<string>): (r: Result<seq<Row>, string>)
    ensures r.Err? ==> r.error == NotReadable(path)
  {
    if encodings == [] then Err(NotReadable(path))
    else
      match Attempt(file, encodings[0])
      case Some(rows) => Ok(rows)
      case None => FirstReadable(path, file, encodings[1..])
  }

  function NotReadable(path: string): string
  {
    " Keine lesbare Kodierung für Datei: " + path
  }

  /** The rows come from the first encoding whose attempt succeeds; the file
      is unreadable exactly when every attempt fails. */
  lemma {:induction false} FirstReadableMeaning(path: string, file: CsvFile, encodings: seq<string>)
    ensures FirstReadable(path, file, encodings).Err? <==>
      forall j :: 0 <= j < |encodings| ==> Attempt(file, encodings[j]).None?
    ensures FirstReadable(path, file, encodings).Ok? ==>
      exists j :: 0 <= j < |encodings|
        && Attempt(file, encodings[j]) == Some(FirstReadable(path, file, encodings).value)
        && forall i :: 0 <= i < j ==> Attempt(file, encodings[i]).None?
  {
    if encodings != [] && Attempt(file, encodings[0]).None? {
      FirstReadableMeaning(path, file, encodings[1..]);
      var r := FirstReadable(path, file, encodings);
      if r.Ok? {
        var j :| 0 <= j < |encodings[1..]|
          && Attempt(file, encodings[1..][j]) == Some(r.value)
          && forall i :: 0 <= i < j ==> Attempt(file, encodings[1..][i]).None?;
        assert Attempt(file, encodings[j + 1]) == Some(r.value);
        forall i | 0 <= i < j + 1
          ensures Attempt(file, encodings[i]).None?
        {
          if i > 0 {
            assert encodings[i] == encodings[1..][i - 1];
          }
        }
      } else {
        forall j | 0 <= j < |encodings|
          ensures Attempt(file, encodings[j]).None?
        {
          if j > 0 {
            assert encodings[j] == encodings[1..][j - 1];
          }
        }
      }
    }
  }

  /** `read_csv(filepath)` (lines 19-35). */
  method ReadCsv(path: string, file: CsvFile) returns (r: Result<seq<Row>, string>)
    ensures r == FirstReadable(path, file, Encodings)
  {
    for k := 0 to |Encodings|
      invariant FirstReadable(path, file, Encodings) == FirstReadable(path, file, Encodings[k..])
    {
      assert Encodings[k..][1..] == Encodings[k + 1..];
      var attempt := Attempt(file, Encodings[k]);
      if attempt.Some? {
        return Ok(attempt.value);
      }
    }
    return Err(NotReadable(path));
  }

  /** Line 66: the cell stripped, without double quotes, reduced to its base name. */
  function PdfFilename(cell: string): string
  {
    AfterLast(Remove(Strip(cell), '"'), '/')
  }

  /** Line 67: `os.path.join(PDF_DIR, filename)`; the name has no separator. */
  function PdfPath(cell: string): string
  {
    PdfDir + "/" + PdfFilename(cell)
  }

  /** The file name holds neither a folder separator nor a double quote, so
      the path stays inside the PDF folder. */
  lemma PdfFilenameIsBaseName(cell: string)
    ensures '/' !in PdfFilename(cell) && '"' !in PdfFilename(cell)
    ensures EndsWith(Remove(Strip(cell), '"'), PdfFilename(cell))
  {
    var unquoted := Remove(Strip(cell), '"');
    var name := AfterLast(unquoted, '/');
    AfterLastIsTail(unquoted, '/');
    assert name == unquoted[|unquoted| - |name|..];
    assert forall x :: x in name ==> x in unquoted;
  }

  /** The row filter of line 63. */
  predicate IsPdfRow(row: Row)
    requires "typ" in row
  {
    Lower(Strip(row["typ"])) == "pdf"
  }

  /** The first key a PDF row lacks among those read after `typ`, in the
      order they are read: the `KeyError` it raises. */
  function PdfMissing(row: Row): (key: Option<string>)
    ensures key.None? <==> "url/filename" in row && "id" in row && "quelle" in row && "thema" in row && "sprache" in row
    ensures key.Some? ==> key.value !in row
    ensures key == Some("id") ==> "url/filename" in row
    ensures key == Some("quelle") ==> "url/filename" in row && "id" in row
    ensures key == Some("thema") ==> "url/filename" in row && "id" in row && "quelle" in row
    ensures key == Some("sprache") ==> "url/filename" in row && "id" in row && "quelle" in row && "thema" in row
  {
    if "url/filename" !in row then Some("url/filename")
    else if "id" !in row then Some("id")
    else if "quelle" !in row then Some("quelle")
    else if "thema" !in row then Some("thema")
    else if "sprache" !in row then Some("sprache")
    else None
  }

  /** The same for a web row. */
  function WebMissing(row: Row): (key: Option<string>)
    ensures key.None? <==> "id" in row && "url" in row && "thema" in row && "sprache" in row
    ensures key.Some? ==> key.value !in row
    ensures key == Some("url") ==> "id" in row
    ensures key == Some("thema") ==> "id" in row && "url" in row
    ensures key == Some("sprache") ==> "id" in row && "url" in row && "thema" in row
  {
    if "id" !in row then Some("id")
    else if "url" !in row then Some("url")
    else if "thema" !in row then Some("thema")
    else if "sprache" !in row then Some("sprache")
    else None
  }

  /** The six fields every extracted record has. */
  predicate IsRecord(e: Entry)
  {
    "id" in e && "quelle" in e && "typ" in e && "thema" in e && "sprache" in e && "text" in e
  }

  /** The record dictionary `eintrag`. */
  function MakeRecord(id: string, quelle: string, typ: string, thema: string, sprache: string, text: string): (e: Entry)
    ensures IsRecord(e)
    ensures e["id"] == id && e["quelle"] == quelle && e["typ"] == typ
    ensures e["thema"] == thema && e["sprache"] == sprache && e["text"] == text
  {
    map["id" := id, "quelle" := quelle, "typ" := typ, "thema" := thema, "sprache" := sprache, "text" := text]
  }

  /** Lines 62-77 for one row of `sources.csv`: `Ok(None)` for a skipped row,
      `Err(key)` for a `KeyError`. A kept row's record has typ "pdf", the
      text of the named file in the PDF folder, and the row's other fields. */
  function PdfRecord(pdfText: string -> string, row: Row): (r: Result<Option<Entry>, string>)
    ensures r.Ok? <==> "typ" in row && (IsPdfRow(row) ==> PdfMissing(row).None?)
    ensures r.Ok? && r.value.Some? <==> "typ" in row && IsPdfRow(row) && PdfMissing(row).None?
    ensures r.Ok? && r.value.Some? ==>
      r.value.value == MakeRecord(row["id"], row["quelle"], "pdf", row["thema"], row["sprache"],
                                  pdfText(PdfPath(row["url/filename"])))
  {
    if "typ" !in row then Err("typ")
    else if !IsPdfRow(row) then Ok(None)
    else
      match PdfMissing(row)
      case Some(key) => Err(key)
      case None =>
        Ok(Some(MakeRecord(row["id"], row["quelle"], "pdf", row["thema"], row["sprache"], pdfText(PdfPath(row["url/filename"])))))
  }

  /** Lines 83-91 for one row of `web_sources.csv`: typ "web", the url as
      quelle, the page's text. */
  function WebRecord(webText: string -> string, row: Row): (r: Result<Entry, string>)
    ensures r.Ok? <==> WebMissing(row).None?
    ensures r.Ok? ==>
      r.value == MakeRecord(row["id"], row["url"], "web", row["thema"], row["sprache"], webText(row["url"]))
  {
    match WebMissing(row)
    case Some(key) => Err(key)
    case None => Ok(MakeRecord(row["id"], row["url"], "web", row["thema"], row["sprache"], webText(row["url"])))
  }

  /** The shape of the PDF loop: `f` gives each row's record, `None` for a
      row the loop `continue`s past, or the error that ends the loop. */
  function Collect(f: Row -> Result<Option<Entry>, string>, rows: seq<Row>): (r: Result<seq<Entry>, string>)
    ensures r.Ok? ==> |r.value| <= |rows|
  {
    if rows == [] then Ok([])
    else
      match Collect(f, rows[..|rows| - 1])
      case Err(key) => Err(key)
      case Ok(records) =>
        var record := f(rows[|rows| - 1]);
        if record.Err? then Err(record.error)
        else if record.value.None? then Ok(records)
        else Ok(records + [record.value.value])
  }

  /** The loop goes through the rows in order: one more row appends its
      record, is skipped, or ends the loop with its error; an earlier error
      stays the result. */
  lemma CollectAppend(f: Row -> Result<Option<Entry>, string>, rows: seq<Row>, row: Row)
    ensures Collect(f, rows).Ok? && f(row).Ok? ==>
              Collect(f, rows + [row]) == Ok(Collect(f, rows).value + (if f(row).value.Some? then [f(row).value.value] else []))
    ensures Collect(f, rows).Ok? && f(row).Err? ==> Collect(f, rows + [row]) == Err(f(row).error)
    ensures Collect(f, rows).Err? ==> Collect(f, rows + [row]) == Collect(f, rows)
  {
    var all := rows + [row];
    assert all[..|all| - 1] == rows;
    assert all[|all| - 1] == row;
    if Collect(f, rows).Ok? && f(row).Ok? && f(row).value.None? {
      assert Collect(f, rows).value + [] == Collect(f, rows).value;
    }
  }

  function PdfStep(pdfText: string -> string): Row -> Result<Option<Entry>, string>
  {
    row => PdfRecord(pdfText, row)
  }

  /** The records of the PDF loop, or the first `KeyError`. */
  function PdfRecords(pdfText: string -> string, rows: seq<Row>): Result<seq<Entry>, string>
  {
    Collect(PdfStep(pdfText), rows)
  }

  /** The records of the web loop, or the first `KeyError`. */
  function WebRecords(webText: string -> string, rows: seq<Row>): (r: Result<seq<Entry>, string>)
    ensures r.Ok? <==> forall i :: 0 <= i < |rows| ==> WebRecord(webText, rows[i]).Ok?
    ensures r.Ok? ==> |r.value| == |rows| && forall i :: 0 <= i < |rows| ==> WebRecord(webText, rows[i]) == Ok(r.value[i])
    ensures r.Ok? ==> forall i :: 0 <= i < |r.value| ==> IsRecord(r.value[i]) && r.value[i]["typ"] == "web"
  {
    if rows == [] then Ok([])
    else
      match WebRecords(webText, rows[..|rows| - 1])
      case Err(key) => Err(key)
      case Ok(records) =>
        match WebRecord(webText, rows[|rows| - 1])
        case Err(key) => Err(key)
        case Ok(e) => Ok(records + [e])
  }

  /** An error in the first rows ends the loop: later rows do not matter. */
  lemma {:induction false} CollectErrorStays(f: Row -> Result<Option<Entry>, string>, rows: seq<Row>, k: nat)
    requires k <= |rows| && Collect(f, rows[..k]).Err?
    ensures Collect(f, rows) == Collect(f, rows[..k])
    decreases |rows| - k
  {
    if k < |rows| {
      assert rows[..k + 1][..k] == rows[..k];
      CollectErrorStays(f, rows, k + 1);
    } else {
      assert rows[..k] == rows;
    }
  }

  lemma {:induction false} WebErrorStays(webText: string -> string, rows: seq<Row>, k: nat)
    requires k <= |rows| && WebRecords(webText, rows[..k]).Err?
    ensures WebRecords(webText, rows) == WebRecords(webText, rows[..k])
    decreases |rows| - k
  {
    if k < |rows| {
      assert rows[..k + 1][..k] == rows[..k];
      WebErrorStays(webText, rows, k + 1);
    } else {
      assert rows[..k] == rows;
    }
  }

  /** The loop keeps exactly the rows with a record: a record comes from
      some row, and every row's record is kept. */
  lemma {:induction false} CollectFilter(f: Row -> Result<Option<Entry>, string>, rows: seq<Row>)
    requires Collect(f, rows).Ok?
    ensures forall k :: 0 <= k < |rows| ==> f(rows[k]).Ok?
    ensures forall e :: e in Collect(f, rows).value <==> exists k :: 0 <= k < |rows| && f(rows[k]) == Ok(Some(e))
  {
    if rows != [] {
      var init := rows[..|rows| - 1];
      var last := rows[|rows| - 1];
      CollectFilter(f, init);
      var before := Collect(f, init).value;
      var record := f(last);
      var all := Collect(f, rows).value;
      assert all == before + (if record.value.Some? then [record.value.value] else []);
      forall k | 0 <= k < |rows|
        ensures f(rows[k]).Ok?
      {
        if k < |init| {
          assert rows[k] == init[k];
        }
      }
      forall e | e in all
        ensures exists k :: 0 <= k < |rows| && f(rows[k]) == Ok(Some(e))
      {
        if e in before {
          var k :| 0 <= k < |init| && f(init[k]) == Ok(Some(e));
          assert rows[k] == init[k];
        } else {
          assert f(rows[|rows| - 1]) == Ok(Some(e));
        }
      }
      forall e, k | 0 <= k < |rows| && f(rows[k]) == Ok(Some(e))
        ensures e in all
      {
        if k < |init| {
          assert rows[k] == init[k];
        }
      }
    }
  }

  /** The PDF loop keeps exactly the PDF rows, each as a record with typ
      "pdf"; a row with another typ gives nothing. */
  lemma PdfRecordsFilter(pdfText: string -> string, rows: seq<Row>)
    requires PdfRecords(pdfText, rows).Ok?
    ensures forall k :: 0 <= k < |rows| ==> "typ" in rows[k]
    ensures forall e :: e in PdfRecords(pdfText, rows).value <==>
      exists k :: 0 <= k < |rows| && PdfRecord(pdfText, rows[k]) == Ok(Some(e))
    ensures forall e :: e in PdfRecords(pdfText, rows).value ==> IsRecord(e) && e["typ"] == "pdf"
  {
    var f := PdfStep(pdfText);
    CollectFilter(f, rows);
    forall k | 0 <= k < |rows|
      ensures "typ" in rows[k]
    {
      assert f(rows[k]).Ok?;
    }
    forall e | e in PdfRecords(pdfText, rows).value
      ensures IsRecord(e) && e["typ"] == "pdf"
    {
      var k :| 0 <= k < |rows| && f(rows[k]) == Ok(Some(e));
      assert PdfRecord(pdfText, rows[k]) == Ok(Some(e));
    }
  }

  /** `main` up to the write-out: the PDF records, then the web records.
      `Err` is the `ValueError` of an unreadable file or a `KeyError`. */
  function Extracted(pdfFile: CsvFile, webFile: CsvFile, pdfText: string -> string, webText: string -> string)
    : Result<seq<Entry>, string>
  {
    match FirstReadable(PdfSourceFile, pdfFile, Encodings)
    case Err(e) => Err(e)
    case Ok(pdfRows) =>
      match PdfRecords(pdfText, pdfRows)
      case Err(key) => Err(key)
      case Ok(pdfs) =>
        match FirstReadable(WebSourceFile, webFile, Encodings)
        case Err(e) => Err(e)
        case Ok(webRows) =>
          match WebRecords(webText, webRows)
          case Err(key) => Err(key)
          case Ok(webs) => Ok(pdfs + webs)
  }

  /** Lines 61-77: the PDF loop. */
  method PdfLoop(pdfText: string -> string, rows: seq<Row>) returns (r: Result<seq<Entry>, string>)
    ensures r == PdfRecords(pdfText, rows)
  {
    var results: seq<Entry> := [];
    for k := 0 to |rows|
      invariant PdfRecords(pdfText, rows[..k]) == Ok(results)
    {
      assert rows[..k + 1][..k] == rows[..k] && rows[..k + 1][k] == rows[k];
      var record := PdfRecord(pdfText, rows[k]);
      if record.Err? {
        CollectErrorStays(PdfStep(pdfText), rows, k + 1);
        return Err(record.error);
      }
      if record.value.Some? {
        results := results + [record.value.value];
      }
    }
    assert rows[..|rows|] == rows;
    return Ok(results);
  }

  /** Lines 82-91: the web loop. */
  method WebLoop(webText: string -> string, rows: seq<Row>) returns (r: Result<seq<Entry>, string>)
    ensures r == WebRecords(webText, rows)
  {
    var results: seq<Entry> := [];
    for k := 0 to |rows|
      invariant WebRecords(webText, rows[..k]) == Ok(results)
    {
      assert rows[..k + 1][..k] == rows[..k] && rows[..k + 1][k] == rows[k];
      var record := WebRecord(webText, rows[k]);
      if record.Err? {
        WebErrorStays(webText, rows, k + 1);
        return Err(record.error);
      }
      results := results + [record.value];
    }
    assert rows[..|rows|] == rows;
    return Ok(results);
  }

  /** `main` (lines 55-91), without writing `extracted_sources.jsonl`. */
  method ExtractSources(pdfFile: CsvFile, webFile: CsvFile, pdfText: string -> string, webText: string -> string)
    returns (r: Result<seq<Entry>, string>)
    ensures r == Extracted(pdfFile, webFile, pdfText, webText)
  {
    var pdfSources := ReadCsv(PdfSourceFile, pdfFile);
    if pdfSources.Err? {
      return Err(pdfSources.error);
    }
    var results := PdfLoop(pdfText, pdfSources.value);
    if results.Err? {
      return results;
    }
    var webSources := ReadCsv(WebSourceFile, webFile);
    if webSources.Err? {
      return Err(webSources.error);
    }
    var webResults := WebLoop(webText, webSources.value);
    if webResults.Err? {
      return webResults;
    }
    return Ok(results.value + webResults.value);
  }

  /** Every PDF record comes before every web record. */
  lemma PdfsBeforeWebs(pdfFile: CsvFile, webFile: CsvFile, pdfText: string -> string, webText: string -> string)
    requires Extracted(pdfFile, webFile, pdfText, webText).Ok?
    ensures var out := Extracted(pdfFile, webFile, pdfText, webText).value;
      && (forall i :: 0 <= i < |out| ==> IsRecord(out[i]) && (out[i]["typ"] == "pdf" || out[i]["typ"] == "web"))
      && (forall i, j :: 0 <= i < j < |out| && out[i]["typ"] == "web" ==> out[j]["typ"] == "web")
  {
    var pdfRows := FirstReadable(PdfSourceFile, pdfFile, Encodings).value;
    var pdfs := PdfRecords(pdfText, pdfRows).value;
    var webs := WebRecords(webText, FirstReadable(WebSourceFile, webFile, Encodings).value).value;
    PdfRecordsFilter(pdfText, pdfRows);
    TypedBlocks(pdfs, webs);
  }

  lemma TypedBlocks(pdfs: seq<Entry>, webs: seq<Entry>)
    requires forall i :: 0 <= i < |pdfs| ==> IsRecord(pdfs[i]) && pdfs[i]["typ"] == "pdf"
    requires forall i :: 0 <= i < |webs| ==> IsRecord(webs[i]) && webs[i]["typ"] == "web"
    ensures var out := pdfs + webs;
      && (forall i :: 0 <= i < |out| ==> IsRecord(out[i]) && (out[i]["typ"] == "pdf" || out[i]["typ"] == "web"))
      && (forall i, j :: 0 <= i < j < |out| && out[i]["typ"] == "web" ==> out[j]["typ"] == "web")
  {
    var out := pdfs + webs;
    assert "pdf" != "web" by {
      assert "pdf"[0] != "web"[0];
    }
    assert forall i :: |pdfs| <= i < |out| ==> out[i] == webs[i - |pdfs|];
  }
}
