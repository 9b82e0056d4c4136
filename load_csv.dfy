/** The CSV loader: checks that the nine CSV files are present, loads each into a table of the
    embedded database, compares the loaded row count with the file's line count, tallies the
    loads and validates the database only when every table loaded. The file system and the
    database are oracles given as parameters. */
module LoadCsv {
  import opened Base

  /** One entry of the CSV-to-table mapping. */
  datatype CsvTable = CsvTable(csvFile: string, tableName: string, description: string)

  const CsvTables: seq<CsvTable> := [
    CsvTable("olist_customers_dataset.csv", "raw_customers", "Customer information"),
    CsvTable("olist_orders_dataset.csv", "raw_orders", "Order information"),
    CsvTable("olist_order_items_dataset.csv", "raw_order_items", "Order line items"),
    CsvTable("olist_order_payments_dataset.csv", "raw_order_payments", "Payment information"),
    CsvTable("olist_order_reviews_dataset.csv", "raw_order_reviews", "Customer reviews"),
    CsvTable("olist_products_dataset.csv", "raw_products", "Product catalog"),
    CsvTable("olist_sellers_dataset.csv", "raw_sellers", "Seller information"),
    CsvTable("olist_geolocation_dataset.csv", "raw_geolocation", "Geographic coordinates"),
    CsvTable("product_category_name_translation.csv", "raw_category_translation", "Category translations")
  ]

  const TablePrefix: string := "raw_"

  /** Nine tables, with distinct names, every one prefixed `raw_`. */
  lemma CsvTablesWellFormed()
    ensures |CsvTables| == 9
    ensures forall i, j :: 0 <= i < j < |CsvTables| ==> CsvTables[i].tableName != CsvTables[j].tableName
    ensures forall i :: 0 <= i < |CsvTables| ==>
              |CsvTables[i].tableName| > |TablePrefix|
              && CsvTables[i].tableName[..|TablePrefix|] == TablePrefix
  {
  }

  // ---------------------------------------------------------------------
  // check_csv_files
  // ---------------------------------------------------------------------

  /** The names of the files that do not exist, in mapping order. */
  function MissingFiles(tables: seq<CsvTable>, present: string -> bool): (r: seq<string>)
  {
    if tables == [] then []
    else
      var last := tables[|tables| - 1].csvFile;
      MissingFiles(tables[..|tables| - 1], present) + (if present(last) then [] else [last])
  }

  /** A file is reported missing exactly when it is listed and absent; nothing is missing exactly
      when every listed file is present. */
  lemma {:induction false} MissingFilesSpec(tables: seq<CsvTable>, present: string -> bool)
    ensures forall x :: (x in MissingFiles(tables, present))
              <==> (!present(x) && exists i :: 0 <= i < |tables| && tables[i].csvFile == x)
    ensures (MissingFiles(tables, present) == [])
              <==> (forall i :: 0 <= i < |tables| ==> present(tables[i].csvFile))
    ensures |MissingFiles(tables, present)| <= |tables|
  {
    if tables != [] {
      var init := tables[..|tables| - 1];
      MissingFilesSpec(init, present);
      assert forall i :: 0 <= i < |init| ==> init[i] == tables[i];
      forall x | !present(x) && exists i :: 0 <= i < |tables| && tables[i].csvFile == x
        ensures x in MissingFiles(tables, present)
      {
        var i :| 0 <= i < |tables| && tables[i].csvFile == x;
        if i < |init| {
          assert init[i].csvFile == x;
        }
      }
    }
  }

  /** `check_csv_files`: the loop that collects the missing files, and its verdict. */
  method CheckCsvFiles(present: string -> bool) returns (ok: bool, missing: seq<string>)
    ensures missing == MissingFiles(CsvTables, present)
    ensures ok <==> forall i :: 0 <= i < |CsvTables| ==> present(CsvTables[i].csvFile)
  {
    missing := [];
    for i := 0 to |CsvTables|
      invariant missing == MissingFiles(CsvTables[..i], present)
    {
      var csvFile := CsvTables[i].csvFile;
      assert CsvTables[..i + 1][..i] == CsvTables[..i];
      if !present(csvFile) {
        missing := missing + [csvFile];
      }
    }
    assert CsvTables[..|CsvTables|] == CsvTables;
    MissingFilesSpec(CsvTables, present);
    ok := missing == [];
  }

  // ---------------------------------------------------------------------
  // get_csv_row_count
  // ---------------------------------------------------------------------

  /** Python's universal-newline reading: `\r\n` and a lone `\r` both become `\n`. */
  function Translate(s: string): (r: string)
  {
    if s == [] then []
    else if s[0] == '\r' then
      if |s| > 1 && s[1] == '\n' then "\n" + Translate(s[2..]) else "\n" + Translate(s[1..])
    else [s[0]] + Translate(s[1..])
  }

  /** The position of the first line break, or the length when there is none. */
  function LineEnd(s: string): (k: nat)
    ensures k <= |s|
  {
    if s == [] || s[0] == '\n' then 0 else 1 + LineEnd(s[1..])
  }

  /** The number of lines `for _ in f` yields: each ends after a `\n`, and a last line may lack one. */
  function LineCount(s: string): (r: nat)
    decreases |s|
  {
    if s == [] then 0
    else if LineEnd(s) < |s| then 1 + LineCount(s[LineEnd(s) + 1..])
    else 1
  }

  /** `get_csv_row_count`: the line count minus the header, or -1 when the file cannot be read
      (a missing file or a decoding error); None stands for such a file. */
  function CsvRowCount(file: Option<string>): (r: int)
  {
    if file.None? then -1 else LineCount(Translate(file.value)) - 1
  }

  predicate NoBreaks(line: string)
  {
    forall k :: 0 <= k < |line| ==> line[k] != '\n' && line[k] != '\r'
  }

  /** A file written line by line, each line ended by `\n`. */
  function JoinLines(lines: seq<string>): (r: string)
  {
    if lines == [] then [] else lines[0] + "\n" + JoinLines(lines[1..])
  }

  /** The same file written with `\r\n` line ends. */
  function JoinCrlf(lines: seq<string>): (r: string)
  {
    if lines == [] then [] else lines[0] + "\r\n" + JoinCrlf(lines[1..])
  }

  lemma {:induction false} LineEndOfLine(line: string, rest: string)
    requires NoBreaks(line)
    ensures LineEnd(line + "\n" + rest) == |line|
    decreases |line|
  {
    if line != [] {
      assert (line + "\n" + rest)[1..] == line[1..] + "\n" + rest;
      LineEndOfLine(line[1..], rest);
    }
  }

  lemma {:induction false} TranslateText(line: string, rest: string)
    requires NoBreaks(line)
    ensures Translate(line + rest) == line + Translate(rest)
    decreases |line|
  {
    if line != [] {
      var s := line + rest;
      assert s[0] == line[0] && s[0] != '\r';
      assert s[1..] == line[1..] + rest;
      assert Translate(s) == [line[0]] + Translate(line[1..] + rest);
      TranslateText(line[1..], rest);
      assert line == [line[0]] + line[1..];
    } else {
      assert line + rest == rest;
    }
  }

  /** Counting lines of a file written line by line gives back the number of lines. */
  lemma {:induction false} LineCountJoin(lines: seq<string>)
    requires forall i :: 0 <= i < |lines| ==> NoBreaks(lines[i])
    ensures LineCount(JoinLines(lines)) == |lines|
  {
    if lines != [] {
      var rest := JoinLines(lines[1..]);
      LineEndOfLine(lines[0], rest);
      var s := JoinLines(lines);
      assert s[|lines[0]| + 1..] == rest;
      LineCountJoin(lines[1..]);
    }
  }

  /** One `\r\n` line end is read as `\n`. */
  lemma CrlfStep(rest: string)
    ensures Translate("\r\n" + rest) == "\n" + Translate(rest)
  {
    var s := "\r\n" + rest;
    assert s[0] == '\r' && s[1] == '\n' && s[2..] == rest;
  }

  /** One `\n` line end is read as it is. */
  lemma LfStep(rest: string)
    ensures Translate("\n" + rest) == "\n" + Translate(rest)
  {
    var s := "\n" + rest;
    assert s[0] == '\n' && s[1..] == rest;
  }

  /** Reading a `\r\n` file sees the same text as the `\n` file. */
  lemma {:induction false} TranslateCrlf(lines: seq<string>)
    requires forall i :: 0 <= i < |lines| ==> NoBreaks(lines[i])
    ensures Translate(JoinCrlf(lines)) == JoinLines(lines)
  {
    if lines != [] {
      var rest := JoinCrlf(lines[1..]);
      TranslateText(lines[0], "\r\n" + rest);
      assert JoinCrlf(lines) == lines[0] + ("\r\n" + rest);
      CrlfStep(rest);
      TranslateCrlf(lines[1..]);
      assert JoinLines(lines) == lines[0] + ("\n" + JoinLines(lines[1..]));
    }
  }

  /** The same file written with a lone `\r` after each line. */
  function JoinCr(lines: seq<string>): (r: string)
  {
    if lines == [] then [] else lines[0] + "\r" + JoinCr(lines[1..])
  }

  /** A line without a break runs to the end of the text. */
  lemma {:induction false} LineEndNoBreaks(line: string)
    requires NoBreaks(line)
    ensures LineEnd(line) == |line|
    decreases |line|
  {
    if line != [] {
      LineEndNoBreaks(line[1..]);
    }
  }

  /** Newline-ended lines in front of any text each add one line to its count. */
  lemma {:induction false} LineCountJoinTail(lines: seq<string>, tail: string)
    requires forall i :: 0 <= i < |lines| ==> NoBreaks(lines[i])
    ensures LineCount(JoinLines(lines) + tail) == |lines| + LineCount(tail)
  {
    if lines == [] {
      assert JoinLines(lines) + tail == tail;
    } else {
      var rest := JoinLines(lines[1..]) + tail;
      assert JoinLines(lines) + tail == lines[0] + "\n" + rest;
      LineEndOfLine(lines[0], rest);
      assert (lines[0] + "\n" + rest)[|lines[0]| + 1..] == rest;
      LineCountJoinTail(lines[1..], tail);
    }
  }

  /** A `\n`-ended prefix is read as it is, whatever follows it. */
  lemma {:induction false} TranslateLfTail(lines: seq<string>, tail: string)
    requires forall i :: 0 <= i < |lines| ==> NoBreaks(lines[i])
    ensures Translate(JoinLines(lines) + tail) == JoinLines(lines) + Translate(tail)
  {
    if lines == [] {
      assert JoinLines(lines) + tail == tail;
    } else {
      var rest := JoinLines(lines[1..]) + tail;
      TranslateText(lines[0], "\n" + rest);
      assert JoinLines(lines) + tail == lines[0] + ("\n" + rest);
      LfStep(rest);
      TranslateLfTail(lines[1..], tail);
    }
  }

  /** One lone `\r` line end, not followed by `\n`, is read as `\n`. */
  lemma CrStep(rest: string)
    requires rest == [] || rest[0] != '\n'
    ensures Translate("\r" + rest) == "\n" + Translate(rest)
  {
    var s := "\r" + rest;
    assert s[0] == '\r' && s[1..] == rest;
  }

  /** Reading a file of lone-`\r` line ends sees the same text as the `\n` file. */
  lemma {:induction false} TranslateCr(lines: seq<string>)
    requires forall i :: 0 <= i < |lines| ==> NoBreaks(lines[i])
    ensures Translate(JoinCr(lines)) == JoinLines(lines)
  {
    if lines != [] {
      var rest := JoinCr(lines[1..]);
      if lines[1..] != [] {
        var next := lines[1..];
        assert rest == next[0] + "\r" + JoinCr(next[1..]);
        assert rest[0] != '\n';
      }
      TranslateText(lines[0], "\r" + rest);
      assert JoinCr(lines) == lines[0] + ("\r" + rest);
      CrStep(rest);
      TranslateCr(lines[1..]);
      assert JoinLines(lines) == lines[0] + ("\n" + JoinLines(lines[1..]));
    }
  }

  /** A readable file with a header and `n` records counts `n` rows, whether each line ends in
      `\n`, `\r\n` or a lone `\r`; a last record without a line end still counts; an unreadable
      or an empty file counts -1. */
  lemma CsvRowCountSpec(header: string, records: seq<string>, last: string)
    requires NoBreaks(header)
    requires forall i :: 0 <= i < |records| ==> NoBreaks(records[i])
    ensures CsvRowCount(Some(JoinLines([header] + records))) == |records|
    ensures CsvRowCount(Some(JoinCrlf([header] + records))) == |records|
    ensures CsvRowCount(Some(JoinCr([header] + records))) == |records|
    ensures NoBreaks(last) && last != "" ==>
              CsvRowCount(Some(JoinLines([header] + records) + last)) == |records| + 1
    ensures CsvRowCount(None) == -1 && CsvRowCount(Some("")) == -1
  {
    var lines := [header] + records;
    assert forall i :: 0 <= i < |lines| ==> NoBreaks(lines[i]);
    LineCountJoin(lines);
    TranslateCrlf(lines);
    TranslateCr(lines);
    TranslateLf(lines);
    if NoBreaks(last) && last != "" {
      TranslateLfTail(lines, last);
      TranslateText(last, []);
      assert last + [] == last;
      LineCountJoinTail(lines, last);
      LineEndNoBreaks(last);
    }
  }

  /** A `\n`-ended file is read as it is. */
  lemma {:induction false} TranslateLf(lines: seq<string>)
    requires forall i :: 0 <= i < |lines| ==> NoBreaks(lines[i])
    ensures Translate(JoinLines(lines)) == JoinLines(lines)
  {
    if lines != [] {
      var rest := JoinLines(lines[1..]);
      TranslateText(lines[0], "\n" + rest);
      assert JoinLines(lines) == lines[0] + ("\n" + rest);
      LfStep(rest);
      TranslateLf(lines[1..]);
    }
  }

  // ---------------------------------------------------------------------
  // load_csv_to_table
  // ---------------------------------------------------------------------

  /** The outcome of `conn.execute("SELECT COUNT(*) ...").fetchone()`. */
  datatype CountOutcome = CountRaised | NoRow | CountRow(n: int)

  /** The embedded database as an oracle of statement outcomes: whether the CREATE TABLE and the
      PRAGMA for a table succeed, what its COUNT(*) gives, and what SHOW TABLES lists (None if it raises). */
  datatype Database = Database(createOk: string -> bool,
                               countRows: string -> CountOutcome,
                               tableInfoOk: string -> bool,
                               showTables: Option<seq<string>>)

  /** `(success, rows)` and whether the row-count mismatch warning was logged. */
  datatype LoadReport = LoadReport(success: bool, rows: int, mismatchWarning: bool)

  /** `result[0] if result else 0`. */
  function FetchedCount(o: CountOutcome): (r: int)
    requires !o.CountRaised?
  {
    if o.CountRow? then o.n else 0
  }

  predicate LoadStatementsSucceed(db: Database, table: string)
  {
    db.createOk(table) && !db.countRows(table).CountRaised? && db.tableInfoOk(table)
  }

  /** `load_csv_to_table`: any raising statement gives `(False, 0)`; otherwise `(True, loaded)`,
      with a warning when the file had rows and the table a different number. */
  function LoadCsvToTable(db: Database, files: string -> Option<string>, t: CsvTable): (r: LoadReport)
  {
    var originalRows := CsvRowCount(files(t.csvFile));
    if !LoadStatementsSucceed(db, t.tableName) then LoadReport(false, 0, false)
    else
      var loadedRows := FetchedCount(db.countRows(t.tableName));
      LoadReport(true, loadedRows, originalRows > 0 && loadedRows != originalRows)
  }

  /** The warning is logged only for a positive file count that differs from the loaded count, and
      it is never fatal: the line count from `get_csv_row_count` does not change whether the load
      succeeds or its rows. */
  lemma LoadReportSpec(db: Database, files: string -> Option<string>, other: string -> Option<string>, t: CsvTable)
    ensures var r := LoadCsvToTable(db, files, t);
            (r.success <==> LoadStatementsSucceed(db, t.tableName))
            && (!r.success ==> r.rows == 0 && !r.mismatchWarning)
            && (r.mismatchWarning <==>
                  (r.success && CsvRowCount(files(t.csvFile)) > 0 && r.rows != CsvRowCount(files(t.csvFile))))
    ensures var r, r' := LoadCsvToTable(db, files, t), LoadCsvToTable(db, other, t);
            r.success == r'.success && r.rows == r'.rows
  {
  }

  // ---------------------------------------------------------------------
  // The tally in main
  // ---------------------------------------------------------------------

  function SuccessCount(db: Database, files: string -> Option<string>, tables: seq<CsvTable>): (r: nat)
  {
    if tables == [] then 0
    else SuccessCount(db, files, tables[..|tables| - 1])
         + (if LoadCsvToTable(db, files, tables[|tables| - 1]).success then 1 else 0)
  }

  function RowTotal(db: Database, files: string -> Option<string>, tables: seq<CsvTable>): (r: int)
  {
    if tables == [] then 0
    else
      var r := LoadCsvToTable(db, files, tables[|tables| - 1]);
      RowTotal(db, files, tables[..|tables| - 1]) + (if r.success then r.rows else 0)
  }

  /** Every table loaded exactly when the tally reaches the number of tables. */
  lemma {:induction false} SuccessCountSpec(db: Database, files: string -> Option<string>, tables: seq<CsvTable>)
    ensures SuccessCount(db, files, tables) <= |tables|
    ensures SuccessCount(db, files, tables) == |tables|
            <==> forall i :: 0 <= i < |tables| ==> LoadCsvToTable(db, files, tables[i]).success
  {
    if tables != [] {
      var init := tables[..|tables| - 1];
      SuccessCountSpec(db, files, init);
      assert forall i :: 0 <= i < |init| ==> init[i] == tables[i];
    }
  }

  /** The row total adds the rows of the successful loads only, so when each table's count is
      non-negative the total is too, and a failed load never adds to it. */
  lemma {:induction false} RowTotalSpec(db: Database, files: string -> Option<string>, tables: seq<CsvTable>)
    requires forall i :: 0 <= i < |tables| ==> !db.countRows(tables[i].tableName).CountRow?
                                               || db.countRows(tables[i].tableName).n >= 0
    ensures RowTotal(db, files, tables) >= 0
    ensures (forall i :: 0 <= i < |tables| ==> !LoadCsvToTable(db, files, tables[i]).success)
            ==> RowTotal(db, files, tables) == 0
  {
    if tables != [] {
      var init := tables[..|tables| - 1];
      assert forall i :: 0 <= i < |init| ==> init[i] == tables[i];
      RowTotalSpec(db, files, init);
    }
  }

  /** The loading loop of `main`. */
  method LoadAllTables(db: Database, files: string -> Option<string>) returns (successfulLoads: nat, totalRows: int)
    ensures successfulLoads == SuccessCount(db, files, CsvTables)
    ensures totalRows == RowTotal(db, files, CsvTables)
  {
    successfulLoads, totalRows := 0, 0;
    for i := 0 to |CsvTables|
      invariant successfulLoads == SuccessCount(db, files, CsvTables[..i])
      invariant totalRows == RowTotal(db, files, CsvTables[..i])
    {
      var t := CsvTables[i];
      assert CsvTables[..i + 1][..i] == CsvTables[..i];
      var report := LoadCsvToTable(db, files, t);
      if report.success {
        successfulLoads := successfulLoads + 1;
        totalRows := totalRows + report.rows;
      }
    }
    assert CsvTables[..|CsvTables|] == CsvTables;
  }

  // ---------------------------------------------------------------------
  // validate_database
  // ---------------------------------------------------------------------

  predicate TableReadable(db: Database, table: string)
  {
    !db.countRows(table).CountRaised? && db.tableInfoOk(table)
  }

  /** The statistics `validate_database` returns: each listed table's row count, or `{}` when any
      statement raises, including the sample query on `raw_customers` and indexing its missing row. */
  function DatabaseStats(db: Database): (r: map<string, int>)
  {
    if db.showTables.None? then map[]
    else
      var names := db.showTables.value;
      if exists i :: 0 <= i < |names| && !TableReadable(db, names[i]) then map[]
      else if !db.countRows("raw_customers").CountRow? then map[]
      else map t | t in names :: FetchedCount(db.countRows(t))
  }

  /** The statistics are `{}` or map exactly the listed tables to their counts; they are non-empty
      exactly when SHOW TABLES lists a table, no count or PRAGMA raises, and the sample query
      returns a row. */
  lemma DatabaseStatsSpec(db: Database)
    ensures DatabaseStats(db) != map[]
            <==> db.showTables.Some? && |db.showTables.value| > 0
                 && (forall t :: t in db.showTables.value ==> TableReadable(db, t))
                 && db.countRows("raw_customers").CountRow?
    ensures var s := DatabaseStats(db);
            s == map[]
            || (db.showTables.Some?
                && (forall t :: t in s <==> t in db.showTables.value)
                && forall t :: t in s ==> TableReadable(db, t) && s[t] == FetchedCount(db.countRows(t)))
  {
    if db.showTables.Some? && |db.showTables.value| > 0
       && (forall t :: t in db.showTables.value ==> TableReadable(db, t))
       && db.countRows("raw_customers").CountRow? {
      assert db.showTables.value[0] in DatabaseStats(db);
    }
  }

  /** `validate_database`: the loop that fills `table_stats`, leaving with `{}` on the first raise. */
  method ValidateDatabase(db: Database) returns (stats: map<string, int>)
    ensures stats == DatabaseStats(db)
  {
    if db.showTables.None? {
      return map[];
    }
    var names := db.showTables.value;
    stats := map[];
    for i := 0 to |names|
      invariant forall j :: 0 <= j < i ==> TableReadable(db, names[j])
      invariant stats == map t | t in names[..i] :: FetchedCount(db.countRows(t))
    {
      var table := names[i];
      var count := db.countRows(table);
      if count.CountRaised? || !db.tableInfoOk(table) {
        return map[];
      }
      assert forall t :: t in names[..i + 1] <==> t in names[..i] || t == table;
      stats := stats[table := FetchedCount(count)];
    }
    assert names[..|names|] == names;
    if !db.countRows("raw_customers").CountRow? {
      return map[];
    }
  }

  // ---------------------------------------------------------------------
  // main
  // ---------------------------------------------------------------------

  /** How a run of the loader ends; every outcome but Completed exits with status 1. */
  datatype RunResult =
    | MissingCsvFiles(missing: seq<string>)
    | NotAllLoaded(successfulLoads: nat, totalRows: int)
    | ValidationFailed
    | Completed(totalRows: int, tableStats: map<string, int>)

  /** `main`: check the files, load every table, and validate only when all nine loaded. */
  method RunLoader(present: string -> bool, files: string -> Option<string>, db: Database)
    returns (result: RunResult)
    ensures result.MissingCsvFiles?
            <==> exists i :: 0 <= i < |CsvTables| && !present(CsvTables[i].csvFile)
    ensures result.MissingCsvFiles? ==> result.missing == MissingFiles(CsvTables, present)
    ensures result.NotAllLoaded? ==>
              result.successfulLoads == SuccessCount(db, files, CsvTables) < |CsvTables|
              && result.totalRows == RowTotal(db, files, CsvTables)
    ensures (result.ValidationFailed? || result.Completed?)
            <==> (forall i :: 0 <= i < |CsvTables| ==> present(CsvTables[i].csvFile))
                 && forall i :: 0 <= i < |CsvTables| ==> LoadCsvToTable(db, files, CsvTables[i]).success
    ensures result.Completed? <==> (result.ValidationFailed? || result.Completed?) && DatabaseStats(db) != map[]
    ensures result.Completed? ==>
              result.tableStats == DatabaseStats(db) && result.totalRows == RowTotal(db, files, CsvTables)
  {
    var ok, missing := CheckCsvFiles(present);
    if !ok {
      return MissingCsvFiles(missing);
    }
    var successfulLoads, totalRows := LoadAllTables(db, files);
    SuccessCountSpec(db, files, CsvTables);
    if successfulLoads == |CsvTables| {
      var tableStats := ValidateDatabase(db);
      if tableStats != map[] {
        result := Completed(totalRows, tableStats);
      } else {
        result := ValidationFailed;
      }
    } else {
      result := NotAllLoaded(successfulLoads, totalRows);
    }
  }
}
