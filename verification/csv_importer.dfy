/** The CSV importer: parsed rows become product records, which replace the
    contents of the product collection. */
module CsvImporter {
  import opened Wrappers
  import opened Text
  import opened Sequences

  /** A parsed cell as the string pandas renders; `None` is NaN. */
  type Cell = Option<string>

  /** One parsed row: (column, cell) pairs in column order. */
  type Row = seq<(string, Cell)>

  /** A stored product: (field, value) pairs in column order. */
  type Product = seq<(string, string)>

  const NoDataMessage: string := "Keine Daten zum Importieren gefunden"
  const ErrorPrefix: string := "Fehler beim CSV-Import: "
  const SuccessSuffix: string := " Produkte erfolgreich importiert"

  /** A cell survives normalisation when it is not null and not blank. */
  predicate IsKept(cell: Cell) {
    cell.Some? && Strip(cell.value) != []
  }

  /** One row as a product: the kept cells, stripped, in column order. */
  function NormaliseRow(row: Row): (p: Product)
    ensures |p| <= |row|
    ensures forall i :: 0 <= i < |p| ==> p[i].1 != [] && IsStripped(p[i].1)
  {
    if row == [] then []
    else
      var rest := NormaliseRow(row[1..]);
      if IsKept(row[0].1) then [(row[0].0, Strip(row[0].1.value))] + rest else rest
  }

  /** A field is in the product exactly when some column of the row holds a
      kept cell under that name, and its value is that cell stripped. */
  lemma {:induction false} NormaliseRowMembers(row: Row, k: string, v: string)
    ensures (k, v) in NormaliseRow(row) <==>
            exists j :: 0 <= j < |row| && row[j].0 == k && IsKept(row[j].1)
                        && Strip(row[j].1.value) == v
  {
    if row != [] {
      var rest := NormaliseRow(row[1..]);
      NormaliseRowMembers(row[1..], k, v);
      if (k, v) in rest {
        var j :| 0 <= j < |row[1..]| && row[1..][j].0 == k && IsKept(row[1..][j].1)
                 && Strip(row[1..][j].1.value) == v;
        assert row[j + 1] == row[1..][j];
      }
      if j :| 0 <= j < |row| && row[j].0 == k && IsKept(row[j].1) && Strip(row[j].1.value) == v {
        if j > 0 {
          assert row[1..][j - 1] == row[j];
          assert (k, v) in rest;
        }
      }
    }
  }

  /** The product's fields come in the row's column order. */
  lemma {:induction false} NormaliseRowKeysInOrder(row: Row)
    ensures IsSubseq(Keys(NormaliseRow(row)), Keys(row))
  {
    if row != [] {
      var rest := NormaliseRow(row[1..]);
      NormaliseRowKeysInOrder(row[1..]);
      assert Keys(row)[1..] == Keys(row[1..]);
      if IsKept(row[0].1) {
        var p := [(row[0].0, Strip(row[0].1.value))] + rest;
        assert p[1..] == rest;
        assert Keys(p)[1..] == Keys(rest);
      }
    }
  }

  /** With distinct column names (as pandas guarantees), a null or blank
      cell leaves no trace of its column in the product. */
  lemma NormaliseRowDropsBlankCells(row: Row, j: int)
    requires DistinctKeys(row) && 0 <= j < |row| && !IsKept(row[j].1)
    ensures forall i :: 0 <= i < |NormaliseRow(row)| ==> NormaliseRow(row)[i].0 != row[j].0
  {
    var p := NormaliseRow(row);
    forall i | 0 <= i < |p|
      ensures p[i].0 != row[j].0
    {
      assert p[i] in p;
      NormaliseRowMembers(row, p[i].0, p[i].1);
    }
  }

  /** Distinct column names give distinct field names. */
  lemma {:induction false} NormaliseRowDistinct(row: Row)
    requires DistinctKeys(row)
    ensures DistinctKeys(NormaliseRow(row))
  {
    if row != [] {
      var tail := row[1..];
      var rest := NormaliseRow(tail);
      assert DistinctKeys(tail) by {
        forall a, b | 0 <= a < b < |tail|
          ensures tail[a].0 != tail[b].0
        {
          assert tail[a] == row[a + 1] && tail[b] == row[b + 1];
        }
      }
      NormaliseRowDistinct(tail);
      if IsKept(row[0].1) {
        NormaliseRowKeysInOrder(tail);
        SubseqMembers(Keys(rest), Keys(tail));
        assert row[0].0 !in Keys(tail) by {
          forall j | 0 <= j < |tail|
            ensures Keys(tail)[j] != row[0].0
          {
            assert tail[j] == row[j + 1];
          }
        }
        var p := [(row[0].0, Strip(row[0].1.value))] + rest;
        forall a, b | 0 <= a < b < |p|
          ensures p[a].0 != p[b].0
        {
          assert p[b] == rest[b - 1];
          if a > 0 {
            assert p[a] == rest[a - 1];
          } else {
            assert Keys(rest)[b - 1] in Keys(rest);
          }
        }
      }
    }
  }

  /** A blank price is dropped and the name is kept as it is. */
  lemma ShirtRowExample()
    ensures NormaliseRow([("name", Some("Shirt")), ("price", Some("  "))]) == [("name", "Shirt")]
  {
    StripUnique([], "Shirt", []);
    assert [] + "Shirt" + [] == "Shirt";
    assert Strip("  ") == [];
  }

  /** The products of a table: one per row that keeps at least one cell. */
  function ProcessCsvData(rows: seq<Row>): (products: seq<Product>)
    ensures |products| <= |rows|
    ensures forall i :: 0 <= i < |products| ==> products[i] != []
    ensures forall i, f :: 0 <= i < |products| && f in products[i] ==> f.1 != [] && IsStripped(f.1)
  {
    if rows == [] then []
    else
      var p := NormaliseRow(rows[0]);
      (if p == [] then [] else [p]) + ProcessCsvData(rows[1..])
  }

  /** Rows are processed independently and in order. */
  lemma {:induction false} ProcessCsvDataAppend(a: seq<Row>, b: seq<Row>)
    ensures ProcessCsvData(a + b) == ProcessCsvData(a) + ProcessCsvData(b)
  {
    if a == [] {
      assert a + b == b;
    } else {
      assert (a + b)[1..] == a[1..] + b;
      ProcessCsvDataAppend(a[1..], b);
    }
  }

  /** A product is emitted exactly when it is the non-empty normalisation of
      some row. */
  lemma {:induction false} ProcessCsvDataMembers(rows: seq<Row>, p: Product)
    ensures p in ProcessCsvData(rows) <==>
            p != [] && exists i :: 0 <= i < |rows| && NormaliseRow(rows[i]) == p
  {
    if rows != [] {
      ProcessCsvDataMembers(rows[1..], p);
      if p in ProcessCsvData(rows[1..]) {
        var i :| 0 <= i < |rows[1..]| && NormaliseRow(rows[1..][i]) == p;
        assert rows[i + 1] == rows[1..][i];
      }
      if i :| 0 <= i < |rows| && NormaliseRow(rows[i]) == p {
        if i > 0 {
          assert rows[1..][i - 1] == rows[i];
        }
      }
    }
  }

  /** `nrows=limit_rows`: at most `limit` rows are read, from the top. */
  function ReadRows(rows: seq<Row>, limit: Option<nat>): (read: seq<Row>)
    ensures read <= rows
    ensures limit.None? ==> read == rows
    ensures limit.Some? ==> |read| == if limit.value < |rows| then limit.value else |rows|
  {
    match limit
    case None => rows
    case Some(n) => if n < |rows| then rows[..n] else rows
  }

  /** How the external calls of one import run turn out. */
  datatype ImportEnv = ImportEnv(
    /** Connecting, listing and dropping the collection; `Some` is the error. */
    connect: Option<string>,
    /** `pd.read_csv` of the file: its rows, or the error it raised. */
    csv: Result<seq<Row>, string>,
    /** `insert_many`, ordered: all inserted, or how many went in first. */
    insert: InsertOutcome)

  datatype InsertOutcome = Inserted | InsertFailed(accepted: nat, message: string)

  /** The `(success, message)` pair and the collection afterwards. */
  datatype ImportResult = ImportResult(success: bool, message: string, collection: seq<Product>)

  /** The products a successful read produces; none when the read fails. */
  function ParsedProducts(csv: Result<seq<Row>, string>, limit: Option<nat>): seq<Product> {
    match csv
    case Ok(rows) => ProcessCsvData(ReadRows(rows, limit))
    case Err(_) => []
  }

  /** `import_csv_to_mongodb`: drops the collection, reads and normalises the
      file, and inserts the products. */
  function ImportCsv(prior: seq<Product>, env: ImportEnv, limit: Option<nat>): (r: ImportResult)
    ensures env.connect.Some? ==> r == ImportResult(false, ErrorPrefix + env.connect.value, prior)
    ensures env.connect.None? ==> r.collection <= ParsedProducts(env.csv, limit)
    ensures env.connect.None? && limit.Some? ==> |r.collection| <= limit.value
    ensures r.success <==> env.connect.None? && env.csv.Ok? && env.insert.Inserted?
                           && ParsedProducts(env.csv, limit) != []
    ensures r.success ==> r.collection == ParsedProducts(env.csv, limit)
                          && r.message == NatToString(|r.collection|) + SuccessSuffix
    ensures env.connect.None? && env.csv.Ok? && ParsedProducts(env.csv, limit) == [] ==>
              r == ImportResult(false, NoDataMessage, [])
    ensures !r.success ==> r.message == NoDataMessage || ErrorPrefix <= r.message
    ensures env.connect.None? && env.csv.Err? ==> r == ImportResult(false, ErrorPrefix + env.csv.error, [])
    ensures env.connect.None? && env.insert.InsertFailed? && ParsedProducts(env.csv, limit) != [] ==>
              var products := ParsedProducts(env.csv, limit);
              var n := env.insert.accepted;
              r == ImportResult(false, ErrorPrefix + env.insert.message,
                                products[..if n < |products| then n else |products|])
  {
    match env.connect
    case Some(e) => ImportResult(false, ErrorPrefix + e, prior)
    case None =>
      match env.csv
      case Err(e) => ImportResult(false, ErrorPrefix + e, [])
      case Ok(rows) =>
        var products := ProcessCsvData(ReadRows(rows, limit));
        if products == [] then ImportResult(false, NoDataMessage, [])
        else
          match env.insert
          case Inserted =>
            ImportResult(true, NatToString(|products|) + SuccessSuffix, products)
          case InsertFailed(n, e) =>
            ImportResult(false, ErrorPrefix + e, products[..if n < |products| then n else |products|])
  }

  /** Once the collection could be dropped, what it held before has no
      influence on the outcome: the import replaces, it never merges. */
  lemma ImportReplacesCollection(prior1: seq<Product>, prior2: seq<Product>, env: ImportEnv, limit: Option<nat>)
    requires env.connect.None?
    ensures ImportCsv(prior1, env, limit) == ImportCsv(prior2, env, limit)
  {
  }

  /** The success message states how many products are now stored. */
  lemma ImportMessageReportsCount(prior: seq<Product>, env: ImportEnv, limit: Option<nat>)
    requires ImportCsv(prior, env, limit).success
    ensures var r := ImportCsv(prior, env, limit);
            var count := r.message[..|r.message| - |SuccessSuffix|];
            IsDigits(count) && ParseNat(count) == |r.collection|
  {
    var r := ImportCsv(prior, env, limit);
    var count := NatToString(|r.collection|);
    assert r.message[..|r.message| - |SuccessSuffix|] == count;
    ParseNatToString(|r.collection|);
  }
}
