/** The index builder: stored product records are flattened into a text and
    a metadata record each, which are then embedded and saved as an index. */
module Embeddings {
  import opened Wrappers
  import opened Text
  import opened Sequences

  /** A stored field value: BSON strings, numbers and booleans, and anything
      else (object ids, dates, null, nested values) as its rendering. */
  datatype Value = Str(s: string) | Num(x: real) | Bool(b: bool) | Other(repr: string)

  /** A stored record, fields in stored order. */
  type Record = seq<(string, Value)>

  /** The metadata of a document, fields in stored order. */
  type Metadata = seq<(string, Value)>

  const Separator: string := ". "

  /** `_id`, `created_at` and `source_type` are bookkeeping fields. */
  predicate IsExcluded(key: string) {
    key == "_id" || key == "created_at" || key == "source_type"
  }

  /** A value that describes the product in text: a non-blank string. */
  predicate IsDescriptive(v: Value) {
    v.Str? && Strip(v.s) != []
  }

  /** The `f"{key}: {value}"` fragment, with the value as stored. */
  function Fragment(key: string, text: string): (f: string)
    ensures |f| == |key| + 2 + |text|
  {
    key + ": " + text
  }

  /** The text fragments of a record, one per descriptive non-excluded
      field, in field order. */
  function Fragments(rec: Record): (fs: seq<string>)
    ensures |fs| <= |rec|
    ensures forall i :: 0 <= i < |fs| ==> fs[i] != []
  {
    if rec == [] then []
    else
      var (k, v) := rec[0];
      (if !IsExcluded(k) && IsDescriptive(v) then [Fragment(k, v.s)] else []) + Fragments(rec[1..])
  }

  /** A fragment is produced exactly for a descriptive, non-excluded field. */
  lemma {:induction false} FragmentsMembers(rec: Record, f: string)
    ensures f in Fragments(rec) <==>
            exists j :: 0 <= j < |rec| && !IsExcluded(rec[j].0) && IsDescriptive(rec[j].1)
                        && f == Fragment(rec[j].0, rec[j].1.s)
  {
    if rec != [] {
      FragmentsMembers(rec[1..], f);
      if f in Fragments(rec[1..]) {
        var j :| 0 <= j < |rec[1..]| && !IsExcluded(rec[1..][j].0) && IsDescriptive(rec[1..][j].1)
                 && f == Fragment(rec[1..][j].0, rec[1..][j].1.s);
        assert rec[j + 1] == rec[1..][j];
      }
      if j :| 0 <= j < |rec| && !IsExcluded(rec[j].0) && IsDescriptive(rec[j].1)
              && f == Fragment(rec[j].0, rec[j].1.s) {
        if j > 0 {
          assert rec[1..][j - 1] == rec[j];
        }
      }
    }
  }

  /** Fields contribute fragments independently and in field order. */
  lemma {:induction false} FragmentsAppend(a: Record, b: Record)
    ensures Fragments(a + b) == Fragments(a) + Fragments(b)
  {
    if a == [] {
      assert a + b == b;
    } else {
      assert (a + b)[1..] == a[1..] + b;
      FragmentsAppend(a[1..], b);
    }
  }

  /** A record has no fragment exactly when none of its fields is both
      non-excluded and descriptive. */
  lemma {:induction false} FragmentsEmpty(rec: Record)
    ensures Fragments(rec) == [] <==>
            forall j :: 0 <= j < |rec| ==> IsExcluded(rec[j].0) || !IsDescriptive(rec[j].1)
  {
    if Fragments(rec) != [] {
      FragmentsMembers(rec, Fragments(rec)[0]);
    }
    forall j | 0 <= j < |rec| && !IsExcluded(rec[j].0) && IsDescriptive(rec[j].1)
      ensures Fragments(rec) != []
    {
      FragmentsMembers(rec, Fragment(rec[j].0, rec[j].1.s));
    }
  }

  /** The metadata of a record: every non-excluded field, whatever its type
      and even when blank, with its stored value. */
  function MetadataOf(rec: Record): (m: Metadata)
    ensures |m| <= |rec|
    ensures forall i :: 0 <= i < |m| ==> !IsExcluded(m[i].0)
  {
    if rec == [] then []
    else (if IsExcluded(rec[0].0) then [] else [rec[0]]) + MetadataOf(rec[1..])
  }

  /** A field is in the metadata exactly when it is a non-excluded field of
      the record, and the metadata keeps the record's field order. */
  lemma {:induction false} MetadataMembers(rec: Record)
    ensures forall kv :: kv in MetadataOf(rec) <==> kv in rec && !IsExcluded(kv.0)
    ensures IsSubseq(MetadataOf(rec), rec)
  {
    if rec != [] {
      MetadataMembers(rec[1..]);
      assert forall kv :: kv in rec <==> kv == rec[0] || kv in rec[1..];
      if !IsExcluded(rec[0].0) {
        assert ([rec[0]] + MetadataOf(rec[1..]))[1..] == MetadataOf(rec[1..]);
      } else {
        assert MetadataOf(rec) == MetadataOf(rec[1..]);
      }
    }
  }

  /** Distinct field names stay distinct in the metadata. */
  lemma {:induction false} MetadataDistinct(rec: Record)
    requires DistinctKeys(rec)
    ensures DistinctKeys(MetadataOf(rec))
  {
    if rec != [] {
      var tail := rec[1..];
      var rest := MetadataOf(tail);
      assert DistinctKeys(tail) by {
        forall a, b | 0 <= a < b < |tail|
          ensures tail[a].0 != tail[b].0
        {
          assert tail[a] == rec[a + 1] && tail[b] == rec[b + 1];
        }
      }
      MetadataDistinct(tail);
      if !IsExcluded(rec[0].0) {
        MetadataMembers(tail);
        var m := [rec[0]] + rest;
        forall a, b | 0 <= a < b < |m|
          ensures m[a].0 != m[b].0
        {
          assert m[b] == rest[b - 1];
          if a > 0 {
            assert m[a] == rest[a - 1];
          } else {
            assert rest[b - 1] in tail;
            var j :| 0 <= j < |tail| && tail[j] == rest[b - 1];
            assert tail[j] == rec[j + 1];
          }
        }
      }
    }
  }

  /** The text and metadata one record contributes to the index. */
  datatype Flattened = Flattened(text: string, metadata: Metadata)

  /** One record as a document, or nothing when it has no fragment. */
  function Flatten(rec: Record): (r: Option<Flattened>)
    ensures r.None? <==> Fragments(rec) == []
    ensures r.Some? ==> r.value.text != [] && Fragments(rec)[0] <= r.value.text
    ensures r.Some? ==> r.value.text == Join(Separator, Fragments(rec)) && r.value.metadata == MetadataOf(rec)
  {
    var fs := Fragments(rec);
    if fs == [] then None else Some(Flattened(Join(Separator, fs), MetadataOf(rec)))
  }

  /** A record is dropped exactly when none of its fields is a non-blank
      string under a non-excluded key. */
  lemma FlattenDrops(rec: Record)
    ensures Flatten(rec).None? <==>
            forall j :: 0 <= j < |rec| ==> IsExcluded(rec[j].0) || !IsDescriptive(rec[j].1)
  {
    FragmentsEmpty(rec);
  }

  /** The texts and metadata of a collection, index-aligned. */
  datatype Extracted = Extracted(texts: seq<string>, metadataList: seq<Metadata>) {

    /** Both lists of `this` followed by both lists of `other`. */
    function Concat(other: Extracted): Extracted {
      Extracted(texts + other.texts, metadataList + other.metadataList)
    }
  }

  /** Puts one record's document, if any, in front of the rest. */
  function Prepend(f: Option<Flattened>, rest: Extracted): (out: Extracted)
    ensures f.None? ==> out == rest
    ensures f.Some? ==> |out.texts| == |rest.texts| + 1 && out.texts[0] == f.value.text
                        && out.texts[1..] == rest.texts
                        && |out.metadataList| == |rest.metadataList| + 1
                        && out.metadataList[0] == f.value.metadata
                        && out.metadataList[1..] == rest.metadataList
  {
    match f
    case None => rest
    case Some(d) => Extracted([d.text] + rest.texts, [d.metadata] + rest.metadataList)
  }

  /** Flattens every record, dropping those without a fragment. */
  function ExtractProducts(records: seq<Record>): (out: Extracted)
    ensures |out.texts| == |out.metadataList| <= |records|
    ensures forall i :: 0 <= i < |out.texts| ==> out.texts[i] != []
  {
    if records == [] then Extracted([], [])
    else Prepend(Flatten(records[0]), ExtractProducts(records[1..]))
  }

  /** Records are flattened independently and in order. */
  lemma {:induction false} ExtractProductsAppend(a: seq<Record>, b: seq<Record>)
    ensures ExtractProducts(a + b) == ExtractProducts(a).Concat(ExtractProducts(b))
  {
    if a == [] {
      assert a + b == b;
    } else {
      var ab := a + b;
      assert ab[0] == a[0] && ab[1..] == a[1..] + b;
      ExtractProductsAppend(a[1..], b);
      var x, y := ExtractProducts(a[1..]), ExtractProducts(b);
      var f := Flatten(a[0]);
      assert ExtractProducts(ab) == Prepend(f, x.Concat(y));
      if f.Some? {
        assert [f.value.text] + (x.texts + y.texts) == ([f.value.text] + x.texts) + y.texts;
        assert [f.value.metadata] + (x.metadataList + y.metadataList)
            == ([f.value.metadata] + x.metadataList) + y.metadataList;
      }
    }
  }

  /** Entry i of both lists comes from the same record. */
  lemma {:induction false} ExtractProductsAligned(records: seq<Record>, i: int)
    requires 0 <= i < |ExtractProducts(records).texts|
    ensures var out := ExtractProducts(records);
            exists j :: 0 <= j < |records|
                        && Flatten(records[j]) == Some(Flattened(out.texts[i], out.metadataList[i]))
  {
    var out := ExtractProducts(records);
    var rest := ExtractProducts(records[1..]);
    var f := Flatten(records[0]);
    assert out == Prepend(f, rest);
    if f.Some? && i == 0 {
      assert f == Some(Flattened(out.texts[0], out.metadataList[0]));
    } else {
      var i' := if f.Some? then i - 1 else i;
      assert out.texts[i] == rest.texts[i'] && out.metadataList[i] == rest.metadataList[i'];
      ExtractProductsAligned(records[1..], i');
      var j :| 0 <= j < |records[1..]|
               && Flatten(records[1..][j]) == Some(Flattened(rest.texts[i'], rest.metadataList[i']));
      assert records[j + 1] == records[1..][j];
    }
  }

  /** How many records have at least one fragment. */
  function DescribedCount(records: seq<Record>): nat {
    if records == [] then 0
    else (if Fragments(records[0]) != [] then 1 else 0) + DescribedCount(records[1..])
  }

  /** Every record with a fragment yields exactly one document, and nothing
      else does. */
  lemma {:induction false} ExtractProductsCount(records: seq<Record>)
    ensures |ExtractProducts(records).texts| == DescribedCount(records)
  {
    if records != [] {
      ExtractProductsCount(records[1..]);
    }
  }

  /** The document of record j sits right after those of the described
      records before it. */
  lemma {:induction false} ExtractProductsComplete(records: seq<Record>, j: int)
    requires 0 <= j < |records| && Flatten(records[j]).Some?
    ensures var out, i := ExtractProducts(records), DescribedCount(records[..j]);
            i < |out.texts|
            && Flatten(records[j]) == Some(Flattened(out.texts[i], out.metadataList[i]))
  {
    var out := ExtractProducts(records);
    var rest := ExtractProducts(records[1..]);
    var f := Flatten(records[0]);
    assert out == Prepend(f, rest);
    if j == 0 {
      assert records[..0] == [];
      assert DescribedCount(records[..0]) == 0;
    } else {
      var tail := records[1..];
      ExtractProductsComplete(tail, j - 1);
      var i' := DescribedCount(tail[..j - 1]);
      assert i' < |rest.texts|;
      assert Flatten(records[j]) == Some(Flattened(rest.texts[i'], rest.metadataList[i'])) by {
        assert tail[j - 1] == records[j];
      }
      var pre := records[..j];
      assert pre[1..] == tail[..j - 1] && pre[0] == records[0];
      var d := if f.Some? then 1 else 0;
      assert DescribedCount(pre) == d + i' by {
        assert (Fragments(records[0]) != []) == f.Some?;
      }
      assert out.texts[d + i'] == rest.texts[i'] && out.metadataList[d + i'] == rest.metadataList[i'];
    }
  }

  /** Reading the collection (`find`): the records, or the error raised. */
  type Fetch = Result<seq<Record>, string>

  /** `process_xml_products`: a failed read yields two empty lists. */
  function ProcessProducts(fetch: Fetch): (out: Extracted)
    ensures fetch.Err? ==> out == Extracted([], [])
    ensures fetch.Ok? ==> |out.texts| <= |fetch.value|
    ensures |out.texts| == |out.metadataList|
    ensures fetch.Ok? ==> out == ExtractProducts(fetch.value)
  {
    match fetch
    case Ok(records) => ExtractProducts(records)
    case Err(_) => Extracted([], [])
  }

  /** A stored shirt with an id, two strings and a number. */
  function ShirtRecord(): Record {
    [("_id", Other("65f0")), ("name", Str("Shirt")), ("color", Str("Red")), ("stock", Num(3.0))]
  }

  lemma ShirtFragments()
    ensures Fragments(ShirtRecord()) == ["name: Shirt", "color: Red"]
  {
    var rec := ShirtRecord();
    assert Strip("Shirt") != [] && Strip("Red") != [];
    assert Fragment("name", "Shirt") == "name: Shirt" && Fragment("color", "Red") == "color: Red";
    assert Fragments(rec[3..]) == [] by {
      assert rec[3..][1..] == [];
    }
    assert Fragments(rec[2..]) == ["color: Red"] by {
      assert rec[2..][0] == rec[2] && rec[2..][1..] == rec[3..];
    }
    assert Fragments(rec[1..]) == ["name: Shirt", "color: Red"] by {
      assert rec[1..][0] == rec[1] && rec[1..][1..] == rec[2..];
    }
  }

  lemma ShirtMetadata()
    ensures MetadataOf(ShirtRecord()) == ShirtRecord()[1..]
  {
  }

  /** The id is left out everywhere, the number only goes to the metadata,
      and the two strings become the text in field order. */
  lemma ShirtRecordExample()
    ensures Flatten(ShirtRecord())
         == Some(Flattened("name: Shirt. color: Red",
                           [("name", Str("Shirt")), ("color", Str("Red")), ("stock", Num(3.0))]))
  {
    ShirtFragments();
    ShirtMetadata();
    assert ["name: Shirt", "color: Red"][1..] == ["color: Red"];
    assert Join(Separator, ["name: Shirt", "color: Red"]) == "name: Shirt. color: Red";
  }

  /** A LangChain `Document`. */
  datatype Document = Document(pageContent: string, metadata: Metadata)

  /** `zip(texts, metadata_list)` into documents, pair by pair. */
  function ZipDocuments(texts: seq<string>, metas: seq<Metadata>): (docs: seq<Document>)
    ensures |docs| == if |texts| < |metas| then |texts| else |metas|
    ensures forall i :: 0 <= i < |docs| ==> docs[i] == Document(texts[i], metas[i])
  {
    if texts == [] || metas == [] then []
    else [Document(texts[0], metas[0])] + ZipDocuments(texts[1..], metas[1..])
  }

  /** How the external calls of one build run turn out. */
  datatype BuildEnv = BuildEnv(
    /** The collection handle: `None` when no connection could be made. */
    connection: Option<Fetch>,
    /** Embedding and index construction; `Some` is the error. */
    embed: Option<string>,
    /** `save_local`; `Some` is the error. */
    save: Option<string>)

  datatype BuildError = NoConnection | NoProducts | EmbeddingFailed(message: string) | SaveFailed(message: string)

  /** The documents saved with the index, or why the build stopped. */
  datatype BuildResult = Built(saved: seq<Document>) | Failed(error: BuildError) {
    /** The boolean the builder returns. */
    predicate Succeeded() {
      Built?
    }
  }

  /** `create_faiss_index_from_mongodb`. */
  function CreateFaissIndex(env: BuildEnv): (r: BuildResult)
    ensures env.connection.None? ==> r == Failed(NoConnection)
    ensures env.connection.Some? && ProcessProducts(env.connection.value).texts == [] ==>
              r == Failed(NoProducts)
    ensures r.Succeeded() <==> env.connection.Some? && ProcessProducts(env.connection.value).texts != []
                               && env.embed.None? && env.save.None?
    ensures r.Built? ==>
              var out := ProcessProducts(env.connection.value);
              |r.saved| == |out.texts|
              && forall i :: 0 <= i < |r.saved| ==>
                   r.saved[i].pageContent == out.texts[i] && r.saved[i].metadata == out.metadataList[i]
  {
    match env.connection
    case None => Failed(NoConnection)
    case Some(fetch) =>
      var out := ProcessProducts(fetch);
      if out.texts == [] then Failed(NoProducts)
      else
        var documents := ZipDocuments(out.texts, out.metadataList);
        match env.embed
        case Some(e) => Failed(EmbeddingFailed(e))
        case None =>
          match env.save
          case Some(e) => Failed(SaveFailed(e))
          case None => Built(documents)
  }

  /** Every saved document is the flattening of some stored record. */
  lemma SavedDocumentsFromRecords(env: BuildEnv, i: int)
    requires CreateFaissIndex(env).Built? && 0 <= i < |CreateFaissIndex(env).saved|
    ensures env.connection.Some? && env.connection.value.Ok?
    ensures var records := env.connection.value.value;
            var d := CreateFaissIndex(env).saved[i];
            exists j :: 0 <= j < |records| && Flatten(records[j]) == Some(Flattened(d.pageContent, d.metadata))
  {
    ExtractProductsAligned(env.connection.value.value, i);
  }
}
