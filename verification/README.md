# Product RAG chatbot — a Dafny model of its pure core

The chatbot has three scripts. A CSV importer loads product rows into a MongoDB
collection. An index builder turns the stored products into LangChain documents
and builds a FAISS index over them. A Flask service answers `POST /query` by
lazily building a retrieval chain (a top-5 retriever, a prompt and a Cohere chat
model) and invoking it. Nearly everything is a call into pandas, pymongo, Cohere,
FAISS or Flask. This project models the logic the scripts themselves contribute:

- **Row normalisation** (`CsvImporter`). A row is a sequence of
  `(column, cell)` pairs, where a cell is `Option<string>` and `None` stands for
  NaN. A cell is kept when it is non-null and non-blank after Python's `strip()`,
  and it is stored stripped. A row with nothing kept yields no product.
  `ImportCsv` adds the drop-then-insert effect on the collection and the
  `(success, message)` result. Pandas, MongoDB and the insert are opaque outcomes
  in an `ImportEnv`.
- **Record flattening** (`Embeddings`). A stored record is an ordered
  `seq<(string, Value)>`, where `Value` is a string, number, boolean or other
  value. The record becomes the `". "`-join of its `"key: value"` fragments and
  a metadata record. `CreateFaissIndex` adds the abort conditions and the zip
  into documents. Connection, embedding and saving are opaque outcomes in a
  `BuildEnv`.
- **Query handler** (`RagService`). The handler has two states, `Unset` and
  `Ready(chain)`. It validates the input, builds the chain lazily, and answers
  with 200, 400 or 500. The index directory, the similarity search and the chat
  model are opaque outcomes in an `Env`.

Supporting modules:
- `Text` holds Python's `str.isspace`/`strip`, `str.join` and decimal rendering
  of a count.
- `Sequences` holds order-preserving subsequences and key sequences.
- `Wrappers` holds `Option` and `Result`.

Points of the code worth knowing when reading the model:
- The metadata leaves out `_id`, `created_at` and `source_type`, just as the text
  does: the assignment at `create_embeddings.py:49` sits inside the exclusion
  test at `create_embeddings.py:46`.
- Missing `index.faiss` or `index.pkl` files only produce a warning, and the load
  is still attempted (`product-rag-system.py:58-62`). Whether that load succeeds
  is the opaque loader outcome.
- The query is validated before the chain is built
  (`product-rag-system.py:119-127`), so a request without a query never triggers
  a load.
- The check is `not query_text`. A query of blanks is therefore accepted and sent
  to the chain. Only an absent, null or empty `query` gets the 400 response.

## Model

| member | source | states |
|---|---|---|
| `Text.Strip` | csv_importer.py:53-55 | the result has no whitespace at either end and is empty exactly when the input is all whitespace (Python `str.isspace` set) |
| `Text.StripInfix` | csv_importer.py:53-55 | the result is the infix of the input between a whitespace-only prefix and a whitespace-only suffix |
| `Text.StripUnique` | csv_importer.py:53-55 | stripping any blank-padded stripped string gives that string back, so `Strip` is fully characterised by its contract |
| `Text.StripIdempotent` | csv_importer.py:53-55 | a stored (stripped) value is unchanged by stripping again |
| `Text.Join` | create_embeddings.py:52 | `". ".join` of a non-empty list starts with its first part; of the empty list is empty |
| `Text.JoinAppend` | create_embeddings.py:52 | joining two non-empty lists back to back equals joining each and gluing them with one separator |
| `Text.JoinLength` | create_embeddings.py:52 | the joined text's length is the parts' total plus one separator between each pair of neighbours |
| `Text.NatToString` | csv_importer.py:108 | the count in the success message is a non-empty digit string without leading zeros |
| `Text.ParseNatToString` | csv_importer.py:108 | reading the rendered count back yields the count |
| `CsvImporter.NormaliseRow` | csv_importer.py:52-56 | a product has at most as many fields as the row has cells, and every value is non-empty with no whitespace at either end |
| `CsvImporter.NormaliseRowMembers` | csv_importer.py:52-56 | `(k, v)` is in the product iff some column `k` holds a non-null cell whose strip is the non-empty `v` |
| `CsvImporter.NormaliseRowKeysInOrder` | csv_importer.py:50-56 | the product's field names are a subsequence of the row's columns, in column order |
| `CsvImporter.NormaliseRowDropsBlankCells` | csv_importer.py:55 | with distinct column names, a null or whitespace-only cell's column is the name of no field of the product |
| `CsvImporter.NormaliseRowDistinct` | csv_importer.py:52-56 | distinct column names give a product with distinct field names (a faithful dict) |
| `CsvImporter.ShirtRowExample` | csv_importer.py:52-56 | the row `name = "Shirt", price = "  "` becomes the product `{name: "Shirt"}` |
| `CsvImporter.ProcessCsvData` | csv_importer.py:46-61 | no more products than rows, no empty product, and every stored value is non-empty and stripped |
| `CsvImporter.ProcessCsvDataAppend` | csv_importer.py:50-59 | rows are processed independently and in input order: processing `a + b` is processing `a` then `b` |
| `CsvImporter.ProcessCsvDataMembers` | csv_importer.py:58-59 | a product is emitted iff it is the non-empty normalisation of some row |
| `CsvImporter.ReadRows` | csv_importer.py:86-94 | `nrows=limit_rows` reads the first `min(limit, rows)` rows of the file; no limit reads everything |
| `CsvImporter.ImportCsv` | csv_importer.py:63-113 | a connection error leaves the collection untouched with `(False, "Fehler beim CSV-Import: " + msg)`; after the drop the collection only ever holds a prefix of the processed products (at most `limit`); no products gives `(False, "Keine Daten zum Importieren gefunden")` with an empty collection; a read error gives `(False, "Fehler beim CSV-Import: " + error)` with an empty collection; an insert error gives the same prefix with the insert's message and keeps exactly the products accepted before it; success holds iff every step succeeds and then the collection is exactly the products and the message reports their count |
| `CsvImporter.ImportReplacesCollection` | csv_importer.py:76-82 | once the drop is reached, the previous contents have no influence on the result: replace, not merge |
| `CsvImporter.ImportMessageReportsCount` | csv_importer.py:105-108 | the number in the success message parses back to the number of stored products |
| `Embeddings.Fragments` | create_embeddings.py:45-48 | at most one fragment per field, each non-empty |
| `Embeddings.FragmentsMembers` | create_embeddings.py:46-48 | `f` is a fragment iff some field with a non-excluded key and a non-blank string value `s` gives `f == key + ": " + s`, with `s` unstripped |
| `Embeddings.FragmentsAppend` | create_embeddings.py:45-48 | fragments follow field order: the fragments of `a + b` are those of `a` then those of `b` |
| `Embeddings.FragmentsEmpty` | create_embeddings.py:45-51 | a record has no fragment iff each field is excluded or not a non-blank string |
| `Embeddings.MetadataOf` | create_embeddings.py:45-49 | the metadata never holds `_id`, `created_at` or `source_type` |
| `Embeddings.MetadataMembers` | create_embeddings.py:45-49 | a field is in the metadata iff it is a field of the record with a non-excluded key, whatever its type or blankness, and the metadata keeps field order |
| `Embeddings.MetadataDistinct` | create_embeddings.py:43-49 | distinct field names stay distinct in the metadata |
| `Embeddings.Flatten` | create_embeddings.py:41-54 | a record yields a document iff it has a fragment; the document's text is the `". "`-join of all its fragments (so non-empty, starting with the first) and its metadata is the record's metadata |
| `Embeddings.FlattenDrops` | create_embeddings.py:46-51 | a record is dropped iff none of its fields is a non-blank string under a non-excluded key |
| `Embeddings.ShirtRecordExample` | create_embeddings.py:45-52 | the record `_id, name = "Shirt", color = "Red", stock = 3` gives the text `"name: Shirt. color: Red"` and metadata holding `name`, `color` and `stock` but not `_id` |
| `Embeddings.ExtractProducts` | create_embeddings.py:40-54 | texts and metadata lists have equal length, at most the number of records, and every text is non-empty |
| `Embeddings.ExtractProductsAppend` | create_embeddings.py:40-54 | records are flattened independently and in cursor order |
| `Embeddings.ExtractProductsAligned` | create_embeddings.py:51-54 | `texts[i]` and `metadata_list[i]` come from the flattening of one and the same record |
| `Embeddings.ExtractProductsCount` | create_embeddings.py:40-54 | there are exactly as many documents as records with at least one fragment |
| `Embeddings.ExtractProductsComplete` | create_embeddings.py:51-54 | the document of a record with a fragment is in the lists, at the position given by the number of such records before it |
| `Embeddings.ProcessProducts` | create_embeddings.py:29-64 | a failing read of the collection yields two empty lists; otherwise the lists are the extraction of the records read, aligned and no longer than the collection |
| `Embeddings.ZipDocuments` | create_embeddings.py:85-88 | document `i` pairs `texts[i]` with `metadata_list[i]`, for as many pairs as the shorter list |
| `Embeddings.CreateFaissIndex` | create_embeddings.py:67-100 | no connection or no texts give failure; the build succeeds iff there are texts and embedding and saving succeed, and then the saved documents are exactly the aligned texts and metadata |
| `Embeddings.SavedDocumentsFromRecords` | create_embeddings.py:74-94 | every saved document is the flattening of some stored record |
| `RagService.LoadVectorStore` | product-rag-system.py:44-74 | a missing directory returns `None` without loading; otherwise the load is attempted and its outcome decides the store; the warning is printed iff a directory exists but an index file is missing |
| `RagService.MissingFilesOnlyWarn` | product-rag-system.py:58-62 | the presence of `index.faiss` and `index.pkl` never changes which store is returned |
| `RagService.SetupRetrievalQaChain` | product-rag-system.py:77-104 | the chain is built iff a store is loaded, with retriever k = 5; otherwise it raises "VectorStore konnte nicht geladen werden" |
| `RagService.PromptFor` | product-rag-system.py:95-98 | the prompt carries the question unchanged and at most the first k ranked documents |
| `RagService.Invoke` | product-rag-system.py:97-102 | a failing search fails the invocation with its error; a ranking of at most k documents goes to the chat model whole, with the question unchanged |
| `RagService.InvokeSeesOnlyTopK` | product-rag-system.py:95-102 | rankings that agree on their first k = 5 documents give the same answer: nothing past the retriever's top k reaches the chat model |
| `RagService.Query` | product-rag-system.py:115-141 | a missing or empty query gets 400 "Keine Suchanfrage angegeben" with the state unchanged; a failed setup gets 500 "Fehler bei der Verarbeitung: ..." and stays `Unset`; a successful setup sets the chain with k = 5; a set chain is never replaced; a 200 response carries `context = []` and only comes from a set chain; a malformed body gets 500 with its error; a valid query on a set or just-built chain gets 200 with the chain's answer when the invocation succeeds and 500 with its error otherwise |
| `RagService.MissingQueryIgnoresEnv` | product-rag-system.py:119-122 | a request without a query never reaches setup: its outcome does not depend on the index or the models |
| `RagService.ReadyNeverReloads` | product-rag-system.py:125-127 | once set, the chain is reused and the index directory no longer matters |
| `RagService.Serve` | product-rag-system.py:106-127 | over a run of requests, each state is the previous one after `query` |
| `RagService.ReadyIsFinal` | product-rag-system.py:125-127 | once set, the chain stays the same for the rest of a run |
| `RagService.SetupAtMostOnce` | product-rag-system.py:125-127 | after the request that set the chain, no later request finds it unset, so setup happens at most once per run |
| `RagService.RetryAfterFailedSetup` | product-rag-system.py:126-141 | a failed setup leaves the handle unset, so the next valid request with a loadable index builds the chain |

## Left out

- The CSV dialect and pandas' `str()` rendering of numeric or NaN cells are not modelled: the importer takes the parsed, rendered rows as input. Column names are assumed distinct, as pandas makes them, and that assumption is a lemma hypothesis.
- `CsvImporter.ReadRows`: the row limit is a `nat`. A negative `limit_rows` makes pandas raise, which is the same error path as any read failure. The model reads the whole file before applying the limit, so a parse error after the limit is not distinguished.
- CsvImporter.ImportCsv: the `_id` that `insert_many` adds to each stored product is not modelled, so the collection is stated to hold the products as they were built. The generated value is an opaque identifier, and the index builder leaves `_id` out of both text and metadata.
- MongoDB calls are not modelled (connection, `list_collection_names`, `drop_collection`, `insert_many`, `count_documents` and both `connect_to_mongodb` helpers). They are I/O and become outcomes. An ordered `insert_many` that fails keeps the products it accepted first.
- Cohere embedding and chat calls are not modelled. They are foreign calls: the embedding step is a success/failure outcome, and the chat model is an opaque function from prompt to result.
- FAISS index construction, similarity search and `save_local`/`load_local` serialisation are not modelled. The loaded store is an opaque handle, and the search's ranking of documents is an opaque outcome.
- The truthiness of a loaded store is not modelled: `if not vectorstore` is taken to reject only `None`.
- The per-document `except` in `process_xml_products` cannot fire for the modelled values, so no document is skipped for an error.
- Flask is not modelled (routing, `render_template` for `/`, JSON parsing and serialisation). A request is a malformed body (its exception, which becomes a 500) or an object whose `query` is a string, null or absent. Non-string `query` values are left out.
- Environment variables are not modelled, nor the start-up `ValueError` when `COHERE_API_KEY` is missing.
- Concurrency is not modelled: requests are handled one at a time, so the race between two first requests that both build the chain is not represented.
- The `__main__` scripts, all `print` output and the prompt wording are not modelled.
