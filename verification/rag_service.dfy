/** The query service: a two-state handler that builds the retrieval chain
    lazily on the first valid query and reuses it afterwards. */
module RagService {
  import opened Wrappers

  /** Number of documents the retriever hands to the prompt. */
  const RetrieverK: nat := 5

  const StatusOk: nat := 200
  const StatusBadRequest: nat := 400
  const StatusServerError: nat := 500

  const NoQueryMessage: string := "Keine Suchanfrage angegeben"
  const ProcessingErrorPrefix: string := "Fehler bei der Verarbeitung: "
  const StoreNotLoadedMessage: string := "VectorStore konnte nicht geladen werden"

  /** An opaque handle on a loaded FAISS vector store. */
  datatype VectorStore = VectorStore(id: nat)

  /** The index directory as the service finds it, and what
      `FAISS.load_local` does with it. */
  datatype IndexDir = IndexDir(
    dirExists: bool,
    hasIndexFile: bool,
    hasPickleFile: bool,
    load: Result<VectorStore, string>)

  /** What `load_vectorstore` returns, whether it warned about missing index
      files, and whether it called the loader at all. */
  datatype LoadReport = LoadReport(store: Option<VectorStore>, warnedMissingFiles: bool, attemptedLoad: bool)

  /** `load_vectorstore`. */
  function LoadVectorStore(dir: IndexDir): (r: LoadReport)
    ensures !dir.dirExists ==> r == LoadReport(None, false, false)
    ensures dir.dirExists ==> r.attemptedLoad
    ensures r.store.Some? <==> dir.dirExists && dir.load.Ok?
    ensures r.store.Some? ==> r.store.value == dir.load.value
    ensures r.warnedMissingFiles <==> dir.dirExists && !(dir.hasIndexFile && dir.hasPickleFile)
  {
    if !dir.dirExists then LoadReport(None, false, false)
    else
      var warned := !dir.hasIndexFile || !dir.hasPickleFile;
      match dir.load
      case Ok(store) => LoadReport(Some(store), warned, true)
      case Err(_) => LoadReport(None, warned, true)
  }

  /** Missing index files only produce a warning: they never change which
      store is loaded. */
  lemma MissingFilesOnlyWarn(dir: IndexDir, hasIndexFile: bool, hasPickleFile: bool)
    ensures LoadVectorStore(dir).store
         == LoadVectorStore(dir.(hasIndexFile := hasIndexFile, hasPickleFile := hasPickleFile)).store
  {
  }

  /** A built retrieval chain: the store behind a top-k retriever. */
  datatype Chain = Chain(store: VectorStore, k: nat)

  /** `setup_retrieval_qa_chain`: raises when no store could be loaded. */
  function SetupRetrievalQaChain(dir: IndexDir): (r: Result<Chain, string>)
    ensures r.Ok? <==> dir.dirExists && dir.load.Ok?
    ensures r.Ok? ==> r.value == Chain(dir.load.value, RetrieverK)
    ensures r.Err? ==> r.error == StoreNotLoadedMessage
  {
    match LoadVectorStore(dir).store
    case None => Err(StoreNotLoadedMessage)
    case Some(store) => Ok(Chain(store, RetrieverK))
  }

  /** What the prompt template is filled with. */
  datatype Prompt = Prompt(context: seq<string>, question: string)

  /** The foreign calls behind a chain: the similarity search's ranking of
      the store's documents for the question, and the chat model. */
  datatype Backend = Backend(search: Result<seq<string>, string>, llm: Prompt -> Result<string, string>)

  /** The prompt: the retriever's top k documents and the question as asked. */
  function PromptFor(chain: Chain, question: string, ranked: seq<string>): (p: Prompt)
    ensures p.question == question
    ensures p.context <= ranked
    ensures |p.context| == if |ranked| < chain.k then |ranked| else chain.k
  {
    Prompt(if |ranked| <= chain.k then ranked else ranked[..chain.k], question)
  }

  /** `retrieval_qa_chain.invoke(query_text)`. */
  function Invoke(chain: Chain, question: string, backend: Backend): (r: Result<string, string>)
    ensures backend.search.Err? ==> r == Err(backend.search.error)
    ensures backend.search.Ok? && |backend.search.value| <= chain.k ==>
              r == backend.llm(Prompt(backend.search.value, question))
  {
    match backend.search
    case Err(e) => Err(e)
    case Ok(ranked) => backend.llm(PromptFor(chain, question, ranked))
  }

  /** Only the retriever's top k documents reach the chat model: rankings
      that agree on their first k entries give the same answer, whatever
      follows. */
  lemma InvokeSeesOnlyTopK(chain: Chain, question: string, backend: Backend, ranked1: seq<string>, ranked2: seq<string>)
    requires chain.k <= |ranked1| && chain.k <= |ranked2| && ranked1[..chain.k] == ranked2[..chain.k]
    ensures Invoke(chain, question, backend.(search := Ok(ranked1)))
         == Invoke(chain, question, backend.(search := Ok(ranked2)))
  {
    assert PromptFor(chain, question, ranked1) == PromptFor(chain, question, ranked2);
  }

  /** The body of a POST to /query: unreadable JSON (the error it raises),
      or an object whose `query` member may be absent or null. */
  datatype Request = Malformed(error: string) | JsonBody(query: Option<string>)

  datatype Body = AnswerBody(answer: string, context: seq<string>) | ErrorBody(error: string)

  datatype Response = Response(status: nat, body: Body)

  /** The process-wide chain handle. */
  datatype State = Unset | Ready(chain: Chain)

  /** Everything outside the handler that one request meets. */
  datatype Env = Env(dir: IndexDir, backend: Backend)

  /** The handle after a request, and the response sent. */
  datatype Handled = Handled(state: State, response: Response)

  /** `data.get('query', '')` is falsy. */
  predicate IsMissingQuery(req: Request) {
    req.JsonBody? && req.query.GetOr("") == ""
  }

  function ServerError(message: string): Response {
    Response(StatusServerError, ErrorBody(ProcessingErrorPrefix + message))
  }

  /** The response to an invocation: its answer with an empty context, or
      the error it raised. */
  function Reply(outcome: Result<string, string>): Response {
    match outcome
    case Ok(answer) => Response(StatusOk, AnswerBody(answer, []))
    case Err(e) => ServerError(e)
  }

  /** The `query` route. */
  function Query(state: State, req: Request, env: Env): (h: Handled)
    ensures h.response.status in {StatusOk, StatusBadRequest, StatusServerError}
    ensures h.response.status == StatusOk <==> h.response.body.AnswerBody?
    ensures h.response.body.AnswerBody? ==> h.response.body.context == [] && h.state.Ready?
    ensures h.response.status == StatusBadRequest <==> IsMissingQuery(req)
    ensures IsMissingQuery(req) ==> h == Handled(state, Response(StatusBadRequest, ErrorBody(NoQueryMessage)))
    ensures h.response.status == StatusServerError ==>
              h.response.body.ErrorBody? && ProcessingErrorPrefix <= h.response.body.error
    ensures state.Ready? ==> h.state == state
    ensures h.state.Unset? ==> state.Unset?
    ensures h.state.Ready? && state.Unset? ==> h.state.chain.k == RetrieverK
    ensures state.Unset? && req.JsonBody? && !IsMissingQuery(req) ==>
              if env.dir.dirExists && env.dir.load.Ok?
              then h.state == Ready(Chain(env.dir.load.value, RetrieverK))
              else h == Handled(Unset, ServerError(StoreNotLoadedMessage))
    ensures req.Malformed? ==> h == Handled(state, ServerError(req.error))
    ensures req.JsonBody? && !IsMissingQuery(req) && state.Ready? ==>
              h == Handled(state, Reply(Invoke(state.chain, req.query.value, env.backend)))
    ensures req.JsonBody? && !IsMissingQuery(req) && state.Unset? && env.dir.dirExists && env.dir.load.Ok? ==>
              var chain := Chain(env.dir.load.value, RetrieverK);
              h == Handled(Ready(chain), Reply(Invoke(chain, req.query.value, env.backend)))
  {
    match req
    case Malformed(e) => Handled(state, ServerError(e))
    case JsonBody(q) =>
      var text := q.GetOr("");
      if text == "" then Handled(state, Response(StatusBadRequest, ErrorBody(NoQueryMessage)))
      else
        var built := if state.Ready? then Ok(state.chain) else SetupRetrievalQaChain(env.dir);
        match built
        case Err(e) => Handled(state, ServerError(e))
        case Ok(chain) =>
          Handled(Ready(chain), Reply(Invoke(chain, text, env.backend)))
  }

  /** A request without a query is answered before anything is loaded: the
      environment plays no part in its outcome. */
  lemma MissingQueryIgnoresEnv(state: State, req: Request, env1: Env, env2: Env)
    requires IsMissingQuery(req)
    ensures Query(state, req, env1) == Query(state, req, env2)
  {
  }

  /** Once the chain is set, the index directory is never consulted again. */
  lemma ReadyNeverReloads(chain: Chain, req: Request, dir1: IndexDir, dir2: IndexDir, backend: Backend)
    ensures Query(Ready(chain), req, Env(dir1, backend)) == Query(Ready(chain), req, Env(dir2, backend))
  {
  }

  /** The handle before each request of a run, and after the last. */
  function Serve(state: State, reqs: seq<(Request, Env)>): (states: seq<State>)
    ensures |states| == |reqs| + 1 && states[0] == state
    ensures forall i :: 0 <= i < |reqs| ==> states[i + 1] == Query(states[i], reqs[i].0, reqs[i].1).state
    decreases |reqs|
  {
    if reqs == [] then [state]
    else [state] + Serve(Query(state, reqs[0].0, reqs[0].1).state, reqs[1..])
  }

  /** Once set, the chain stays the same for the rest of the run. */
  lemma {:induction false} ReadyIsFinal(state: State, reqs: seq<(Request, Env)>, i: nat, j: nat)
    requires i <= j <= |reqs| && Serve(state, reqs)[i].Ready?
    ensures Serve(state, reqs)[j] == Serve(state, reqs)[i]
    decreases j - i
  {
    var states := Serve(state, reqs);
    if i < j {
      assert states[i + 1] == states[i];
      ReadyIsFinal(state, reqs, i + 1, j);
    }
  }

  /** The chain is built at most once in a run: after a request that set
      it, no request finds it unset. */
  lemma SetupAtMostOnce(state: State, reqs: seq<(Request, Env)>, i: nat, j: nat)
    requires i < j <= |reqs|
    requires Serve(state, reqs)[i].Unset? && Serve(state, reqs)[i + 1].Ready?
    ensures Serve(state, reqs)[j].Ready?
  {
    ReadyIsFinal(state, reqs, i + 1, j);
  }

  /** A failed setup leaves the handle unset, so a later valid request with
      a loadable index still builds the chain. */
  lemma RetryAfterFailedSetup(req1: Request, env1: Env, req2: Request, env2: Env)
    requires req1.JsonBody? && !IsMissingQuery(req1) && !(env1.dir.dirExists && env1.dir.load.Ok?)
    requires req2.JsonBody? && !IsMissingQuery(req2) && env2.dir.dirExists && env2.dir.load.Ok?
    ensures var states := Serve(Unset, [(req1, env1), (req2, env2)]);
            states[1] == Unset && states[2] == Ready(Chain(env2.dir.load.value, RetrieverK))
  {
  }
}
