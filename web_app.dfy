/** The Flask web interface: the `/api/ask`, `/api/status` and `/api/similar`
    handlers, and the start-up step that builds the retrieval system.

    The retrieval system is a parameter: a function answering a question given
    the chat history, and a function returning the documents most similar to a
    query. Both catch their own failures (an apology answer, no documents), so
    an `Err` of either stands for an exception raised elsewhere inside the
    handler's `try`, whose text becomes a 500 response. */
module WebApp {
  import opened Wrappers
  import opened Text
  import opened Dict

  /** A turn of the chat history the page sends back: who spoke and what. */
  datatype ChatTurn = ChatTurn(role: string, content: string)

  /** The JSON body of `/api/ask`; absent keys are `None`. */
  datatype AskBody = AskBody(question: Option<string>, chatHistory: Option<seq<ChatTurn>>)

  /** The JSON body of `/api/similar`. */
  datatype SimilarBody = SimilarBody(query: Option<string>, k: Option<int>)

  /** A retrieved document: its text and its metadata. */
  datatype Document = Document(pageContent: string, metadata: Dict<string>)

  /** A document as `/api/similar` returns it. */
  datatype FormattedDoc = FormattedDoc(content: string, source: string)

  datatype StatusReport = StatusReport(ollamaRunning: bool, ragSystemReady: bool, status: string, error: Option<string>)

  const AskNotInitialized := HttpError(500, "RAG system not initialized. Please check Ollama installation.")
  const SimilarNotInitialized := HttpError(500, "RAG system not initialized")
  const QuestionRequired := HttpError(400, "Question is required")
  const QueryRequired := HttpError(400, "Query is required")

  const DefaultK := 3
  const PreviewLength := 500

  /** A failure inside the handler's `try` becomes a 500 carrying its text. */
  function Internal<T>(r: Result<T>): (o: Result<T>)
    ensures r.Ok? ==> o == r
    ensures r.Err? ==> o == Err(HttpError(500, r.error.detail))
  {
    match r
    case Ok(v) => Ok(v)
    case Err(e) => Err(HttpError(500, e.detail))
  }

  // ---------------------------------------------------------------------------
  // /api/ask

  /** `ask_question` */
  function AskQuestion<A>(ready: bool, body: AskBody, ask: (string, seq<ChatTurn>) -> Result<A>): (r: Result<A>)
    ensures !ready ==> r == Err(AskNotInitialized)
    ensures ready && Strip(body.question.GetOr("")) == "" ==> r == Err(QuestionRequired)
    ensures ready && Strip(body.question.GetOr("")) != "" ==>
      r == Internal(ask(Strip(body.question.GetOr("")), body.chatHistory.GetOr([])))
  {
    if !ready then Err(AskNotInitialized)
    else
      var question := Strip(body.question.GetOr(""));
      if question == "" then Err(QuestionRequired)
      else Internal(ask(question, body.chatHistory.GetOr([])))
  }

  /** A blank or whitespace-only question is refused without consulting the
      retrieval system: any two retrieval systems give the same answer. */
  lemma BlankQuestionAsksNothing<A>(ready: bool, body: AskBody, ask1: (string, seq<ChatTurn>) -> Result<A>,
                                    ask2: (string, seq<ChatTurn>) -> Result<A>)
    requires forall k :: 0 <= k < |body.question.GetOr("")| ==> IsSpace(body.question.GetOr("")[k])
    ensures AskQuestion(ready, body, ask1) == AskQuestion(ready, body, ask2)
    ensures ready ==> AskQuestion(ready, body, ask1) == Err(QuestionRequired)
  {
    BlankStripsEmpty(body.question.GetOr(""));
  }

  /** Whitespace around a question makes no difference to what is asked, and
      the history defaults to empty. */
  lemma AskForwardsStripped<A>(w1: string, q: string, w2: string, history: Option<seq<ChatTurn>>,
                               ask: (string, seq<ChatTurn>) -> Result<A>)
    requires forall k :: 0 <= k < |w1| ==> IsSpace(w1[k])
    requires forall k :: 0 <= k < |w2| ==> IsSpace(w2[k])
    requires q != [] && !IsSpace(q[0]) && !IsSpace(q[|q| - 1])
    ensures AskQuestion(true, AskBody(Some(w1 + q + w2), history), ask)
      == Internal(ask(q, if history.Some? then history.value else []))
  {
    StripPadded(w1, q, w2);
  }

  // ---------------------------------------------------------------------------
  // /api/status

  /** `status`: `ollama` is what the Ollama probe reports, `None` when the probe
      itself raised. */
  function Status(ollama: Option<bool>, ready: bool, failure: string): (r: StatusReport)
    ensures r.status == "ready" <==> ollama == Some(true) && ready
    ensures r.status == "not_ready" <==> ollama.Some? && !(ollama.value && ready)
    ensures r.status == "error" <==> ollama.None?
    ensures ollama.Some? ==> r.ollamaRunning == ollama.value && r.ragSystemReady == ready && r.error.None?
    ensures ollama.None? ==> !r.ollamaRunning && !r.ragSystemReady && r.error == Some(failure)
  {
    match ollama
    case None => StatusReport(false, false, "error", Some(failure))
    case Some(running) => StatusReport(running, ready, if running && ready then "ready" else "not_ready", None)
  }

  // ---------------------------------------------------------------------------
  // /api/similar

  /** The preview of a document's text: cut to 500 characters and marked with
      `...` when longer. */
  function Preview(s: string): (r: string)
    ensures |r| <= PreviewLength + 3
    ensures |s| <= PreviewLength ==> r == s
    ensures |s| > PreviewLength ==> |r| == PreviewLength + 3 && r[..PreviewLength] == s[..PreviewLength] && r[PreviewLength..] == "..."
  {
    if |s| > PreviewLength then s[..PreviewLength] + "..." else s
  }

  /** A preview is its own preview. */
  lemma PreviewIdempotent(s: string)
    ensures Preview(Preview(s)) == Preview(s)
  {
    if |s| > PreviewLength {
      var p := Preview(s);
      assert p[..PreviewLength] == s[..PreviewLength];
      assert Preview(p) == p[..PreviewLength] + "...";
    }
  }

  function Format(d: Document): FormattedDoc {
    FormattedDoc(Preview(d.pageContent), Get(d.metadata, "source").GetOr("Unknown"))
  }

  /** One formatted document per retrieved document, in retrieval order. */
  function FormatDocuments(docs: seq<Document>): (r: seq<FormattedDoc>)
    ensures |r| == |docs|
    ensures forall i :: 0 <= i < |r| ==> r[i] == Format(docs[i])
  {
    seq(|docs|, i requires 0 <= i < |docs| => Format(docs[i]))
  }

  /** The source of a formatted document is its `source` metadata, or `Unknown`
      exactly when it has none. */
  lemma FormattedSource(d: Document)
    ensures "source" in Keys(d.metadata) ==> Format(d).source == Get(d.metadata, "source").value
    ensures "source" !in Keys(d.metadata) ==> Format(d).source == "Unknown"
    ensures |Format(d).content| <= PreviewLength + 3
  {
  }

  /** `get_similar`: the readiness gate, the required query, `k` defaulting to 3,
      and the formatting loop. */
  method GetSimilar(ready: bool, body: SimilarBody, similar: (string, int) -> Result<seq<Document>>)
    returns (r: Result<seq<FormattedDoc>>)
    ensures !ready ==> r == Err(SimilarNotInitialized)
    ensures ready && Strip(body.query.GetOr("")) == "" ==> r == Err(QueryRequired)
    ensures ready && Strip(body.query.GetOr("")) != "" ==>
      var found := similar(Strip(body.query.GetOr("")), body.k.GetOr(DefaultK));
      (found.Err? ==> r == Err(HttpError(500, found.error.detail)))
      && (found.Ok? ==> r == Ok(FormatDocuments(found.value)))
  {
    if !ready {
      return Err(SimilarNotInitialized);
    }
    var query := Strip(if body.query.Some? then body.query.value else "");
    var k := if body.k.Some? then body.k.value else DefaultK;
    if query == "" {
      return Err(QueryRequired);
    }
    var found := similar(query, k);
    if found.Err? {
      return Err(HttpError(500, found.error.detail));
    }
    var formattedDocs := FormatAll(found.value);
    return Ok(formattedDocs);
  }

  /** The `for doc in docs` loop building the formatted documents. */
  method FormatAll(docs: seq<Document>) returns (formattedDocs: seq<FormattedDoc>)
    ensures formattedDocs == FormatDocuments(docs)
  {
    formattedDocs := [];
    for i := 0 to |docs|
      invariant |formattedDocs| == i
      invariant forall j :: 0 <= j < i ==> formattedDocs[j] == Format(docs[j])
    {
      var doc := docs[i];
      var content := if |doc.pageContent| > PreviewLength then doc.pageContent[..PreviewLength] + "..." else doc.pageContent;
      var source := Get(doc.metadata, "source").GetOr("Unknown");
      formattedDocs := formattedDocs + [FormattedDoc(content, source)];
    }
  }

  // ---------------------------------------------------------------------------
  // Start-up

  /** The web process's state: whether the global retrieval system was built. */
  class WebServer {
    var ragReady: bool

    constructor()
      ensures !ragReady
    {
      ragReady := false;
    }

    /** `initialize_rag_system`: builds the system only when Ollama answers, and
        a build that raises leaves the global as it was. */
    method InitializeRagSystem(ollamaRunning: bool, buildSucceeds: bool) returns (ok: bool)
      modifies this
      ensures ok == (ollamaRunning && buildSucceeds)
      ensures ragReady == (old(ragReady) || ok)
    {
      if ollamaRunning {
        if buildSucceeds {
          ragReady := true;
          return true;
        }
        return false;
      }
      return false;
    }
  }
}
