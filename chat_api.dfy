/** The question-answering HTTP service: the `/chat` handler with its readiness
    gate, session id, token count, retrieval score and CRM record; the
    append-only CRM log; and the `/metrics` aggregation over that log.

    Clocks and random identifiers are parameters: the request id, the fresh
    session id, the measured latency and the timestamp are given to the handler.
    The retrieval system is a function from question to answer and sources; it
    catches its own failures and answers with an apology, so an `Err` stands
    for an exception raised elsewhere inside the handler's `try`. */
module ChatApi {
  import opened Wrappers
  import opened Text
  import opened Dict

  /** The body of a `/chat` request. */
  datatype ChatRequest = ChatRequest(
    question: string,
    userId: Option<string>,
    sessionId: Option<string>,
    metadata: Option<Dict<string>>)

  /** What the retrieval system answers. */
  datatype RagResult = RagResult(answer: string, sources: seq<string>)

  datatype ChatResponse = ChatResponse(
    question: string,
    answer: string,
    sources: seq<string>,
    sessionId: string,
    requestId: string,
    latencyMs: real,
    tokenCount: nat,
    retrievalScore: real,
    timestamp: string)

  /** The record written to the CRM log for one interaction. */
  datatype CrmRecord = CrmRecord(
    requestId: string,
    sessionId: string,
    userId: string,
    question: string,
    answer: string,
    sources: seq<string>,
    latencyMs: real,
    tokenCount: nat,
    retrievalScore: real,
    timestamp: string,
    metadata: Dict<string>)

  /** The three numbers `/metrics` reads from a log line, each absent when the
      line's JSON object has no such key. */
  datatype MetricFields = MetricFields(latencyMs: Option<real>, tokenCount: Option<real>, retrievalScore: Option<real>)

  /** A line of the CRM log: blank, not valid JSON, or a JSON object. */
  datatype LogLine = Blank | Malformed | Entry(fields: MetricFields)

  datatype Metrics = Metrics(totalInteractions: nat, avgLatencyMs: real, avgTokenCount: real, avgRetrievalScore: real)

  const NotInitialized := HttpError(500, "RAG system not initialized")

  /** The `/metrics` failure when a log line does not parse; the exception text
      itself is not modelled. */
  const MalformedLog := HttpError(500, "malformed CRM log line")

  // ---------------------------------------------------------------------------
  // The chat handler's expressions

  /** `req.session_id or new_id`: a non-empty requested id is echoed back. */
  function SessionId(requested: Option<string>, newId: string): (r: string)
    ensures requested.Some? && requested.value != "" ==> r == requested.value
    ensures requested.None? || requested.value == "" ==> r == newId
  {
    if requested.Some? && requested.value != "" then requested.value else newId
  }

  /** `len(question.split()) + len(answer.split())` */
  function TokenCount(question: string, answer: string): nat {
    |Words(question)| + |Words(answer)|
  }

  /** `len(sources) / 3.0 if sources else 0.0`; nothing keeps it at most 1. */
  function RetrievalScore(sources: seq<string>): (r: real)
    ensures r * 3.0 == |sources| as real
    ensures r >= 0.0
  {
    if sources == [] then 0.0 else |sources| as real / 3.0
  }

  function ResponseOf(req: ChatRequest, result: RagResult, requestId: string, sessionId: string,
                      latencyMs: real, timestamp: string): ChatResponse
  {
    ChatResponse(req.question, result.answer, result.sources, sessionId, requestId, latencyMs,
                 TokenCount(req.question, result.answer), RetrievalScore(result.sources), timestamp)
  }

  function CrmOf(req: ChatRequest, response: ChatResponse): CrmRecord {
    CrmRecord(response.requestId, response.sessionId,
              if req.userId.Some? && req.userId.value != "" then req.userId.value else "anonymous",
              req.question, response.answer, response.sources, response.latencyMs,
              response.tokenCount, response.retrievalScore, response.timestamp,
              req.metadata.GetOr([]))
  }

  /** The log line a CRM record becomes, as `/metrics` reads it back. */
  function LineOf(record: CrmRecord): LogLine {
    Entry(MetricFields(Some(record.latencyMs), Some(record.tokenCount as real), Some(record.retrievalScore)))
  }

  /** The token count is the number of words of question and answer joined by a
      space. */
  lemma TokenCountJoined(question: string, answer: string)
    ensures TokenCount(question, answer) == |Words(question + " " + answer)|
  {
    WordsConcat(question, answer);
  }

  /** The score exceeds 1 exactly when there are more than three sources. */
  lemma RetrievalScoreAboveOne(sources: seq<string>)
    ensures RetrievalScore(sources) > 1.0 <==> |sources| > 3
  {
  }

  /** The CRM record agrees with the response on every shared field; the user
      defaults to `anonymous` and the metadata to `{}`. */
  lemma CrmAgreesWithResponse(req: ChatRequest, result: RagResult, requestId: string, sessionId: string,
                              latencyMs: real, timestamp: string)
    ensures var resp := ResponseOf(req, result, requestId, sessionId, latencyMs, timestamp);
      var crm := CrmOf(req, resp);
      crm.question == resp.question == req.question && crm.answer == resp.answer
      && crm.sources == resp.sources && crm.sessionId == resp.sessionId
      && crm.requestId == resp.requestId && crm.latencyMs == resp.latencyMs
      && crm.tokenCount == resp.tokenCount && crm.retrievalScore == resp.retrievalScore
      && crm.timestamp == resp.timestamp
      && (req.userId.None? || req.userId == Some("") ==> crm.userId == "anonymous")
      && (req.metadata.None? ==> crm.metadata == [])
  {
  }

  // ---------------------------------------------------------------------------
  // Metrics over the log

  /** The metric fields of the non-blank lines, or nothing when a line does not
      parse. */
  function Fields(log: seq<LogLine>): Option<seq<MetricFields>>
    decreases |log|
  {
    if log == [] then Some([])
    else
      var init := Fields(log[..|log| - 1]);
      match log[|log| - 1]
      case Blank => init
      case Malformed => None
      case Entry(m) => if init.Some? then Some(init.value + [m]) else None
  }

  function Sum(xs: seq<real>): real
    decreases |xs|
  {
    if xs == [] then 0.0 else Sum(xs[..|xs| - 1]) + xs[|xs| - 1]
  }

  /** `data.get(key, 0)` for each of the three keys. */
  function Latencies(fs: seq<MetricFields>): seq<real> {
    seq(|fs|, k requires 0 <= k < |fs| => fs[k].latencyMs.GetOr(0.0))
  }
  function TokenCounts(fs: seq<MetricFields>): seq<real> {
    seq(|fs|, k requires 0 <= k < |fs| => fs[k].tokenCount.GetOr(0.0))
  }
  function Scores(fs: seq<MetricFields>): seq<real> {
    seq(|fs|, k requires 0 <= k < |fs| => fs[k].retrievalScore.GetOr(0.0))
  }

  function Aggregate(fs: seq<MetricFields>): Metrics {
    if fs == [] then Metrics(0, 0.0, 0.0, 0.0)
    else
      var n := |fs| as real;
      Metrics(|fs|, Sum(Latencies(fs)) / n, Sum(TokenCounts(fs)) / n, Sum(Scores(fs)) / n)
  }

  /** What `/metrics` answers for a log. */
  function MetricsOf(log: seq<LogLine>): Result<Metrics> {
    var fs := Fields(log);
    if fs.Some? then Ok(Aggregate(fs.value)) else Err(MalformedLog)
  }

  /** The number of non-blank lines. */
  function NonBlank(log: seq<LogLine>): nat
    decreases |log|
  {
    if log == [] then 0 else NonBlank(log[..|log| - 1]) + (if log[|log| - 1].Blank? then 0 else 1)
  }

  /** A malformed line anywhere makes the whole request fail. */
  lemma {:induction false} MalformedFails(log: seq<LogLine>, i: nat)
    requires i < |log| && log[i].Malformed?
    ensures Fields(log).None?
    decreases |log|
  {
    if i < |log| - 1 {
      MalformedFails(log[..|log| - 1], i);
    }
  }

  /** When the log parses, the interactions counted are its non-blank lines. */
  lemma {:induction false} FieldsCountNonBlank(log: seq<LogLine>)
    requires Fields(log).Some?
    ensures |Fields(log).value| == NonBlank(log)
    decreases |log|
  {
    if log != [] {
      FieldsCountNonBlank(log[..|log| - 1]);
    }
  }

  /** A log with no entries, empty or blank only, yields all zeros. */
  lemma {:induction false} BlankLogZeros(log: seq<LogLine>)
    requires forall k :: 0 <= k < |log| ==> log[k].Blank?
    ensures MetricsOf(log) == Ok(Metrics(0, 0.0, 0.0, 0.0))
    decreases |log|
  {
    if log != [] {
      BlankLogZeros(log[..|log| - 1]);
    }
  }

  /** Appending one logged interaction adds exactly one interaction to the
      metrics and keeps the earlier ones. */
  lemma AppendOneInteraction(log: seq<LogLine>, record: CrmRecord)
    requires Fields(log).Some?
    ensures Fields(log + [LineOf(record)]).Some?
    ensures Fields(log + [LineOf(record)]).value[..|Fields(log).value|] == Fields(log).value
    ensures MetricsOf(log + [LineOf(record)]).Ok?
      && MetricsOf(log + [LineOf(record)]).value.totalInteractions == |Fields(log).value| + 1
  {
    assert (log + [LineOf(record)])[..|log|] == log;
  }

  /** A sum of values within `[lo, hi]` lies within `n * lo` and `n * hi`. */
  lemma {:induction false} SumBounds(xs: seq<real>, lo: real, hi: real)
    requires forall k :: 0 <= k < |xs| ==> lo <= xs[k] <= hi
    ensures |xs| as real * lo <= Sum(xs) <= |xs| as real * hi
    decreases |xs|
  {
    if xs != [] {
      SumBounds(xs[..|xs| - 1], lo, hi);
    }
  }

  /** The average latency lies between the smallest and largest latency read. */
  lemma AverageLatencyBounds(fs: seq<MetricFields>, lo: real, hi: real)
    requires fs != []
    requires forall k :: 0 <= k < |fs| ==> lo <= fs[k].latencyMs.GetOr(0.0) <= hi
    ensures lo <= Aggregate(fs).avgLatencyMs <= hi
  {
    var xs := Latencies(fs);
    SumBounds(xs, lo, hi);
    var n := |fs| as real;
    assert Aggregate(fs).avgLatencyMs == Sum(xs) / n;
    QuotientBetween(Sum(xs), n, lo, hi);
  }

  /** A total between `n` times two bounds has its mean between them. */
  lemma QuotientBetween(total: real, n: real, lo: real, hi: real)
    requires n > 0.0 && n * lo <= total <= n * hi
    ensures lo <= total / n <= hi
  {
    assert total / n * n == total;
  }

  // ---------------------------------------------------------------------------
  // The service

  /** The service's state: whether the retrieval system was built at startup,
      and the lines of the CRM log file (a missing file is an empty log).
      `records` keeps every CRM record written since the server started, of
      which a log line keeps only the three numbers `/metrics` reads. */
  class ChatServer {
    var ragReady: bool
    var log: seq<LogLine>
    ghost var records: seq<CrmRecord>

    /** At import time the retrieval system is not built yet. */
    constructor(existingLog: seq<LogLine>)
      ensures !ragReady && log == existingLog && records == []
    {
      ragReady := false;
      log := existingLog;
      records := [];
    }

    /** `startup_event`: the system is ready exactly when building it succeeded. */
    method Startup(built: bool)
      modifies this
      ensures ragReady == built && log == old(log) && records == old(records)
    {
      ragReady := built;
    }

    /** `log_to_crm`: the record is appended as one new line. */
    method LogToCrm(record: CrmRecord)
      modifies this
      ensures log == old(log) + [LineOf(record)] && ragReady == old(ragReady)
      ensures records == old(records) + [record]
    {
      log := log + [LineOf(record)];
      records := records + [record];
    }

    /** `chat`: refused with 500 before anything happens when the system is not
        ready; an exception inside the handler's `try` (an `Err` of `ask`)
        becomes a 500 carrying its text and logs nothing; otherwise the answer,
        which may be the retrieval system's own apology with no sources, is
        returned and logged with exactly one new record, the one `CrmOf` builds
        from the request and the response. A non-empty requested session id is
        echoed back, and the fresh one is used otherwise. */
    method Chat(req: ChatRequest, ask: string -> Result<RagResult>, requestId: string, freshSessionId: string,
                latencyMs: real, timestamp: string)
      returns (r: Result<ChatResponse>)
      modifies this
      ensures ragReady == old(ragReady)
      ensures !old(ragReady) ==> r == Err(NotInitialized) && log == old(log) && records == old(records)
      ensures old(ragReady) && ask(req.question).Err? ==>
        r == Err(HttpError(500, ask(req.question).error.detail)) && log == old(log) && records == old(records)
      ensures old(ragReady) && ask(req.question).Ok? ==>
        r == Ok(ResponseOf(req, ask(req.question).value, requestId, SessionId(req.sessionId, freshSessionId), latencyMs, timestamp))
      ensures old(ragReady) && r.Ok? ==> records == old(records) + [CrmOf(req, r.value)]
      ensures old(ragReady) && r.Ok? ==> log == old(log) + [LineOf(CrmOf(req, r.value))]
      ensures r.Ok? && req.sessionId.Some? && req.sessionId.value != "" ==> r.value.sessionId == req.sessionId.value
      ensures r.Ok? && (req.sessionId.None? || req.sessionId.value == "") ==> r.value.sessionId == freshSessionId
      ensures r.Ok? && (req.userId.None? || req.userId.value == "") ==> records[|records| - 1].userId == "anonymous"
      ensures r.Ok? && req.metadata.None? ==> records[|records| - 1].metadata == []
    {
      if !ragReady {
        return Err(NotInitialized);
      }
      var sessionId := SessionId(req.sessionId, freshSessionId);
      var answered := ask(req.question);
      if answered.Err? {
        return Err(HttpError(500, answered.error.detail));
      }
      var result := answered.value;
      var response := ChatResponse(req.question, result.answer, result.sources, sessionId, requestId,
                                   latencyMs, TokenCount(req.question, result.answer),
                                   RetrievalScore(result.sources), timestamp);
      var crmData := CrmOf(req, response);
      LogToCrm(crmData);
      return Ok(response);
    }

    /** `get_metrics`: one pass over the log collecting the three numbers of
        every non-blank line, then their averages. */
    method GetMetrics() returns (r: Result<Metrics>)
      ensures r == MetricsOf(log)
    {
      var latencies: seq<real> := [];
      var tokenCounts: seq<real> := [];
      var retrievalScores: seq<real> := [];
      for i := 0 to |log|
        invariant Fields(log[..i]).Some?
        invariant latencies == Latencies(Fields(log[..i]).value)
        invariant tokenCounts == TokenCounts(Fields(log[..i]).value)
        invariant retrievalScores == Scores(Fields(log[..i]).value)
      {
        assert log[..i + 1][..i] == log[..i];
        match log[i]
        case Blank =>
        case Malformed =>
          MalformedFails(log, i);
          return Err(MalformedLog);
        case Entry(m) =>
          ghost var fs := Fields(log[..i]).value;
          assert Latencies(fs + [m]) == Latencies(fs) + [m.latencyMs.GetOr(0.0)];
          assert TokenCounts(fs + [m]) == TokenCounts(fs) + [m.tokenCount.GetOr(0.0)];
          assert Scores(fs + [m]) == Scores(fs) + [m.retrievalScore.GetOr(0.0)];
          latencies := latencies + [m.latencyMs.GetOr(0.0)];
          tokenCounts := tokenCounts + [m.tokenCount.GetOr(0.0)];
          retrievalScores := retrievalScores + [m.retrievalScore.GetOr(0.0)];
      }
      assert log[..|log|] == log;
      var metrics := Metrics(0, 0.0, 0.0, 0.0);
      if latencies != [] {
        var n := |latencies| as real;
        metrics := Metrics(|latencies|, Sum(latencies) / n, Sum(tokenCounts) / n, Sum(retrievalScores) / n);
      }
      return Ok(metrics);
    }
  }
}
