/** `scripts/app.py`: what one submitted question does to the chat session —
    the two injection gates, retrieval, the prompt, the call to the model and
    the history it appends to. Embedding, the vector query and HTTP are
    parameters. */
module ChatApp {
  import opened Results
  import opened Text
  import opened Json
  import opened PromptProtection
  import opened Snapshots
  import opened VectorStore

  // ---- configuration (the defaults of the environment variables) -----------

  const CollectionName: string := "chunks_semantic"
  const EmbedModel: string := "all-MiniLM-L6-v2"
  const OllamaModel: string := "mistral"
  const OllamaUrl: string := "http://localhost:11434/api/generate"
  const LanguageFilter: string := "de"
  const ResultCount: nat := 5

  /** The answer recorded when the model could not be asked. */
  const FallbackAnswer: string := "⚠️ Es gab ein Problem mit dem Modell."

  const Preamble: string :=
    "Du bist ein hilfreicher Fußball-Experte für Football Manager.\n"
    + "Nutze den folgenden Kontext, um die Frage zu beantworten.\n"
    + "Wenn der Kontext nicht ausreicht, gib dein Bestes anhand deines Wissens.\n\n"
    + "Beziehe deine Antworten wenn möglich auf den FM 24.\n\n"
  const ContextSeparator: string := "\n---\n"

  // ---- retrieval -----------------------------------------------------------

  /** `collection.query(query_embeddings=[v], n_results=n, where=w)`. */
  datatype Query = Query(embedding: Vector, nResults: nat, where: map<string, string>)

  /** The part of the query result the app reads: the "documents" entry, one
      list per query embedding, `None` standing for a stored entry without a
      document. */
  datatype QueryResult = QueryResult(documents: Option<seq<seq<Option<string>>>>)

  /** `results.get("documents", [[]])[0]`; `None` is the `IndexError` of an
      empty outer list. */
  function FirstDocuments(r: QueryResult): (docs: Option<seq<Option<string>>>)
    ensures r.documents.None? ==> docs == Some([])
    ensures r.documents.Some? ==> (docs.None? <==> r.documents.value == [])
    ensures r.documents.Some? && r.documents.value != [] ==> docs == Some(r.documents.value[0])
  {
    match r.documents
    case None => Some([])
    case Some(lists) => if lists == [] then None else Some(lists[0])
  }

  /** `[chunk for chunk in docs if chunk is not None]`. */
  function Present(docs: seq<Option<string>>): (texts: seq<string>)
    ensures |texts| <= |docs|
    ensures forall t :: t in texts <==> Some(t) in docs
  {
    if docs == [] then []
    else
      var init := Present(docs[..|docs| - 1]);
      assert docs == docs[..|docs| - 1] + [docs[|docs| - 1]];
      match docs[|docs| - 1]
      case None => init
      case Some(t) => init + [t]
  }

  /** The filter keeps the order of the documents: filtering a concatenation
      concatenates the filtered parts. */
  lemma {:induction false} PresentAppend(a: seq<Option<string>>, b: seq<Option<string>>)
    ensures Present(a + b) == Present(a) + Present(b)
    decreases |b|
  {
    if b == [] {
      assert a + b == a;
    } else {
      var init := b[..|b| - 1];
      assert (a + b)[..|a + b| - 1] == a + init;
      PresentAppend(a, init);
      assert b == init + [b[|b| - 1]];
    }
  }

  /** Nothing is left exactly when every document is `None`. */
  lemma NoContextIffAllNone(docs: seq<Option<string>>)
    ensures Present(docs) == [] <==> forall i :: 0 <= i < |docs| ==> docs[i].None?
  {
    if Present(docs) == [] {
      forall i | 0 <= i < |docs| && docs[i].Some?
        ensures docs[i].value in Present(docs)
      {
      }
    } else {
      var t := Present(docs)[0];
      assert Some(t) in docs;
    }
  }

  // ---- the prompt ------------------------------------------------------------

  /** Python's `str(v)` for the JSON values an answer can be. */
  function PyStr(v: Value): string
  {
    match v
    case Str(s) => s
    case Int(i) => IntToString(i)
    case Bool(b) => if b then "True" else "False"
    case Null => "None"
  }

  /** `f"Frage {n}: {q}\nAntwort {n}: {a}\n\n"`. */
  function Block(n: nat, e: Exchange): string
  {
    "Frage " + NatToString(n) + ": " + e.0 + "\nAntwort " + NatToString(n) + ": " + PyStr(e.1) + "\n\n"
  }

  /** The rendered history: one block per exchange, numbered from 1, oldest first. */
  function Verlauf(history: seq<Exchange>): string
  {
    if history == [] then ""
    else Verlauf(history[..|history| - 1]) + Block(|history|, history[|history| - 1])
  }

  /** Rendering a longer history only appends to the rendering of its past:
      the blocks of the earlier exchanges keep their text and their numbers. */
  lemma {:induction false} VerlaufExtends(h: seq<Exchange>, g: seq<Exchange>)
    ensures Verlauf(h) <= Verlauf(h + g)
    decreases |g|
  {
    if g != [] {
      var init := g[..|g| - 1];
      assert (h + g)[..|h + g| - 1] == h + init;
      VerlaufExtends(h, init);
    } else {
      assert h + g == h;
    }
  }

  /** The first exchange is rendered as question 1 and answer 1. */
  lemma VerlaufOfFirst(e: Exchange)
    ensures Verlauf([e]) == "Frage 1: " + e.0 + "\nAntwort 1: " + PyStr(e.1) + "\n\n"
  {
    assert [e][..0] == [];
    assert NatToString(1) == "1";
  }

  /** `verlauf += ...` over `enumerate(history)`. */
  method RenderHistory(history: seq<Exchange>) returns (verlauf: string)
    ensures verlauf == Verlauf(history)
  {
    verlauf := "";
    for i := 0 to |history|
      invariant verlauf == Verlauf(history[..i])
    {
      verlauf := verlauf + Block(i + 1, history[i]);
      assert history[..i + 1][..i] == history[..i];
    }
    assert history[..|history|] == history;
  }

  /** The context part: the texts joined by the separator line. */
  function Context(texts: seq<string>): string
  {
    Join(texts, ContextSeparator)
  }

  /** The prompt sent to the model. */
  function Prompt(verlauf: string, texts: seq<string>, frage: string): (p: string)
    ensures StartsWith(p, Preamble + "CHATVERLAUF:\n" + verlauf + "KONTEXT:\n")
    ensures EndsWith(p, "\n\nFRAGE: " + frage + "\n\nANTWORT:")
    ensures |p| == |Preamble + "CHATVERLAUF:\n" + verlauf + "KONTEXT:\n"| + |Context(texts)|
                   + |"\n\nFRAGE: " + frage + "\n\nANTWORT:"|
    ensures var h := |Preamble + "CHATVERLAUF:\n" + verlauf + "KONTEXT:\n"|;
            p[h..h + |Context(texts)|] == Context(texts)
  {
    var head := Preamble + "CHATVERLAUF:\n" + verlauf + "KONTEXT:\n";
    var tail := "\n\nFRAGE: " + frage + "\n\nANTWORT:";
    assert (head + Context(texts) + tail)[..|head|] == head;
    assert (head + Context(texts) + tail)[|head|..|head| + |Context(texts)|] == Context(texts);
    head + Context(texts) + tail
  }

  /** Each part of a join occurs in it, at the returned index. */
  lemma {:induction false} JoinHolds(parts: seq<string>, sep: string, i: nat) returns (k: nat)
    requires i < |parts|
    ensures OccursAt(Join(parts, sep), parts[i], k)
    decreases i
  {
    var j := Join(parts, sep);
    if i == 0 {
      k := 0;
      if |parts| > 1 {
        assert j == parts[0] + (sep + Join(parts[1..], sep));
        assert j[..|parts[0]|] == parts[0];
      }
    } else {
      var rest := Join(parts[1..], sep);
      var k0 := JoinHolds(parts[1..], sep, i - 1);
      var off := |parts[0] + sep|;
      assert j == (parts[0] + sep) + rest;
      k := off + k0;
      assert j[k..k + |parts[i]|] == rest[k0..k0 + |parts[i]|];
    }
  }

  /** Every retrieved text reaches the model: it occurs in the prompt. */
  lemma PromptHoldsContext(verlauf: string, texts: seq<string>, frage: string, i: nat)
    requires i < |texts|
    ensures exists k :: OccursAt(Prompt(verlauf, texts, frage), texts[i], k)
  {
    var head := Preamble + "CHATVERLAUF:\n" + verlauf + "KONTEXT:\n";
    var tail := "\n\nFRAGE: " + frage + "\n\nANTWORT:";
    var c := Context(texts);
    var k0 := JoinHolds(texts, ContextSeparator, i);
    var p := Prompt(verlauf, texts, frage);
    assert p == head + c + tail;
    assert p[|head| + k0..|head| + k0 + |texts[i]|] == c[k0..k0 + |texts[i]|];
    assert OccursAt(p, texts[i], |head| + k0);
  }

  // ---- the call to the model -------------------------------------------------

  /** The answer and, when the call failed, the message that is logged and shown. */
  datatype Answer = Answer(value: Value, failure: Option<string>)

  /** `response.json()["response"]`, with any exception caught: the fallback
      answer and the error message. */
  function AnswerOf(reply: GenerateReply): (a: Answer)
    ensures a.failure.None? <==> reply.Ok? && "response" in reply.value
    ensures a.failure.None? ==> a.value == reply.value["response"]
    ensures a.failure.Some? ==>
      a.value == Str(FallbackAnswer) && StartsWith(a.failure.value, "Fehler bei der Kommunikation mit Ollama: ")
  {
    var prefix := "Fehler bei der Kommunikation mit Ollama: ";
    match reply
    case Err(e) => Answer(Str(FallbackAnswer), Some(prefix + e))
    case Ok(body) =>
      if "response" in body then Answer(body["response"], None)
      else Answer(Str(FallbackAnswer), Some(prefix + "'response'"))
  }

  // ---- one submission ----------------------------------------------------------

  /** How a submission ends. */
  datatype Outcome =
    | Ignored        // not submitted, or a blank question
    | PatternBlocked // flagged by the phrase list
    | GuardBlocked   // flagged by the guard model
    | QueryFailed    // the query returned no document lists (`IndexError`)
    | NoContext      // no document was left after the `None` filter
    | Answered(answer: Answer)

  /** The external services of the app. */
  datatype Services = Services(
    post: GenerateRequest -> GenerateReply,
    embed: string -> Vector,
    query: Query -> QueryResult)

  function QueryFor(s: Services, frage: string): Query
  {
    Query(s.embed(frage), ResultCount, map["sprache" := LanguageFilter])
  }

  function GuardFor(s: Services, frage: string): GuardOutcome
  {
    GuardCheck(s.post, frage, DefaultGuardModel, DefaultGuardUrl)
  }

  /** Lines 49-105 of the app on one submission, as a value. */
  function Decide(history: seq<Exchange>, frage: string, submitted: bool, s: Services): (o: Outcome)
    ensures o == Ignored <==> !submitted || Strip(frage) == ""
  {
    if !submitted || Strip(frage) == "" then Ignored else Screened(history, frage, s)
  }

  /** The two gates, then retrieval. */
  function Screened(history: seq<Exchange>, frage: string, s: Services): (o: Outcome)
    ensures o != Ignored
    ensures o == PatternBlocked <==> ContainsInjection(frage)
    ensures o == GuardBlocked <==> !ContainsInjection(frage) && GuardFor(s, frage).risky
  {
    if ContainsInjection(frage) then PatternBlocked
    else if GuardFor(s, frage).risky then GuardBlocked
    else Retrieved(history, frage, s)
  }

  /** Retrieval, the `None` filter and the call to the answering model. */
  function Retrieved(history: seq<Exchange>, frage: string, s: Services): (o: Outcome)
    ensures o.QueryFailed? || o.NoContext? || o.Answered?
    ensures o == QueryFailed <==> s.query(QueryFor(s, frage)).documents == Some([])
    ensures o == NoContext <==>
      var docs := FirstDocuments(s.query(QueryFor(s, frage)));
      docs.Some? && forall i :: 0 <= i < |docs.value| ==> docs.value[i].None?
  {
    NoContextIffAllNone(if FirstDocuments(s.query(QueryFor(s, frage))).Some? then FirstDocuments(s.query(QueryFor(s, frage))).value else []);
    match FirstDocuments(s.query(QueryFor(s, frage)))
    case None => QueryFailed
    case Some(docs) =>
      var texts := Present(docs);
      if texts == [] then NoContext
      else Answered(AnswerOf(s.post(GenerateRequest(OllamaUrl, OllamaModel, Prompt(Verlauf(history), texts, frage), false))))
  }

  /** Without an answer the answering model is never asked: a failed query
      or an empty context comes out the same whatever `post` does. */
  lemma RetrievalFailsWithoutModel(history: seq<Exchange>, frage: string, s: Services, post: GenerateRequest -> GenerateReply)
    requires !Retrieved(history, frage, s).Answered?
    ensures Retrieved(history, frage, Services(post, s.embed, s.query)) == Retrieved(history, frage, s)
  {
    assert QueryFor(Services(post, s.embed, s.query), frage) == QueryFor(s, frage);
  }

  /** A submission is processed exactly when the question has a word. */
  lemma IgnoredIffBlank(history: seq<Exchange>, frage: string, submitted: bool, s: Services)
    ensures Decide(history, frage, submitted, s) == Ignored <==> !submitted || Words(frage) == []
  {
    StripEmptyIffNoWords(frage);
  }

  /** A question the phrase list flags never reaches the guard model, the
      embedding, the vector store or the answering model: the outcome is the
      same whatever those services do. */
  lemma PatternGateStopsEarly(history: seq<Exchange>, frage: string, s: Services, t: Services)
    requires Words(frage) != [] && ContainsInjection(frage)
    ensures Decide(history, frage, true, s) == Decide(history, frage, true, t) == PatternBlocked
  {
    StripEmptyIffNoWords(frage);
  }

  /** A question the guard flags never reaches the embedding or the store. */
  lemma GuardGateStopsEarly(history: seq<Exchange>, frage: string, s: Services, embed: string -> Vector, query: Query -> QueryResult)
    requires Words(frage) != [] && !ContainsInjection(frage) && GuardFor(s, frage).risky
    ensures Decide(history, frage, true, s) == Decide(history, frage, true, Services(s.post, embed, query)) == GuardBlocked
  {
    StripEmptyIffNoWords(frage);
    assert GuardFor(Services(s.post, embed, query), frage) == GuardFor(s, frage);
  }

  /** A question that passes both gates and retrieves context is answered
      with the model's reply (or the fallback) to a prompt that holds every
      non-`None` document. */
  lemma ContextIsAnswered(history: seq<Exchange>, frage: string, s: Services, docs: seq<Option<string>>)
    requires Words(frage) != [] && !ContainsInjection(frage) && !GuardFor(s, frage).risky
    requires FirstDocuments(s.query(QueryFor(s, frage))) == Some(docs) && Present(docs) != []
    ensures var p := Prompt(Verlauf(history), Present(docs), frage);
      && Decide(history, frage, true, s) == Answered(AnswerOf(s.post(GenerateRequest(OllamaUrl, OllamaModel, p, false))))
      && forall t :: Some(t) in docs ==> exists k :: OccursAt(p, t, k)
  {
    StripEmptyIffNoWords(frage);
    PromptHoldsTexts(Verlauf(history), Present(docs), frage);
  }

  /** Every text of the context occurs in the prompt. */
  lemma PromptHoldsTexts(verlauf: string, texts: seq<string>, frage: string)
    ensures forall t :: t in texts ==> exists k :: OccursAt(Prompt(verlauf, texts, frage), t, k)
  {
    forall t | t in texts
      ensures exists k :: OccursAt(Prompt(verlauf, texts, frage), t, k)
    {
      var i :| 0 <= i < |texts| && texts[i] == t;
      PromptHoldsContext(verlauf, texts, frage, i);
    }
  }

  /** The history a submission leaves: one more exchange when answered. */
  function NextHistory(history: seq<Exchange>, frage: string, o: Outcome): (h: seq<Exchange>)
    ensures o.Answered? ==> |h| == |history| + 1 && h[..|history|] == history && h[|history|] == (frage, o.answer.value)
    ensures !o.Answered? ==> h == history
  {
    if o.Answered? then history + [(frage, o.answer.value)] else history
  }

  /** The log events the guard check adds. */
  function GuardEvents(g: GuardOutcome): seq<LogEvent>
  {
    if g.errorLog.Some? then [LogEvent(Error, g.errorLog.value, None)] else []
  }

  /** The log event of a failed call to the answering model. */
  function FailureEvents(a: Answer): seq<LogEvent>
  {
    if a.failure.Some? then [LogEvent(Error, a.failure.value, None)] else []
  }

  /** Everything a submission with outcome `o` logs, in order: the guard's
      error line once the guard ran, then the warning of a block or the
      error line of a failed call to the answering model. */
  function SubmitEvents(s: Services, frage: string, o: Outcome): (events: seq<LogEvent>)
    ensures o == Ignored ==> events == []
    ensures o == PatternBlocked ==> events == [SuspicionEvent(frage, "user_input")]
    ensures o == GuardBlocked ==> events == GuardEvents(GuardFor(s, frage)) + [SuspicionEvent(frage, "user_input_llm_check")]
    ensures o.QueryFailed? || o.NoContext? ==> events == GuardEvents(GuardFor(s, frage))
    ensures o.Answered? ==> events == GuardEvents(GuardFor(s, frage)) + FailureEvents(o.answer)
  {
    match o
    case Ignored => []
    case PatternBlocked => [SuspicionEvent(frage, "user_input")]
    case GuardBlocked => GuardEvents(GuardFor(s, frage)) + [SuspicionEvent(frage, "user_input_llm_check")]
    case Answered(a) => GuardEvents(GuardFor(s, frage)) + FailureEvents(a)
    case _ => GuardEvents(GuardFor(s, frage))
  }

  /** The Streamlit session of one user. */
  class ChatSession {
    var history: seq<Exchange>

    constructor ()
      ensures history == []
    {
      history := [];
    }

    /** One press of "Frage abschicken" with `frage` in the field (`submitted`
        false: the script ran without a press). Suspicions go to `log` at
        clock reading `timestamp`; an answered question is appended to the
        history, which is then saved to `folder`. */
    method Submit(frage: string, submitted: bool, s: Services, log: InjectionLog, folder: SnapshotFolder, timestamp: string)
      returns (o: Outcome, saved: Option<Result<string, string>>)
      requires folder.Valid()
      modifies this, log, folder
      ensures o == Decide(old(history), frage, submitted, s)
      ensures history == NextHistory(old(history), frage, o)
      ensures folder.Valid()
      ensures o.Answered? <==> saved.Some?
      ensures o.Answered? ==> SavedAs(old(folder.files), old(folder.listing), history, folder.files, folder.listing, saved.value)
      ensures !o.Answered? ==> folder.files == old(folder.files) && folder.listing == old(folder.listing)
      ensures o == PatternBlocked ==>
        log.files == old(log.files)[ReportName("user_input", timestamp) := ReportRecord(frage, "user_input", timestamp)]
      ensures o == GuardBlocked ==>
        log.files == old(log.files)[ReportName("user_input_llm_check", timestamp) := ReportRecord(frage, "user_input_llm_check", timestamp)]
      ensures o != PatternBlocked && o != GuardBlocked ==> log.files == old(log.files)
      ensures log.events == old(log.events) + SubmitEvents(s, frage, o)
    {
      if !submitted || Strip(frage) == "" {
        return Ignored, None;
      }
      o, saved := Screen(frage, s, log, folder, timestamp);
    }

    /** Lines 51-105: the phrase gate, then `Guarded`. */
    method Screen(frage: string, s: Services, log: InjectionLog, folder: SnapshotFolder, timestamp: string)
      returns (o: Outcome, saved: Option<Result<string, string>>)
      requires folder.Valid()
      modifies this, log, folder
      ensures o == Screened(old(history), frage, s)
      ensures history == NextHistory(old(history), frage, o)
      ensures folder.Valid()
      ensures o.Answered? <==> saved.Some?
      ensures o.Answered? ==> SavedAs(old(folder.files), old(folder.listing), history, folder.files, folder.listing, saved.value)
      ensures !o.Answered? ==> folder.files == old(folder.files) && folder.listing == old(folder.listing)
      ensures o == PatternBlocked ==>
        log.files == old(log.files)[ReportName("user_input", timestamp) := ReportRecord(frage, "user_input", timestamp)]
      ensures o == GuardBlocked ==>
        log.files == old(log.files)[ReportName("user_input_llm_check", timestamp) := ReportRecord(frage, "user_input_llm_check", timestamp)]
      ensures o != PatternBlocked && o != GuardBlocked ==> log.files == old(log.files)
      ensures log.events == old(log.events) + SubmitEvents(s, frage, o)
    {
      if ContainsInjection(frage) {
        log.LogSuspicion(frage, "user_input", timestamp);
        return PatternBlocked, None;
      }
      o, saved := Guarded(frage, s, log, folder, timestamp);
    }

    /** Lines 57-105: the guard model's gate, then `Respond`. */
    method Guarded(frage: string, s: Services, log: InjectionLog, folder: SnapshotFolder, timestamp: string)
      returns (o: Outcome, saved: Option<Result<string, string>>)
      requires folder.Valid()
      modifies this, log, folder
      ensures o == if GuardFor(s, frage).risky then GuardBlocked else Retrieved(old(history), frage, s)
      ensures history == NextHistory(old(history), frage, o)
      ensures folder.Valid()
      ensures o.Answered? <==> saved.Some?
      ensures o.Answered? ==> SavedAs(old(folder.files), old(folder.listing), history, folder.files, folder.listing, saved.value)
      ensures !o.Answered? ==> folder.files == old(folder.files) && folder.listing == old(folder.listing)
      ensures o == GuardBlocked ==>
        log.files == old(log.files)[ReportName("user_input_llm_check", timestamp) := ReportRecord(frage, "user_input_llm_check", timestamp)]
      ensures o != GuardBlocked ==> log.files == old(log.files)
      ensures log.events == old(log.events) + SubmitEvents(s, frage, o)
    {
      saved := None;
      var guard := GuardFor(s, frage);
      if guard.errorLog.Some? {
        log.LogError(guard.errorLog.value);
      }
      ghost var afterGuard := log.events;
      assert afterGuard == old(log.events) + GuardEvents(guard);
      if guard.risky {
        log.LogSuspicion(frage, "user_input_llm_check", timestamp);
        AppendAssoc(old(log.events), GuardEvents(guard), [SuspicionEvent(frage, "user_input_llm_check")]);
        return GuardBlocked, saved;
      }
      o, saved := Respond(frage, s, log, folder);
      AppendAssoc(old(log.events), GuardEvents(guard), if o.Answered? then FailureEvents(o.answer) else []);
    }

    /** Lines 62-105: retrieval, the prompt, the answer, the history and its
        snapshot, for a question that passed both gates. */
    method Respond(frage: string, s: Services, log: InjectionLog, folder: SnapshotFolder)
      returns (o: Outcome, saved: Option<Result<string, string>>)
      requires folder.Valid()
      modifies this, log, folder
      ensures o == Retrieved(old(history), frage, s)
      ensures history == NextHistory(old(history), frage, o)
      ensures folder.Valid()
      ensures o.Answered? <==> saved.Some?
      ensures o.Answered? ==> SavedAs(old(folder.files), old(folder.listing), history, folder.files, folder.listing, saved.value)
      ensures !o.Answered? ==> folder.files == old(folder.files) && folder.listing == old(folder.listing)
      ensures log.files == old(log.files)
      ensures log.events == old(log.events) + (if o.Answered? then FailureEvents(o.answer) else [])
    {
      saved := None;
      var docs := FirstDocuments(s.query(QueryFor(s, frage)));
      if docs.None? {
        return QueryFailed, saved;
      }
      var texts := Present(docs.value);
      if texts == [] {
        return NoContext, saved;
      }
      var verlauf := RenderHistory(history);
      var prompt := Prompt(verlauf, texts, frage);
      var answer := AnswerOf(s.post(GenerateRequest(OllamaUrl, OllamaModel, prompt, false)));
      if answer.failure.Some? {
        log.LogError(answer.failure.value);
      }
      o := Answered(answer);
      history := history + [(frage, answer.value)];
      var r := folder.Save(history);
      saved := Some(r);
    }
  }
}
