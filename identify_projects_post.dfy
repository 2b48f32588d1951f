/** Prompt templates and the "stuff documents" chain of
    packages/api/src/functions/identify-projects-post.ts: every retrieved document is rendered
    through a document template and the renderings, joined by a separator, fill the prompt's
    `{context}` variable. */
module StuffDocuments {
  import opened Wrappers
  import Text

  /** A parsed f-string template: literal text and `{name}` variables. */
  datatype TemplatePart = Literal(text: string) | Variable(name: string)
  type Template = seq<TemplatePart>

  /** The variables a template needs. */
  function InputVariables(t: Template): (vs: set<string>)
    ensures forall k :: 0 <= k < |t| && t[k].Variable? ==> t[k].name in vs
  {
    if t == [] then {}
    else (if t[0].Variable? then {t[0].name} else {}) + InputVariables(t[1..])
  }

  function FormatPart(p: TemplatePart, values: map<string, string>): Result<string, string>
  {
    match p
    case Literal(s) => Ok(s)
    case Variable(n) => if n in values then Ok(values[n]) else Err(n)
  }

  /** Fills in a template; a variable without a value is an error naming that variable, as
      formatting a prompt template throws for a missing input value. */
  function Format(t: Template, values: map<string, string>): (r: Result<string, string>)
    ensures r.Ok? <==> InputVariables(t) <= values.Keys
    ensures r.Err? ==> r.error in InputVariables(t) && r.error !in values
  {
    if t == [] then Ok("")
    else
      var head :- FormatPart(t[0], values);
      var rest :- Format(t[1..], values);
      Ok(head + rest)
  }

  /** A template that formats is its first part followed by the rest. */
  lemma FormatUnfold(t: Template, values: map<string, string>)
    requires t != [] && FormatPart(t[0], values).Ok? && Format(t[1..], values).Ok?
    ensures Format(t, values) == Ok(FormatPart(t[0], values).value + Format(t[1..], values).value)
  {
  }

  /** Formatting a template made of two pieces formats each piece in turn. */
  lemma {:induction false} FormatAppend(a: Template, b: Template, values: map<string, string>)
    requires Format(a, values).Ok? && Format(b, values).Ok?
    ensures Format(a + b, values) == Ok(Format(a, values).value + Format(b, values).value)
  {
    if a == [] {
      assert a + b == b;
      assert Format(a, values) == Ok("");
      assert "" + Format(b, values).value == Format(b, values).value;
    } else {
      var ab := a + b;
      assert ab[0] == a[0] && ab[1..] == a[1..] + b;
      assert FormatPart(a[0], values).Ok? && Format(a[1..], values).Ok?;
      FormatAppend(a[1..], b, values);
      FormatUnfold(ab, values);
      FormatUnfold(a, values);
      var h, x, y := FormatPart(a[0], values).value, Format(a[1..], values).value, Format(b, values).value;
      Text.AppendAssoc(h, x, y);
    }
  }

  /** A LangChain document: its text and its metadata. */
  datatype Document = Document(pageContent: string, metadata: map<string, string>)

  /** `{...document.metadata, page_content: document.pageContent}`: the metadata with the page
      content added last, so it overrides a metadata entry of the same name. */
  function Values(d: Document): (v: map<string, string>)
    ensures v.Keys == d.metadata.Keys + {"page_content"}
    ensures v["page_content"] == d.pageContent
    ensures forall key :: key in d.metadata && key != "page_content" ==> v[key] == d.metadata[key]
  {
    d.metadata["page_content" := d.pageContent]
  }

  /** The documents' renderings, in input order; the first document that fails to render
      decides the error. */
  function FormatEach(docs: seq<Document>, t: Template): (r: Result<seq<string>, string>)
    ensures r.Ok? <==> forall k :: 0 <= k < |docs| ==> Format(t, Values(docs[k])).Ok?
    ensures r.Ok? ==> |r.value| == |docs|
    ensures r.Ok? ==> forall k :: 0 <= k < |docs| ==> r.value[k] == Format(t, Values(docs[k])).value
    ensures r.Err? ==> r.error in InputVariables(t)
  {
    if docs == [] then Ok([])
    else
      var first :- Format(t, Values(docs[0]));
      var rest :- FormatEach(docs[1..], t);
      Ok([first] + rest)
  }

  /** `formatDocuments`: the empty string when there are no documents, otherwise the
      renderings joined by the separator. */
  function FormatDocuments(documents: Option<seq<Document>>, t: Template, separator: string): (r: Result<string, string>)
    ensures r.Ok? <==> documents.None? || forall k :: 0 <= k < |documents.value| ==> Format(t, Values(documents.value[k])).Ok?
    ensures r.Err? ==> r.error in InputVariables(t)
  {
    if documents.None? || documents.value == [] then Ok("")
    else
      var rendered :- FormatEach(documents.value, t);
      Ok(Text.Join(rendered, separator))
  }

  /** No documents, or a `null` list, give no context at all. */
  lemma FormatNoDocuments(t: Template, separator: string)
    ensures FormatDocuments(None, t, separator) == Ok("")
    ensures FormatDocuments(Some([]), t, separator) == Ok("")
  {
  }

  /** Documents that all render give the renderings joined by the separator. */
  lemma FormatDocumentsJoin(docs: seq<Document>, t: Template, separator: string)
    requires docs != []
    requires forall j :: 0 <= j < |docs| ==> Format(t, Values(docs[j])).Ok?
    ensures FormatEach(docs, t).Ok?
    ensures FormatDocuments(Some(docs), t, separator) == Ok(Text.Join(FormatEach(docs, t).value, separator))
  {
  }

  /** For documents that all render, the context (the join, by the lemma above) holds each
      rendering in input order, with the separator between consecutive ones and nowhere else:
      n renderings, n - 1 separators. */
  lemma FormatDocumentsLayout(docs: seq<Document>, t: Template, separator: string, rendered: seq<string>, k: nat)
    requires FormatEach(docs, t) == Ok(rendered)
    requires k < |docs|
    ensures |rendered| == |docs| && rendered[k] == Format(t, Values(docs[k])).value
    ensures var start := Text.JoinOffset(rendered, separator, k);
            var end := start + |rendered[k]|;
            && end <= |Text.Join(rendered, separator)|
            && Text.Join(rendered, separator)[start..end] == rendered[k]
            && (k + 1 < |docs| ==> end + |separator| <= |Text.Join(rendered, separator)|
                                   && Text.Join(rendered, separator)[end..end + |separator|] == separator)
            && (k + 1 == |docs| ==> end == |Text.Join(rendered, separator)|)
  {
    Text.JoinAt(rendered, separator, k);
    Text.JoinSeparatorAt(rendered, separator, k);
  }

  /** A document that fails to render makes the whole context fail. */
  lemma FormatDocumentsFails(docs: seq<Document>, t: Template, separator: string, k: nat)
    requires k < |docs| && Format(t, Values(docs[k])).Err?
    ensures FormatDocuments(Some(docs), t, separator).Err?
  {
  }

  /** `PromptTemplate.fromTemplate('{page_content}')` and `'\n\n'`, the chain's defaults. */
  const DefaultDocumentPrompt: Template := [Variable("page_content")]
  const DefaultSeparator := "\n\n"

  /** With the default template a document renders as its page content, whatever its metadata
      holds under that name. */
  lemma DefaultRendering(d: Document)
    ensures Format(DefaultDocumentPrompt, Values(d)) == Ok(d.pageContent)
  {
    var t := DefaultDocumentPrompt;
    assert t[1..] == [];
    FormatUnfold(t, Values(d));
    assert FormatPart(t[0], Values(d)) == Ok(d.pageContent);
    assert d.pageContent + "" == d.pageContent;
  }

  /** `PromptTemplate.fromTemplate('[{source}]: {page_content}\n')`. */
  const SourceDocumentPrompt: Template :=
    [Literal("["), Variable("source"), Literal("]: "), Variable("page_content"), Literal("\n")]

  /** The source template renders `[source]: content` and a line break, and fails for a
      document without a `source` entry. */
  lemma SourceRendering(d: Document)
    ensures "source" in d.metadata ==>
      Format(SourceDocumentPrompt, Values(d)) == Ok("[" + d.metadata["source"] + "]: " + d.pageContent + "\n")
    ensures "source" !in d.metadata ==> Format(SourceDocumentPrompt, Values(d)) == Err("source")
  {
    var v := Values(d);
    var t := SourceDocumentPrompt;
    var t1 := [Variable("source"), Literal("]: "), Variable("page_content"), Literal("\n")];
    var t2 := [Literal("]: "), Variable("page_content"), Literal("\n")];
    var t3 := [Variable("page_content"), Literal("\n")];
    var t4 := [Literal("\n")];
    assert t[1..] == t1 && t1[1..] == t2 && t2[1..] == t3 && t3[1..] == t4 && t4[1..] == [];
    if "source" in d.metadata {
      var src := d.metadata["source"];
      assert Format(t4[1..], v) == Ok("") && "\n" + "" == "\n";
      FormatUnfold(t4, v);
      assert FormatPart(t3[0], v) == Ok(d.pageContent);
      FormatUnfold(t3, v);
      FormatUnfold(t2, v);
      assert FormatPart(t1[0], v) == Ok(src);
      FormatUnfold(t1, v);
      FormatUnfold(t, v);
      assert "[" + (src + ("]: " + (d.pageContent + "\n"))) == "[" + src + "]: " + d.pageContent + "\n";
    } else {
      assert "source" !in v;
    }
  }

  /** Two documents in the identify-projects chain are separated by three line breaks: the one
      ending the first rendering and the two of the separator. */
  lemma TwoDocuments(d1: Document, d2: Document)
    requires "source" in d1.metadata && "source" in d2.metadata
    ensures FormatDocuments(Some([d1, d2]), SourceDocumentPrompt, DefaultSeparator) ==
      Ok("[" + d1.metadata["source"] + "]: " + d1.pageContent + "\n\n\n"
         + "[" + d2.metadata["source"] + "]: " + d2.pageContent + "\n")
  {
    SourceRendering(d1);
    SourceRendering(d2);
    var head := "[" + d1.metadata["source"] + "]: " + d1.pageContent;
    var r1 := head + "\n";
    var r2 := "[" + d2.metadata["source"] + "]: " + d2.pageContent + "\n";
    var docs := [d1, d2];
    assert docs[0] == d1 && docs[1] == d2;
    FormatDocumentsJoin(docs, SourceDocumentPrompt, DefaultSeparator);
    var rendered := FormatEach(docs, SourceDocumentPrompt).value;
    assert rendered == [r1, r2];
    assert rendered[1..] == [r2];
    assert Text.Join(rendered, DefaultSeparator) == r1 + DefaultSeparator + r2;
    assert r1 + DefaultSeparator == head + "\n\n\n";
    var s2, p2 := d2.metadata["source"], d2.pageContent;
    assert (head + "\n\n\n") + r2 == head + "\n\n\n" + "[" + s2 + "]: " + p2 + "\n";
  }

  /** One message of a chat prompt template: a role and its template. */
  datatype PromptMessage = PromptMessage(role: string, template: Template)

  /** The input variables of a chat prompt: those of all its messages. */
  function PromptVariables(prompt: seq<PromptMessage>): (vs: set<string>)
    ensures forall k :: 0 <= k < |prompt| ==> InputVariables(prompt[k].template) <= vs
  {
    if prompt == [] then {} else InputVariables(prompt[0].template) + PromptVariables(prompt[1..])
  }

  /** Formats every message of a chat prompt. */
  function FormatPrompt(prompt: seq<PromptMessage>, values: map<string, string>): (r: Result<seq<(string, string)>, string>)
    ensures r.Ok? <==> PromptVariables(prompt) <= values.Keys
    ensures r.Ok? ==> |r.value| == |prompt|
    ensures r.Ok? ==> forall k :: 0 <= k < |prompt| ==>
      r.value[k] == (prompt[k].role, Format(prompt[k].template, values).value)
  {
    if prompt == [] then Ok([])
    else
      var first :- Format(prompt[0].template, values);
      var rest :- FormatPrompt(prompt[1..], values);
      Ok([(prompt[0].role, first)] + rest)
  }

  const ContextMissing := "Prompt must include a \"context\" variable"

  /** A chain built by `createStuffDocumentsChain`, with its defaults filled in. */
  datatype StuffChain = StuffChain(prompt: seq<PromptMessage>, documentPrompt: Template, separator: string)

  /** `createStuffDocumentsChain`: refuses a prompt without a `context` variable; an omitted
      document template or separator takes its default. */
  function CreateStuffDocumentsChain(prompt: seq<PromptMessage>, documentPrompt: Option<Template>, separator: Option<string>)
    : (r: Result<StuffChain, string>)
    ensures r.Ok? <==> "context" in PromptVariables(prompt)
    ensures r.Err? ==> r.error == ContextMissing
    ensures r.Ok? ==> r.value.prompt == prompt
    ensures r.Ok? ==> r.value.documentPrompt == (if documentPrompt.Some? then documentPrompt.value else DefaultDocumentPrompt)
    ensures r.Ok? ==> r.value.separator == (if separator.Some? then separator.value else DefaultSeparator)
  {
    if "context" !in PromptVariables(prompt) then Err(ContextMissing)
    else
      Ok(StuffChain(prompt,
        if documentPrompt.Some? then documentPrompt.value else DefaultDocumentPrompt,
        if separator.Some? then separator.value else DefaultSeparator))
  }

  /** Invoking the chain: the documents become the formatted `context`, the prompt is filled in
      with it and the input, and the formatted messages go to the model. `llm` stands for the
      model, yielding nothing when it throws; a document or prompt that fails to format throws
      as well. */
  function Invoke(chain: StuffChain, input: string, documents: Option<seq<Document>>,
                  llm: seq<(string, string)> -> Option<string>): (r: Option<string>)
    ensures r.Some? ==> FormatDocuments(documents, chain.documentPrompt, chain.separator).Ok?
  {
    match FormatDocuments(documents, chain.documentPrompt, chain.separator)
    case Err(_) => None
    case Ok(context) =>
      match FormatPrompt(chain.prompt, map["input" := input, "context" := context])
      case Err(_) => None
      case Ok(messages) => llm(messages)
  }
}

/** The handler of `POST /api/identify-projects`. */
module IdentifyProjects {
  import opened Wrappers
  import opened StuffDocuments
  import Http
  import ChatsPost

  /** The instructions of the system message, before the `{context}` variable. */
  const Instructions :=
    "You are an assistant writing a response to a bid document for Kainos, a software consultancy. "
    + "Be brief in your answers. Answer only plain text, DO NOT use Markdown.\n\n"
    + "I want you to suggest exactly one project that serve as an example of the below bid question. "
    + "In your answer justify why the project is a good example and reference the documents that you use in your answer.\n\n"
    + "Answer ONLY with information from the sources below. Do not generate answers that don't use the sources.\n"

  /** `ragSystemPrompt`. */
  const RagSystemPrompt: Template := [Literal(Instructions), Variable("context"), Literal("\n")]

  /** The chat prompt: the system message, then the question as the human message. */
  const RagPrompt: seq<PromptMessage> :=
    [PromptMessage("system", RagSystemPrompt), PromptMessage("human", [Variable("input")])]

  /** `store.asRetriever(3)`: the three best matches. */
  const RetrievedCount := 3

  /** The chain the handler builds. */
  const RagChain := StuffChain(RagPrompt, SourceDocumentPrompt, DefaultSeparator)

  /** The prompt the handler builds has a `context` variable, so building the chain succeeds,
      with the document template given and the default separator. */
  lemma RagChainBuilds()
    ensures CreateStuffDocumentsChain(RagPrompt, Some(SourceDocumentPrompt), None) == Ok(RagChain)
  {
    assert "context" in InputVariables(RagPrompt[0].template);
  }

  /** The model receives the instructions followed by the formatted documents as the system
      message, and the question as the human message. */
  lemma RagPromptMessages(question: string, context: string)
    ensures FormatPrompt(RagPrompt, map["input" := question, "context" := context]) ==
      Ok([("system", Instructions + context + "\n"), ("human", question)])
  {
    var values := map["input" := question, "context" := context];
    var system := RagSystemPrompt;
    var s1 := [Variable("context"), Literal("\n")];
    var s2 := [Literal("\n")];
    assert system[1..] == s1 && s1[1..] == s2 && s2[1..] == [];
    assert Format(s2[1..], values) == Ok("") && "\n" + "" == "\n";
    FormatUnfold(s2, values);
    FormatUnfold(s1, values);
    FormatUnfold(system, values);
    var human: Template := [Variable("input")];
    assert human[1..] == [];
    FormatUnfold(human, values);
    assert FormatPart(human[0], values) == Ok(question) && question + "" == question;
    assert FormatPart(system[0], values) == Ok(Instructions);
    assert FormatPart(s1[0], values) == Ok(context);
    assert Format(system, values) == Ok(Instructions + (context + "\n"));
    assert Instructions + (context + "\n") == Instructions + context + "\n";
    assert RagPrompt[1..] == [PromptMessage("human", human)] && RagPrompt[1..][1..] == [];
    assert PromptVariables(RagPrompt[1..][1..]) == {};
    assert PromptVariables(RagPrompt[1..]) == InputVariables(human) + {};
    assert RagPrompt[0].template == system;
    assert PromptVariables(RagPrompt) == InputVariables(system) + PromptVariables(RagPrompt[1..]);
    var r := FormatPrompt(RagPrompt, values);
    assert r.Ok? && |r.value| == 2;
    assert r.value[0] == ("system", Instructions + context + "\n");
    assert r.value[1] == ("human", question);
    assert r.value == [("system", Instructions + context + "\n"), ("human", question)];
  }

  /** The first `n` entries of a ranking, or all of them when there are fewer. */
  function Top<T>(ranked: seq<T>, n: nat): (r: seq<T>)
    ensures |r| <= n && |r| <= |ranked|
    ensures r == ranked[..|r|]
    ensures |ranked| >= n ==> |r| == n
  {
    if |ranked| <= n then ranked else ranked[..n]
  }

  /** The model's answer to a question: the search ranks the documents, the best three fill
      the context, and the chain asks the model. `search` stands for the vector store's ranking
      of documents for a question and `llm` for the structured-output model; each yields nothing
      when it throws. */
  function Answer(question: string, search: string -> Option<seq<Document>>,
                  llm: seq<(string, string)> -> Option<string>): (r: Option<string>)
    ensures r.Some? ==> search(question).Some?
    ensures r.Some? ==> var top := Top(search(question).value, RetrievedCount);
                        forall k :: 0 <= k < |top| ==> "source" in top[k].metadata
  {
    var ranked :- search(question);
    ChainNeedsSources(question, Top(ranked, RetrievedCount), llm);
    Invoke(RagChain, question, Some(Top(ranked, RetrievedCount)), llm)
  }

  /** `postIdentifyProjects`: a 400 for invalid messages; a 503 when anything it awaits throws
      (reading the body, the search, formatting the documents, the model); otherwise
      `ok({response})` with the model's answer to the last message. */
  function PostIdentifyProjects(body: Option<ChatsPost.ChatRequest>, search: string -> Option<seq<Document>>,
                                llm: seq<(string, string)> -> Option<string>): (reply: Http.HttpResponse)
    ensures body.None? ==> reply == Http.ServiceUnavailable(ChatsPost.Unavailable)
    ensures body.Some? && !ChatsPost.HasLastContent(body.value.messages) ==>
      reply == Http.BadRequest(ChatsPost.InvalidMessages)
    ensures body.Some? && ChatsPost.HasLastContent(body.value.messages) ==>
      var messages := body.value.messages.value;
      match Answer(messages[|messages| - 1].content, search, llm)
      case None => reply == Http.ServiceUnavailable(ChatsPost.Unavailable)
      case Some(answer) => reply.status == 200 && reply.jsonBody == Http.Obj(map["response" := Http.Str(answer)])
  {
    if body.None? then Http.ServiceUnavailable(ChatsPost.Unavailable)
    else if !ChatsPost.HasLastContent(body.value.messages) then Http.BadRequest(ChatsPost.InvalidMessages)
    else
      var messages := body.value.messages.value;
      match Answer(messages[|messages| - 1].content, search, llm)
      case None => Http.ServiceUnavailable(ChatsPost.Unavailable)
      case Some(answer) => Http.Ok(Http.Obj(map["response" := Http.Str(answer)]))
  }

  /** A retrieved document without a `source` entry cannot be rendered, so the chain fails and
      the request gets a 503. */
  lemma ChainMissingSource(question: string, docs: seq<Document>, k: nat, llm: seq<(string, string)> -> Option<string>)
    requires k < |docs| && "source" !in docs[k].metadata
    ensures Invoke(RagChain, question, Some(docs), llm).None?
  {
    SourceRendering(docs[k]);
    FormatDocumentsFails(docs, SourceDocumentPrompt, DefaultSeparator, k);
  }

  /** The chain reaches the model only when every document names its source. */
  lemma ChainNeedsSources(question: string, docs: seq<Document>, llm: seq<(string, string)> -> Option<string>)
    ensures Invoke(RagChain, question, Some(docs), llm).Some? ==> forall k :: 0 <= k < |docs| ==> "source" in docs[k].metadata
  {
    forall k | 0 <= k < |docs| && "source" !in docs[k].metadata
      ensures Invoke(RagChain, question, Some(docs), llm).None?
    {
      ChainMissingSource(question, docs, k, llm);
    }
  }

  /** When every document names its source, the model receives the instructions followed by
      the rendered documents as the system message, and the question as the human message. */
  lemma ChainWithSources(question: string, docs: seq<Document>, llm: seq<(string, string)> -> Option<string>)
    requires forall k :: 0 <= k < |docs| ==> "source" in docs[k].metadata
    ensures FormatDocuments(Some(docs), SourceDocumentPrompt, DefaultSeparator).Ok?
    ensures Invoke(RagChain, question, Some(docs), llm) ==
      llm([("system", Instructions + FormatDocuments(Some(docs), SourceDocumentPrompt, DefaultSeparator).value + "\n"),
           ("human", question)])
  {
    forall k | 0 <= k < |docs|
      ensures Format(SourceDocumentPrompt, Values(docs[k])).Ok?
    {
      SourceRendering(docs[k]);
    }
    RagPromptMessages(question, FormatDocuments(Some(docs), SourceDocumentPrompt, DefaultSeparator).value);
  }
}
