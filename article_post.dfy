/** `string.replace(new RegExp(`\\b${word}\\b`, 'gi'), '')` as the article handler uses it: every
    case-insensitive whole-word occurrence of a literal word is deleted. The word boundary `\b`
    and the case folding are those of a JavaScript regular expression without the `u` flag:
    word characters are the ASCII letters, digits and `_`, and case is folded in ASCII. */
module WholeWord {
  predicate IsWordChar(c: char)
  {
    ('a' <= c <= 'z') || ('A' <= c <= 'Z') || ('0' <= c <= '9') || c == '_'
  }

  function Lower(c: char): char
  {
    if 'A' <= c <= 'Z' then (c as int + 32) as char else c
  }

  /** A character that folds to a word character is one. */
  lemma LowerWord(c: char, d: char)
    requires Lower(c) == Lower(d) && IsWordChar(d)
    ensures IsWordChar(c)
  {
  }

  predicate IsWordAt(s: string, i: int)
  {
    0 <= i < |s| && IsWordChar(s[i])
  }

  /** `\b` at position `i`: a word character on exactly one side. */
  predicate Boundary(s: string, i: int)
  {
    IsWordAt(s, i - 1) != IsWordAt(s, i)
  }

  /** `s` has `w` at `p`, ignoring case. */
  predicate SameCi(s: string, w: string, p: int)
  {
    0 <= p && p + |w| <= |s| && forall i :: 0 <= i < |w| ==> Lower(s[p + i]) == Lower(w[i])
  }

  /** `\bw\b` matches at `p`. */
  predicate MatchesAt(s: string, w: string, p: int)
  {
    SameCi(s, w, p) && Boundary(s, p) && Boundary(s, p + |w|)
  }

  /** `s` has no whole-word occurrence of `w`. */
  predicate NoMatch(s: string, w: string)
  {
    forall p :: 0 <= p <= |s| ==> !MatchesAt(s, w, p)
  }

  /** A word made of word characters only, as the forbidden words are. */
  predicate IsWord(w: string)
  {
    |w| > 0 && forall i :: 0 <= i < |w| ==> IsWordChar(w[i])
  }

  /** The global replace from position `p` on: matches are looked for left to right, a match is
      deleted and the search resumes after it, any other character is kept. */
  function Scan(s: string, w: string, p: nat): (r: string)
    requires |w| > 0 && p <= |s|
    ensures |r| <= |s| - p
    decreases |s| - p
  {
    if p == |s| then []
    else if MatchesAt(s, w, p) then Scan(s, w, p + |w|)
    else [s[p]] + Scan(s, w, p + 1)
  }

  /** The whole replace; the empty word only matches empty strings, so it removes nothing. */
  function RemoveWholeWord(s: string, w: string): string
  {
    if w == [] then s else Scan(s, w, 0)
  }

  lemma SameCiIsWord(s: string, w: string, p: int)
    requires IsWord(w) && SameCi(s, w, p)
    ensures forall i :: p <= i < p + |w| ==> IsWordChar(s[i])
  {
    forall i | p <= i < p + |w|
      ensures IsWordChar(s[i])
    {
      LowerWord(s[i], w[i - p]);
    }
  }

  /** Right after a word character no match of a word can start. */
  lemma NoMatchAfterWordChar(s: string, w: string, p: int)
    requires IsWord(w) && 0 < p <= |s| && IsWordChar(s[p - 1])
    ensures !MatchesAt(s, w, p)
  {
    if SameCi(s, w, p) {
      SameCiIsWord(s, w, p);
    }
  }

  /** Output that starts with kept word characters copies the input: no match is deleted in the
      middle of a run of word characters. */
  lemma {:induction false} Copy(s: string, w: string, p: nat, k: nat)
    requires IsWord(w) && p < |s| && !MatchesAt(s, w, p)
    requires 1 <= k <= |Scan(s, w, p)|
    requires forall i :: 0 <= i < k ==> IsWordChar(Scan(s, w, p)[i])
    ensures p + k <= |s| && Scan(s, w, p)[..k] == s[p..p + k]
    ensures p + k < |s| ==> k < |Scan(s, w, p)| && Scan(s, w, p)[k] == s[p + k]
    decreases k
  {
    var t := Scan(s, w, p);
    var t1 := Scan(s, w, p + 1);
    assert t == [s[p]] + t1;
    assert IsWordChar(s[p]) by { assert t[0] == s[p]; }
    if p + 1 < |s| {
      NoMatchAfterWordChar(s, w, p + 1);
      assert t1 == [s[p + 1]] + Scan(s, w, p + 2);
    }
    if k > 1 {
      forall i | 0 <= i < k - 1
        ensures IsWordChar(t1[i])
      {
        assert t1[i] == t[i + 1];
      }
      Copy(s, w, p + 1, k - 1);
      assert t[..k] == [s[p]] + t1[..k - 1];
      assert s[p..p + k] == [s[p]] + s[p + 1..p + k];
      if p + k < |s| {
        assert t[k] == t1[k - 1];
      }
    }
  }

  /** `v` occurs at `q` in the output as a whole word, where the character before the output is
      a word character when `leftWord` holds. */
  predicate OpenAt(t: string, v: string, q: int, leftWord: bool)
  {
    && SameCi(t, v, q)
    && (if q == 0 then !leftWord else !IsWordChar(t[q - 1]))
    && !IsWordAt(t, q + |v|)
  }

  /** No whole-word occurrence of `v` in `t`, read after a word character when `leftWord`. */
  predicate NoOpen(t: string, v: string, leftWord: bool)
  {
    forall q :: 0 <= q <= |t| ==> !OpenAt(t, v, q, leftWord)
  }

  lemma OpenShift(c: char, t1: string, v: string, q: int, leftWord: bool)
    requires 1 <= q && OpenAt([c] + t1, v, q, leftWord)
    ensures OpenAt(t1, v, q - 1, IsWordChar(c))
  {
    var t := [c] + t1;
    forall i | 0 <= i < |v|
      ensures Lower(t1[q - 1 + i]) == Lower(v[i])
    {
      assert t1[q - 1 + i] == t[q + i];
    }
    if q > 1 {
      assert t[q - 1] == t1[q - 2];
    }
  }

  /** A character in front of an output without occurrences adds none, unless one starts at it. */
  lemma ConsNoOpen(c: char, t1: string, v: string, leftWord: bool)
    requires NoOpen(t1, v, IsWordChar(c)) && !OpenAt([c] + t1, v, 0, leftWord)
    ensures NoOpen([c] + t1, v, leftWord)
  {
    forall q | 1 <= q <= |t1| + 1 && OpenAt([c] + t1, v, q, leftWord)
      ensures false
    {
      OpenShift(c, t1, v, q, leftWord);
    }
  }

  /** An output that does not start with a word character has no occurrence at its start,
      whatever precedes it. */
  lemma StartsWithNonWord(t: string, v: string, leftWord: bool)
    requires IsWord(v) && (t == [] || !IsWordChar(t[0])) && NoOpen(t, v, true)
    ensures NoOpen(t, v, leftWord)
  {
    if SameCi(t, v, 0) {
      SameCiIsWord(t, v, 0);
    }
    assert !OpenAt(t, v, 0, leftWord);
    forall q | 1 <= q <= |t|
      ensures !OpenAt(t, v, q, leftWord)
    {
      assert !OpenAt(t, v, q, true);
    }
  }

  /** Where a match of `w` is deleted, what follows starts with a character that is not a word
      character. */
  lemma AfterMatch(s: string, w: string, p: nat)
    requires IsWord(w) && p < |s| && MatchesAt(s, w, p)
    ensures var t := Scan(s, w, p + |w|); t == [] || !IsWordChar(t[0])
  {
    var n := |w|;
    SameCiIsWord(s, w, p);
    assert IsWordAt(s, p + n - 1);
    if p + n < |s| {
      NoMatchAfterWordChar(s, w, p + n);
      assert Scan(s, w, p + n) == [s[p + n]] + Scan(s, w, p + n + 1);
    }
  }

  /** An occurrence at the start of the output, where no match of `w` starts, is copied from
      the input, where it is a whole-word occurrence too. */
  lemma OpenCopied(s: string, w: string, v: string, p: nat)
    requires IsWord(w) && IsWord(v) && p < |s| && !MatchesAt(s, w, p)
    requires OpenAt(Scan(s, w, p), v, 0, IsWordAt(s, p - 1))
    ensures MatchesAt(s, v, p)
  {
    var t := Scan(s, w, p);
    var m := |v|;
    SameCiIsWord(t, v, 0);
    Copy(s, w, p, m);
    forall i | 0 <= i < m
      ensures Lower(s[p + i]) == Lower(v[i])
    {
      assert s[p + i] == t[..m][i];
    }
    assert IsWordChar(s[p]) by { assert s[p] == t[..m][0]; }
    assert IsWordChar(s[p + m - 1]) by { assert s[p + m - 1] == t[..m][m - 1]; }
  }

  /** In `s`, `v` occurs as a whole word only where `w` does (as when `v` is `w`, or when `v`
      does not occur at all). */
  predicate Covered(s: string, w: string, v: string)
  {
    forall r :: 0 <= r <= |s| && MatchesAt(s, v, r) ==> MatchesAt(s, w, r)
  }

  /** A deleted match leaves what follows it as it was. */
  lemma MatchStep(s: string, w: string, v: string, p: nat)
    requires IsWord(w) && IsWord(v) && p < |s| && MatchesAt(s, w, p)
    requires NoOpen(Scan(s, w, p + |w|), v, IsWordAt(s, p + |w| - 1))
    ensures NoOpen(Scan(s, w, p), v, IsWordAt(s, p - 1))
  {
    SameCiIsWord(s, w, p);
    assert IsWordAt(s, p + |w| - 1);
    AfterMatch(s, w, p);
    StartsWithNonWord(Scan(s, w, p + |w|), v, IsWordAt(s, p - 1));
  }

  /** A kept character starts no occurrence, and shifts the ones after it. */
  lemma KeepStep(s: string, w: string, v: string, p: nat)
    requires IsWord(w) && IsWord(v) && p < |s| && !MatchesAt(s, w, p) && Covered(s, w, v)
    requires NoOpen(Scan(s, w, p + 1), v, IsWordAt(s, p))
    ensures NoOpen(Scan(s, w, p), v, IsWordAt(s, p - 1))
  {
    if OpenAt(Scan(s, w, p), v, 0, IsWordAt(s, p - 1)) {
      OpenCopied(s, w, v, p);
    }
    assert Scan(s, w, p) == [s[p]] + Scan(s, w, p + 1);
    ConsNoOpen(s[p], Scan(s, w, p + 1), v, IsWordAt(s, p - 1));
  }

  /** The output of the scan from `p` holds no whole-word occurrence of `v`, where every match
      of `v` in the input is a match of `w`: the scan deletes those and creates no new one,
      since what closes up around a deleted match are characters that are not word characters. */
  lemma {:induction false} ScanLeavesNoMatch(s: string, w: string, v: string, p: nat)
    requires IsWord(w) && IsWord(v) && p <= |s| && Covered(s, w, v)
    ensures NoOpen(Scan(s, w, p), v, IsWordAt(s, p - 1))
    decreases |s| - p
  {
    if p == |s| {
      assert Scan(s, w, p) == [];
    } else if MatchesAt(s, w, p) {
      ScanLeavesNoMatch(s, w, v, p + |w|);
      MatchStep(s, w, v, p);
    } else {
      ScanLeavesNoMatch(s, w, v, p + 1);
      KeepStep(s, w, v, p);
    }
  }

  /** A whole-word occurrence in the output is an open one. */
  lemma MatchIsOpen(t: string, v: string, q: int)
    requires IsWord(v) && MatchesAt(t, v, q)
    ensures OpenAt(t, v, q, false)
  {
    SameCiIsWord(t, v, q);
  }

  /** After the replace, the word has no whole-word occurrence left. */
  lemma RemovesEveryOccurrence(s: string, w: string)
    requires IsWord(w)
    ensures NoMatch(RemoveWholeWord(s, w), w)
  {
    ScanLeavesNoMatch(s, w, w, 0);
    assert !IsWordAt(s, -1);
    var t := RemoveWholeWord(s, w);
    forall q | 0 <= q <= |t| && MatchesAt(t, w, q)
      ensures false
    {
      MatchIsOpen(t, w, q);
    }
  }

  /** The replace creates no whole-word occurrence of another word. */
  lemma KeepsAbsentWordsAbsent(s: string, w: string, v: string)
    requires IsWord(w) && IsWord(v) && NoMatch(s, v)
    ensures NoMatch(RemoveWholeWord(s, w), v)
  {
    ScanLeavesNoMatch(s, w, v, 0);
    assert !IsWordAt(s, -1);
    var t := RemoveWholeWord(s, w);
    forall q | 0 <= q <= |t| && MatchesAt(t, v, q)
      ensures false
    {
      MatchIsOpen(t, v, q);
    }
  }

  /** The replace keeps the text between matches: a stretch `s[p..q]` where no match starts is
      copied to the output unchanged, and the scan goes on from `q`. With the deletion of each
      match (the second case of `Scan`), this says the output is the input with exactly the
      leftmost non-overlapping matches cut out. */
  lemma {:induction false} ScanKeepsGap(s: string, w: string, p: nat, q: nat)
    requires |w| > 0 && p <= q <= |s|
    requires forall r :: p <= r < q ==> !MatchesAt(s, w, r)
    ensures Scan(s, w, p) == s[p..q] + Scan(s, w, q)
    decreases q - p
  {
    if p < q {
      ScanKeepsGap(s, w, p + 1, q);
      assert s[p..q] == [s[p]] + s[p + 1..q];
    }
  }

  /** A text without a whole-word occurrence is left exactly as it is: in particular
      occurrences inside longer words are kept. */
  lemma UnchangedWithoutMatch(s: string, w: string)
    requires NoMatch(s, w)
    ensures RemoveWholeWord(s, w) == s
  {
    if w != [] {
      ScanKeepsGap(s, w, 0, |s|);
      assert Scan(s, w, |s|) == [];
    }
  }

  /** For instance "Examples" keeps its "example". */
  lemma InsideLongerWord()
    ensures RemoveWholeWord("Examples", "example") == "Examples"
  {
    var s, w := "Examples", "example";
    forall p | 0 <= p <= |s|
      ensures !MatchesAt(s, w, p)
    {
      if p == 0 {
        assert !Boundary(s, 7);
      } else if p == 1 {
        assert Lower(s[1]) != Lower(w[0]);
      }
    }
    UnchangedWithoutMatch(s, w);
  }
}

/** The handler of `POST /api/article` (packages/api/src/functions/article-post.ts): web search,
    a draft written from the results, the forbidden words removed, and a rewrite. */
module ArticlePost {
  import opened Wrappers
  import Http
  import opened StuffDocuments
  import opened WholeWord
  import ChatsPost

  const MissingKey := "Tavily API key is not set."
  const InvalidTopic := "Invalid or missing topic in the request body"

  /** The request body: the topic, the empty string when missing. */
  datatype ArticleRequest = ArticleRequest(topic: string)

  /** A web search result: its content and its URL. */
  datatype SearchResult = SearchResult(content: string, url: string)

  /** `new Document({pageContent: result.content, metadata: {source: result.url}})`. */
  function ResultDocument(r: SearchResult): Document
  {
    Document(r.content, map["source" := r.url])
  }

  /** The context documents: one per search result, in order, with the URL as the source. */
  function Documents(results: seq<SearchResult>): (docs: seq<Document>)
    ensures |docs| == |results|
    ensures forall k :: 0 <= k < |docs| ==>
      docs[k].pageContent == results[k].content && docs[k].metadata == map["source" := results[k].url]
  {
    if results == [] then [] else [ResultDocument(results[0])] + Documents(results[1..])
  }

  const ArticleInstructions :=
    "You are a journalist. Write a journalistic article about the topic provided by the user.\n"
    + "Answer ONLY with information from the sources below.\n"
    + "SOURCES:\n"

  /** `articleSystemPrompt` and the human message with the topic. */
  const DraftPrompt: seq<PromptMessage> :=
    [PromptMessage("system", [Literal(ArticleInstructions), Variable("context")]),
     PromptMessage("human", [Variable("input")])]

  const DraftChain := StuffChain(DraftPrompt, SourceDocumentPrompt, DefaultSeparator)

  /** The draft prompt has a `context` variable, so building the chain succeeds. */
  lemma DraftChainBuilds()
    ensures CreateStuffDocumentsChain(DraftPrompt, Some(SourceDocumentPrompt), None) == Ok(DraftChain)
  {
    assert "context" in InputVariables(DraftPrompt[0].template);
  }

  /** The model writing the draft receives the instructions followed by the sources as the
      system message, and the topic as the human message. */
  lemma DraftMessages(topic: string, context: string)
    ensures FormatPrompt(DraftPrompt, map["input" := topic, "context" := context]) ==
      Ok([("system", ArticleInstructions + context), ("human", topic)])
  {
    var values := map["input" := topic, "context" := context];
    var system: Template := [Literal(ArticleInstructions), Variable("context")];
    var s1: Template := [Variable("context")];
    assert system[1..] == s1 && s1[1..] == [];
    FormatUnfold(s1, values);
    assert FormatPart(s1[0], values) == Ok(context) && context + "" == context;
    FormatUnfold(system, values);
    assert FormatPart(system[0], values) == Ok(ArticleInstructions);
    var human: Template := [Variable("input")];
    assert human[1..] == [];
    FormatUnfold(human, values);
    assert FormatPart(human[0], values) == Ok(topic) && topic + "" == topic;
    assert DraftPrompt[0].template == system && DraftPrompt[1].template == human;
    assert DraftPrompt[1..] == [PromptMessage("human", human)] && DraftPrompt[1..][1..] == [];
    assert PromptVariables(DraftPrompt[1..][1..]) == {};
    assert PromptVariables(DraftPrompt[1..]) == InputVariables(human) + {};
    assert PromptVariables(DraftPrompt) == InputVariables(system) + PromptVariables(DraftPrompt[1..]);
    var r := FormatPrompt(DraftPrompt, values);
    assert r.Ok? && |r.value| == 2;
    assert r.value == [("system", ArticleInstructions + context), ("human", topic)];
  }

  /** Every context document names its source, so the draft chain never fails on the
      documents: the model receives the instructions and the rendered results. */
  lemma DraftOfResults(topic: string, results: seq<SearchResult>, llm: seq<(string, string)> -> Option<string>)
    ensures FormatDocuments(Some(Documents(results)), SourceDocumentPrompt, DefaultSeparator).Ok?
    ensures Invoke(DraftChain, topic, Some(Documents(results)), llm) ==
      llm([("system", ArticleInstructions + FormatDocuments(Some(Documents(results)), SourceDocumentPrompt, DefaultSeparator).value),
           ("human", topic)])
  {
    var docs := Documents(results);
    forall k | 0 <= k < |docs|
      ensures Format(SourceDocumentPrompt, Values(docs[k])).Ok?
    {
      SourceRendering(docs[k]);
    }
    DraftMessages(topic, FormatDocuments(Some(docs), SourceDocumentPrompt, DefaultSeparator).value);
  }

  /** The list of forbidden words, in the order they are removed. */
  const ForbiddenWords: seq<string> := ["example", "forbidden", "words"]

  lemma ForbiddenWordsAreWords()
    ensures forall j :: 0 <= j < |ForbiddenWords| ==> IsWord(ForbiddenWords[j])
  {
    assert IsWord("example") && IsWord("forbidden") && IsWord("words");
  }

  /** The article after the words are removed one after the other, in list order. */
  function ReviewAll(article: string, words: seq<string>): string
  {
    if words == [] then article
    else RemoveWholeWord(ReviewAll(article, words[..|words| - 1]), words[|words| - 1])
  }

  /** Once all the words are processed, none of them is left as a whole word: removing a later
      word never brings an earlier one back. */
  lemma {:induction false} ReviewAllClean(article: string, words: seq<string>)
    requires forall j :: 0 <= j < |words| ==> IsWord(words[j])
    ensures forall j :: 0 <= j < |words| ==> NoMatch(ReviewAll(article, words), words[j])
  {
    if words != [] {
      var init, last := words[..|words| - 1], words[|words| - 1];
      ReviewAllClean(article, init);
      var before := ReviewAll(article, init);
      forall j | 0 <= j < |words|
        ensures NoMatch(ReviewAll(article, words), words[j])
      {
        if j < |words| - 1 {
          assert words[j] == init[j];
          KeepsAbsentWordsAbsent(before, last, words[j]);
        } else {
          RemovesEveryOccurrence(before, last);
        }
      }
    }
  }

  /** The `forEach` over the words, reassigning the article once per word. */
  method Review(article: string, words: seq<string>) returns (reviewed: string)
    ensures reviewed == ReviewAll(article, words)
  {
    reviewed := article;
    var i := 0;
    while i < |words|
      invariant 0 <= i <= |words|
      invariant reviewed == ReviewAll(article, words[..i])
    {
      assert words[..i + 1][..i] == words[..i];
      reviewed := RemoveWholeWord(reviewed, words[i]);
      i := i + 1;
    }
    assert words[..i] == words;
  }

  const RewriteInstructions :=
    "Rewrite the following article to improve its flow and coherence. Do not add new information. \n\n"
    + "Original article:\n"

  /** `ChatPromptTemplate.fromTemplate(...)`: one human message. */
  const RewritePrompt: seq<PromptMessage> := [PromptMessage("human", [Literal(RewriteInstructions), Variable("article")])]

  /** The article the handler returns: the search results feed the draft, the forbidden words are
      removed from it, and the model rewrites the result. `search` stands for the web search and
      `llm` for the model; each yields nothing when it throws. */
  function WriteArticle(topic: string, search: string -> Option<seq<SearchResult>>,
                        llm: seq<(string, string)> -> Option<string>): (r: Option<string>)
    ensures r.Some? ==> search(topic).Some? && Invoke(DraftChain, topic, Some(Documents(search(topic).value)), llm).Some?
    ensures search(topic).Some? && Invoke(DraftChain, topic, Some(Documents(search(topic).value)), llm).Some? ==>
      var draft := Invoke(DraftChain, topic, Some(Documents(search(topic).value)), llm).value;
      r == llm([("human", RewriteInstructions + ReviewAll(draft, ForbiddenWords))])
  {
    var results :- search(topic);
    var draft :- Invoke(DraftChain, topic, Some(Documents(results)), llm);
    RewriteMessages(draft);
    match FormatPrompt(RewritePrompt, map["article" := ReviewAll(draft, ForbiddenWords)])
    case Err(_) => None
    case Ok(messages) => llm(messages)
  }

  /** What the model is asked to rewrite holds none of the forbidden words as a whole word. */
  lemma RewriteMessages(draft: string)
    ensures var reviewed := ReviewAll(draft, ForbiddenWords);
            && FormatPrompt(RewritePrompt, map["article" := reviewed]) == Ok([("human", RewriteInstructions + reviewed)])
            && forall j :: 0 <= j < |ForbiddenWords| ==> NoMatch(reviewed, ForbiddenWords[j])
  {
    var reviewed := ReviewAll(draft, ForbiddenWords);
    ForbiddenWordsAreWords();
    ReviewAllClean(draft, ForbiddenWords);
    var values := map["article" := reviewed];
    var t: Template := [Literal(RewriteInstructions), Variable("article")];
    var t1: Template := [Variable("article")];
    assert t[1..] == t1 && t1[1..] == [];
    FormatUnfold(t1, values);
    assert FormatPart(t1[0], values) == Ok(reviewed) && reviewed + "" == reviewed;
    FormatUnfold(t, values);
    assert FormatPart(t[0], values) == Ok(RewriteInstructions);
    assert RewritePrompt[0].template == t && RewritePrompt[1..] == [];
    assert PromptVariables(RewritePrompt) == InputVariables(t) + {};
    var r := FormatPrompt(RewritePrompt, values);
    assert r.Ok? && |r.value| == 1;
    assert r.value == [("human", RewriteInstructions + reviewed)];
  }

  /** `postArticle`: a 503 when the search key is not set, before the body is read; a 400 for
      a missing topic; a 503 when anything it awaits throws (reading the body, the search, the
      model); otherwise the rewritten article. An unreadable body is `None`. */
  method PostArticle(tavilyApiKey: string, body: Option<ArticleRequest>,
                     search: (string, string) -> Option<seq<SearchResult>>,
                     llm: seq<(string, string)> -> Option<string>) returns (reply: Http.Reply)
    ensures tavilyApiKey == "" ==> reply == Http.Respond(Http.ServiceUnavailable(MissingKey))
    ensures tavilyApiKey != "" && body.None? ==> reply == Http.Respond(Http.ServiceUnavailable(ChatsPost.Unavailable))
    ensures tavilyApiKey != "" && body.Some? && body.value.topic == "" ==>
      reply == Http.Respond(Http.BadRequest(InvalidTopic))
    ensures tavilyApiKey != "" && body.Some? && body.value.topic != "" ==>
      match WriteArticle(body.value.topic, topic => search(tavilyApiKey, topic), llm)
      case None => reply == Http.Respond(Http.ServiceUnavailable(ChatsPost.Unavailable))
      case Some(article) => reply == Http.Data(Http.Obj(map["article" := Http.Str(article)]))
  {
    if tavilyApiKey == "" {
      return Http.Respond(Http.ServiceUnavailable(MissingKey));
    }
    if body.None? {
      return Http.Respond(Http.ServiceUnavailable(ChatsPost.Unavailable));
    }
    var topic := body.value.topic;
    if topic == "" {
      return Http.Respond(Http.BadRequest(InvalidTopic));
    }
    reply := Http.Respond(Http.ServiceUnavailable(ChatsPost.Unavailable));
    var results := search(tavilyApiKey, topic);
    if results.None? {
      return;
    }
    var draft := Invoke(DraftChain, topic, Some(Documents(results.value)), llm);
    if draft.None? {
      return;
    }
    var article := Review(draft.value, ForbiddenWords);
    var messages := FormatPrompt(RewritePrompt, map["article" := article]);
    if messages.Err? {
      return;
    }
    var final := llm(messages.value);
    if final.Some? {
      reply := Http.Data(Http.Obj(map["article" := Http.Str(final.value)]));
    }
  }
}
