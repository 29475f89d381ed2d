/**
 * The query pipeline: embed the question, fetch the five nearest stored contexts,
 * fill the fixed prompt template with them and the question, and return the first
 * completion of the generative model.
 *
 * The embedding service, the index query and the generator are parameters
 * (`embed`, `query`, `generate`); only the requests they receive are modelled.
 */
module Chat {
  import opened Wrappers
  import opened PyStr
  import Process

  /* ----- the prompt template ----- */

  /*
   * The template literal of the chat route, one constant per source line; the
   * four-space indentation of the continuation lines is part of the string. The two
   * long lines are written as two literals each: facts about every character of a
   * literal are cheap for the verifier only while the literal is short, and the
   * brace-freeness lemmas below are proved piece by piece.
   */
  const Line37: string := "Answer the question based" + " on the context below. If the\n"
  const Line38: string := "    question cannot be answered" + " using the information provided answer\n"
  const Line39: string := "    with ### I don't know ###.\n"
  const Blank: string := "\n"
  const Line41: string := "    ###\n"
  const Line43: string := "    context: {context}\n"
  const Line47: string := "    question: {question}\n"
  const Line48: string := "    answer:"

  const Template: string :=
    Line37 + Line38 + Line39 + Blank + Line41 + Blank + Line43 + Blank + Line41 + Blank + Line47 + Line48

  /** The template text before `{context}`, between the two fields, and after `{question}`. */
  const TemplateHead: string := Line37 + Line38 + Line39 + Blank + Line41 + Blank + "    context: "
  const TemplateMiddle: string := "\n" + Blank + Line41 + Blank + "    question: "
  const TemplateTail: string := "\n" + Line48

  predicate Braceless(s: string) {
    forall k :: 0 <= k < |s| ==> s[k] != '{' && s[k] != '}'
  }

  lemma BracelessAppend(a: string, b: string)
    requires Braceless(a) && Braceless(b)
    ensures Braceless(a + b)
  {
  }

  /** The two long lines are brace-free, checked piece by piece. */
  lemma Line37Braceless()
    ensures Braceless(Line37)
  {
    assert Braceless("Answer the question based");
    assert Braceless(" on the context below. If the\n");
    BracelessAppend("Answer the question based", " on the context below. If the\n");
  }

  lemma Line38Braceless()
    ensures Braceless(Line38)
  {
    assert Braceless("    question cannot be answered");
    assert Braceless(" using the information provided answer\n");
    BracelessAppend("    question cannot be answered", " using the information provided answer\n");
  }

  lemma ShortLinesBraceless()
    ensures Braceless(Line39) && Braceless(Blank) && Braceless(Line41) && Braceless(Line48)
    ensures Braceless("    context: ") && Braceless("    question: ") && Braceless("\n")
  {
  }

  /** The replacement field `{name}`. */
  function Field(name: string): string
  {
    "{" + name + "}"
  }

  /** The template is its fixed text with exactly the two fields `{context}` and `{question}`. */
  lemma TemplateShape()
    ensures Template == TemplateHead + Field("context") + TemplateMiddle + Field("question") + TemplateTail
    ensures Braceless(TemplateHead) && Braceless(TemplateMiddle) && Braceless(TemplateTail)
  {
    Line37Braceless();
    Line38Braceless();
    ShortLinesBraceless();
    BracelessAppend(Line37, Line38);
    BracelessAppend(Line37 + Line38, Line39);
    BracelessAppend(Line37 + Line38 + Line39, Blank);
    BracelessAppend(Line37 + Line38 + Line39 + Blank, Line41);
    BracelessAppend(Line37 + Line38 + Line39 + Blank + Line41, Blank);
    BracelessAppend(Line37 + Line38 + Line39 + Blank + Line41 + Blank, "    context: ");
    BracelessAppend("\n", Blank);
    BracelessAppend("\n" + Blank, Line41);
    BracelessAppend("\n" + Blank + Line41, Blank);
    BracelessAppend("\n" + Blank + Line41 + Blank, "    question: ");
    BracelessAppend("\n", Line48);
  }

  /* ----- str.format ----- */

  /**
   * A replacement field naming a keyword argument; empty names, positional indices,
   * attribute or index access, conversions and format specs are outside this model.
   */
  predicate PlainName(name: string) {
    && name != ""
    && !IsDigit(name[0])
    && forall k :: 0 <= k < |name| ==> name[k] !in "{}:!.["
  }

  /** The exceptions `str.format` raises on a template. */
  datatype FormatError =
    | UnclosedField              // "expected '}' before end of string"
    | SingleCloseBrace           // "Single '}' encountered in format string"
    | UnsupportedField(name: string)
    | MissingKey(name: string)   // KeyError

  /** Prefix `s` to a successful result; errors pass through. */
  function Prepend(s: string, r: Result<string, FormatError>): (prefixed: Result<string, FormatError>)
  {
    match r
    case Success(v) => Success(s + v)
    case Failure(e) => Failure(e)
  }

  /**
   * `template.format(**args)` for keyword fields: a single left-to-right pass in which
   * `{{` and `}}` stand for braces and `{name}` for `args[name]`; substituted values
   * are never scanned again.
   */
  function Format(t: string, args: map<string, string>): (r: Result<string, FormatError>)
    decreases |t|
  {
    if t == "" then Success("")
    else if t[0] == '{' && |t| >= 2 && t[1] == '{' then Prepend("{", Format(t[2..], args))
    else if t[0] == '{' then
      match FindFrom(t, "}", 1)
      case None => Failure(UnclosedField)
      case Some(j) =>
        var name := t[1..j];
        if !PlainName(name) then Failure(UnsupportedField(name))
        else if name !in args then Failure(MissingKey(name))
        else Prepend(args[name], Format(t[j + 1..], args))
    else if t[0] == '}' && |t| >= 2 && t[1] == '}' then Prepend("}", Format(t[2..], args))
    else if t[0] == '}' then Failure(SingleCloseBrace)
    else Prepend([t[0]], Format(t[1..], args))
  }

  lemma PrependTwice(a: string, b: string, r: Result<string, FormatError>)
    ensures Prepend(a, Prepend(b, r)) == Prepend(a + b, r)
  {
    if r.Success? {
      assert a + (b + r.value) == (a + b) + r.value;
    }
  }

  /** Text without braces is copied through unchanged. */
  lemma {:induction false} FormatLiteral(s: string, rest: string, args: map<string, string>)
    requires Braceless(s)
    ensures Format(s + rest, args) == Prepend(s, Format(rest, args))
    decreases |s|
  {
    if s == "" {
      assert s + rest == rest;
      assert Prepend("", Format(rest, args)) == Format(rest, args) by {
        if Format(rest, args).Success? { assert "" + Format(rest, args).value == Format(rest, args).value; }
      }
    } else {
      var t := s + rest;
      assert t[0] == s[0];
      assert t[1..] == s[1..] + rest;
      FormatLiteral(s[1..], rest, args);
      PrependTwice([s[0]], s[1..], Format(rest, args));
      assert [s[0]] + s[1..] == s;
    }
  }

  /** A field `{name}` is replaced by its value, verbatim. */
  lemma FormatField(name: string, rest: string, args: map<string, string>)
    requires PlainName(name) && name in args
    ensures Format(Field(name) + rest, args) == Prepend(args[name], Format(rest, args))
  {
    var t := Field(name) + rest;
    var j := |name| + 1;
    assert t[j] == '}';
    assert t[j..j + 1] == "}";
    assert OccursAt(t, "}", j);
    forall i: nat | 1 <= i < j ensures !OccursAt(t, "}", i) {
      assert t[i] == name[i - 1];
      assert name[i - 1] != '}';
      assert t[i..i + 1][0] == t[i];
    }
    var r := FindFrom(t, "}", 1);
    assert r.Some? && r.value == j;
    assert t[0] == '{' && t[1] != '{';
    assert t[1..j] == name;
    assert t[j + 1..] == rest;
  }

  /** The keyword arguments of `prompt_temp.format(context=..., question=...)`. */
  function PromptArgs(context: string, question: string): map<string, string>
  {
    map["context" := context, "question" := question]
  }

  /** A braceless stretch followed by one field: both come out verbatim, in place. */
  lemma FormatSegment(lit: string, name: string, rest: string, args: map<string, string>, formatted: string)
    requires Braceless(lit) && PlainName(name) && name in args
    requires Format(rest, args) == Success(formatted)
    ensures Format(lit + Field(name) + rest, args) == Success(lit + args[name] + formatted)
  {
    FormatField(name, rest, args);
    assert lit + Field(name) + rest == lit + (Field(name) + rest);
    FormatLiteral(lit, Field(name) + rest, args);
    assert lit + (args[name] + formatted) == lit + args[name] + formatted;
  }

  lemma Regroup(a: string, b: string, c: string, d: string, e: string)
    ensures a + b + c + d + e == a + b + (c + d + e)
  {
  }

  /**
   * Formatting the template puts the context block and the question in place of their
   * fields, each once and verbatim, whatever they contain, and keeps every other
   * character of the template; it never fails.
   */
  lemma FormatTemplate(context: string, question: string)
    ensures Format(Template, PromptArgs(context, question))
         == Success(TemplateHead + context + TemplateMiddle + question + TemplateTail)
  {
    var args := PromptArgs(context, question);
    var head, middle, tail := TemplateHead, TemplateMiddle, TemplateTail;
    TemplateShape();
    assert PlainName("context") && PlainName("question");
    FormatLiteral(tail, "", args);
    assert tail + "" == tail;
    FormatSegment(middle, "question", tail, args, tail);
    FormatSegment(head, "context", middle + Field("question") + tail, args, middle + question + tail);
    Regroup(head, Field("context"), middle, Field("question"), tail);
    Regroup(head, context, middle, question, tail);
  }

  /* ----- llm_chat ----- */

  const TopK: nat := 5
  const Temperature: real := 0.5
  const GenerationModel: string := "command"
  const MaxTokens: nat := 128

  /**
   * `index.query(vectors, top_k=..., include_metadata=...)`. `llm_chat` passes
   * `[xq]`, where `xq` is the whole `.embeddings` list of the question's embedding
   * call, so one query vector is a `seq<V>`.
   */
  datatype QueryRequest<V> = QueryRequest(vectors: seq<seq<V>>, topK: nat, includeMetadata: bool)

  /** One entry of `result["matches"]`, in the order the store returned them. */
  datatype Match = Match(id: string, metadata: Process.Metadata)

  /** `api.generate(prompt, temperature=..., model=..., max_tokens=...)`. */
  datatype GenerateRequest = GenerateRequest(prompt: string, temperature: real, model: string, maxTokens: nat)

  datatype Generation = Generation(text: string)

  datatype ChatError =
    | PromptError(error: FormatError)
    | NoGenerations   // `generations[0]` on an empty list

  /** `[r["metadata"]["text"] for r in result["matches"]]`. */
  function Texts(matches: seq<Match>): (texts: seq<string>)
    ensures |texts| == |matches|
  {
    seq(|matches|, k requires 0 <= k < |matches| => matches[k].metadata.text)
  }

  /** The stored texts of the matches joined by blank lines, in store order. */
  function ContextBlock(matches: seq<Match>): (block: string)
    ensures matches == [] ==> block == ""
    ensures |matches| == 1 ==> block == matches[0].metadata.text
  {
    Join(Texts(matches), Process.Sep)
  }

  /** The blocks of two runs of matches are joined in order with one blank line between. */
  lemma ContextBlockAppend(a: seq<Match>, b: seq<Match>)
    requires a != [] && b != []
    ensures ContextBlock(a + b) == ContextBlock(a) + Process.Sep + ContextBlock(b)
  {
    assert Texts(a + b) == Texts(a) + Texts(b);
    JoinAppend(Texts(a), Texts(b), Process.Sep);
  }

  /**
   * When the stored texts are chunks as ingestion produces them, splitting the block
   * on blank lines gives back the texts of the matches in store order.
   */
  lemma ContextBlockSplits(matches: seq<Match>)
    requires SplitShaped(Texts(matches), Process.Sep)
    ensures Split(ContextBlock(matches), Process.Sep) == Texts(matches)
  {
    SplitJoin(Texts(matches), Process.Sep);
  }

  /**
   * Python's `llm_chat`: embed `[question]`, query the index with the result, format
   * the template with the joined match texts and the question, generate, and return
   * the first generation's text.
   */
  function LlmChat<V>(
    embed: Process.EmbedRequest -> seq<V>,
    query: QueryRequest<V> -> seq<Match>,
    generate: GenerateRequest -> seq<Generation>,
    question: string,
    promptTemplate: string,
    embeddingModel: string
  ): (answer: Result<string, ChatError>)
  {
    var xq := embed(Process.EmbedRequest([question], embeddingModel));
    var matches := query(QueryRequest([xq], TopK, true));
    var contexts := ContextBlock(matches);
    match Format(promptTemplate, PromptArgs(contexts, question))
    case Failure(e) => Failure(PromptError(e))
    case Success(prompt) =>
      var generations := generate(GenerateRequest(prompt, Temperature, GenerationModel, MaxTokens));
      if generations == [] then Failure(NoGenerations) else Success(generations[0].text)
  }

  /**
   * What the chat route gets from `llm_chat` with its template and the default
   * embedding model: the question is embedded alone, the index is queried with that
   * embedding for the 5 nearest matches with metadata, the generator receives the
   * filled template with temperature 0.5, model "command" and 128 tokens, and the
   * first generation's text comes back unchanged (an "### I don't know ###" answer
   * included). Only an empty list of generations is an error.
   */
  lemma ChatWithTemplate<V>(
    embed: Process.EmbedRequest -> seq<V>,
    query: QueryRequest<V> -> seq<Match>,
    generate: GenerateRequest -> seq<Generation>,
    question: string
  )
    ensures
      var xq := embed(Process.EmbedRequest([question], "embed-english-v2.0"));
      var matches := query(QueryRequest([xq], 5, true));
      var prompt := TemplateHead + ContextBlock(matches) + TemplateMiddle + question + TemplateTail;
      var generations := generate(GenerateRequest(prompt, 0.5, "command", 128));
      LlmChat(embed, query, generate, question, Template, Process.EmbeddingModel)
        == if generations == [] then Failure(NoGenerations) else Success(generations[0].text)
  {
    var xq := embed(Process.EmbedRequest([question], Process.EmbeddingModel));
    var matches := query(QueryRequest([xq], TopK, true));
    FormatTemplate(ContextBlock(matches), question);
  }

  /** With no matches the prompt is still the whole template, with an empty context. */
  lemma EmptyRetrievalPrompt(question: string)
    ensures Format(Template, PromptArgs(ContextBlock([]), question))
         == Success(TemplateHead + TemplateMiddle + question + TemplateTail)
  {
    FormatTemplate("", question);
    assert TemplateHead + "" == TemplateHead;
  }

  /** The prompt shows `context: ` followed by the block and `question: ` followed by the question. */
  lemma PromptShowsInputs(context: string, question: string)
    ensures var prompt := TemplateHead + context + TemplateMiddle + question + TemplateTail;
      Contains(prompt, "context: " + context) && Contains(prompt, "question: " + question)
  {
    var prompt := TemplateHead + context + TemplateMiddle + question + TemplateTail;
    var i := |TemplateHead| - 9;
    assert TemplateHead[i..] == "context: ";
    assert prompt[i..i + 9 + |context|] == "context: " + context;
    assert OccursAt(prompt, "context: " + context, i);
    var j := |TemplateHead| + |context| + |TemplateMiddle| - 10;
    assert TemplateMiddle[|TemplateMiddle| - 10..] == "question: ";
    assert prompt[j..j + 10 + |question|] == "question: " + question;
    assert OccursAt(prompt, "question: " + question, j);
  }
}
