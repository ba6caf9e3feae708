/**
 Answer generation (`backend/rag/generator.py`): the API-key check of the
 constructor, the numbered context blocks, the prompt template and the
 answer envelope around the language-model call. The model call itself is a
 function parameter that returns the response text or the message of the
 exception it raised.
 */
module Generator {
  import opened Wrappers
  import opened Text
  import opened Json

  const ModelName: string := "gemini-1.5-flash"
  const NoContextAnswer: string := "No relevant information found. Try adding more sources."
  const MissingKeyMessage: string := "GEMINI_API_KEY not found"

  const PromptHead: string := "Answer based on these sources:\n"
  const PromptMiddle: string := "\n\nQuestion: "
  const PromptTail: string :=
    "\n\nInstructions:\n"
    + "- Answer based ONLY on the context\n"
    + "- Be concise and direct\n"
    + "- Mention source numbers [Source 1], [Source 2]\n"
    + "- If context doesn't have the answer, say so\n"
    + "\nAnswer:"

  /**
    The dictionary `generate_answer` returns. `error` stands for the `"error": True`
    entry, which only the failure envelope has.
   */
  datatype Answer = Answer(answer: string, sources: seq<Dict>, model: string, error: bool)

  /**
    `GeminiRAG(api_key)`: the key used is the argument unless it is missing
    or empty, then the `GEMINI_API_KEY` environment variable; no usable key
    raises.
   */
  function NewGemini(apiKey: Option<string>, env: Option<string>): (r: Result<string, PyError>)
    ensures r.Failure? <==> (apiKey.None? || apiKey.value == "") && (env.None? || env.value == "")
    ensures r.Failure? ==> r.error == ValueError(MissingKeyMessage)
    ensures r.Success? ==> r.value != "" && (r.value == apiKey.GetOr("") || r.value == env.GetOr(""))
  {
    var key := if apiKey.Some? && apiKey.value != "" then apiKey else env;
    if key.None? || key.value == "" then Failure(ValueError(MissingKeyMessage)) else Success(key.value)
  }

  /** A key passed in is preferred to the environment. */
  lemma ExplicitKeyWins(key: string, env: Option<string>)
    requires key != ""
    ensures NewGemini(Some(key), env) == Success(key)
  {
  }

  /** `f"\n[Source {i}]\n{doc}\n"`. */
  function SourceBlock(i: nat, doc: string): (b: string)
    ensures |b| == |doc| + |NatToString(i)| + 12
  {
    "\n[Source " + NatToString(i) + "]\n" + doc + "\n"
  }

  /** The context loop from source number `first` on: one block per document, numbered consecutively. */
  function ContextText(docs: seq<string>, first: nat): (t: string)
    ensures |docs| == 0 <==> t == ""
  {
    if |docs| == 0 then "" else SourceBlock(first, docs[0]) + ContextText(docs[1..], first + 1)
  }

  /**
    The blocks of two runs of documents are the blocks of the first run
    followed by those of the second, whose numbering continues where the
    first one stopped.
   */
  lemma {:induction false} ContextTextAppend(a: seq<string>, b: seq<string>, first: nat)
    ensures ContextText(a + b, first) == ContextText(a, first) + ContextText(b, first + |a|)
  {
    if |a| > 0 {
      assert (a + b)[0] == a[0] && (a + b)[1..] == a[1..] + b;
      ContextTextAppend(a[1..], b, first + 1);
      ConcatAssoc(SourceBlock(first, a[0]), ContextText(a[1..], first + 1), ContextText(b, first + |a|));
    } else {
      assert a + b == b;
    }
  }

  lemma ConcatAssoc<T>(x: seq<T>, y: seq<T>, z: seq<T>)
    ensures x + (y + z) == (x + y) + z
  {
  }

  /** The context of one more document ends with that document's block, numbered `first + |docs|`. */
  lemma ContextTextSnoc(docs: seq<string>, doc: string, first: nat)
    ensures ContextText(docs + [doc], first) == ContextText(docs, first) + SourceBlock(first + |docs|, doc)
  {
    ContextTextAppend(docs, [doc], first);
    assert ContextText([doc], first + |docs|) == SourceBlock(first + |docs|, doc) + "";
  }

  /** The prompt template with the context text and the query filled in. */
  function Prompt(contextText: string, query: string): (p: string)
    ensures |p| == |PromptHead| + |contextText| + |PromptMiddle| + |query| + |PromptTail|
  {
    PromptHead + contextText + PromptMiddle + query + PromptTail
  }

  /** The query can be read back off the prompt at a fixed place given the context's length. */
  lemma PromptQueryRecoverable(contextText: string, query: string)
    ensures var p := Prompt(contextText, query);
      var start := |PromptHead| + |contextText| + |PromptMiddle|;
      p[start..|p| - |PromptTail|] == query
      && p[|PromptHead|..|PromptHead| + |contextText|] == contextText
  {
    FiveParts(PromptHead, contextText, PromptMiddle, query, PromptTail);
  }

  /** The second and fourth of five concatenated parts sit where the lengths of the parts before them say. */
  lemma FiveParts<T>(a: seq<T>, b: seq<T>, c: seq<T>, d: seq<T>, e: seq<T>)
    ensures (a + b + c + d + e)[|a|..|a| + |b|] == b
    ensures (a + b + c + d + e)[|a| + |b| + |c|..|a| + |b| + |c| + |d|] == d
  {
  }

  /**
    `generate_answer(query, context, sources)` with `llm` standing for
    `model.generate_content(prompt).text`.
   */
  function GenerateAnswer(query: string, context: seq<string>, sources: seq<Dict>,
                          llm: string -> Result<string, string>): (a: Answer)
    ensures a.model == ModelName
    ensures |context| == 0 ==> a == Answer(NoContextAnswer, [], ModelName, false)
    ensures |context| > 0 ==> a.sources == sources
    ensures |context| > 0 ==> (a.error <==> llm(Prompt(ContextText(context, 1), query)).Failure?)
    ensures |context| > 0 && llm(Prompt(ContextText(context, 1), query)).Success? ==>
              a.answer == llm(Prompt(ContextText(context, 1), query)).value
    ensures |context| > 0 && llm(Prompt(ContextText(context, 1), query)).Failure? ==>
              a.answer == "Error: " + llm(Prompt(ContextText(context, 1), query)).error
  {
    if |context| == 0 then Answer(NoContextAnswer, [], ModelName, false)
    else
      var prompt := Prompt(ContextText(context, 1), query);
      match llm(prompt)
      case Success(text) => Answer(text, sources, ModelName, false)
      case Failure(e) => Answer("Error: " + e, sources, ModelName, true)
  }

  /** With no context the model is never asked: the answer is the same whatever it would say. */
  lemma EmptyContextSkipsModel(query: string, sources: seq<Dict>,
                               llm1: string -> Result<string, string>, llm2: string -> Result<string, string>)
    ensures GenerateAnswer(query, [], sources, llm1) == GenerateAnswer(query, [], sources, llm2)
  {
  }

  /** The answer depends on the documents only through the prompt the model sees. */
  lemma AnswerDependsOnPrompt(query: string, context1: seq<string>, context2: seq<string>, sources: seq<Dict>,
                              llm: string -> Result<string, string>)
    requires |context1| > 0 && |context2| > 0
    requires ContextText(context1, 1) == ContextText(context2, 1)
    ensures GenerateAnswer(query, context1, sources, llm) == GenerateAnswer(query, context2, sources, llm)
  {
  }
}
