/** Per-term enrichment with fallback (src/ai/simplifier.py).

    The language model is not modelled: loading it is a `Loader` (None when
    the constructor raises) and generating text is a `Generator` (None when
    the call raises). Everything the simplifier itself decides -- the fixed
    mode, the prompts, the token limits, the fallback templates, the
    stripping of replies and the record it builds -- is modelled here. */
module Simplification {
  import opened Wrappers

  /** A loaded model; only its name is observable here. */
  datatype Model = Model(name: string)

  /** One call of the model's `generate`: the prompt and the token limit. */
  datatype Request = Request(prompt: string, maxTokens: nat)

  /** Loading a model by name, None when that raises. */
  type Loader = string -> Option<Model>

  /** The model's reply to a request, None when the call raises. */
  type Generator = (Model, Request) -> Option<string>

  const ModelName: string := "ggml-gpt4all-j-v1.3-groovy"

  /** The record built for one term. */
  datatype EnrichmentRecord = EnrichmentRecord(
    term: string,
    complicatedText: string,
    simplifiedDefinition: Option<string>,
    analogy: Option<string>,
    mindMapPrompt: Option<string>)

  // ---------------------------------------------------------------------------
  // Python's str.strip()

  /** Python's `str.isspace` for one character. */
  predicate IsWhitespace(c: char)
  {
    c == ' ' || '\U{9}' <= c <= '\U{D}' || '\U{1C}' <= c <= '\U{1F}' ||
    c == '\U{85}' || c == '\U{A0}' || c == '\U{1680}' || '\U{2000}' <= c <= '\U{200A}' ||
    c == '\U{2028}' || c == '\U{2029}' || c == '\U{202F}' || c == '\U{205F}' || c == '\U{3000}'
  }

  predicate AllWhitespace(w: string)
  {
    forall k | 0 <= k < |w| :: IsWhitespace(w[k])
  }

  /** `s.lstrip()`: the suffix left after the leading whitespace. */
  function StripLeft(s: string): (r: string)
    ensures |r| <= |s| && r == s[|s| - |r|..]
    ensures AllWhitespace(s[..|s| - |r|])
    ensures r == [] || !IsWhitespace(r[0])
    decreases |s|
  {
    if s != [] && IsWhitespace(s[0]) then StripLeft(s[1..]) else s
  }

  /** `s.rstrip()`: the prefix left before the trailing whitespace. */
  function StripRight(s: string): (r: string)
    ensures |r| <= |s| && r == s[..|r|]
    ensures AllWhitespace(s[|r|..])
    ensures r == [] || !IsWhitespace(r[|r| - 1])
    decreases |s|
  {
    if s != [] && IsWhitespace(s[|s| - 1]) then StripRight(s[..|s| - 1]) else s
  }

  /** No whitespace at either end. */
  predicate Trimmed(s: string)
  {
    s == [] || (!IsWhitespace(s[0]) && !IsWhitespace(s[|s| - 1]))
  }

  /** `s.strip()`: the text between the leading and the trailing whitespace. */
  function Strip(s: string): (r: string)
    ensures Trimmed(r)
  {
    var t := StripLeft(s);
    var r := StripRight(t);
    assert r != [] ==> r[0] == t[0];
    r
  }

  /** The stripped text is the input with the leading `Leading(s)` and some
      trailing whitespace cut off. */
  function Leading(s: string): nat
  {
    |s| - |StripLeft(s)|
  }

  lemma StripCutsWhitespace(s: string)
    ensures var r, i := Strip(s), Leading(s);
      i + |r| <= |s| && s[i..i + |r|] == r && AllWhitespace(s[..i]) && AllWhitespace(s[i + |r|..])
  {
    var t := StripLeft(s);
    var r := StripRight(t);
    var i := |s| - |t|;
    assert s[i..i + |r|] == t[..|r|];
    assert s[i + |r|..] == t[|r|..];
  }

  /** Stripping twice is stripping once. */
  lemma StripIdempotent(s: string)
    ensures Strip(Strip(s)) == Strip(s)
  {
    var r := Strip(s);
    assert StripLeft(r) == r;
    assert StripRight(r) == r;
  }

  // ---------------------------------------------------------------------------
  // The prompts

  function SimplifyRequest(text: string): Request
  {
    Request("Simplify this text for a middle school student: " + text, 50)
  }

  function AnalogyRequest(term: string, definition: string): Request
  {
    Request("Create a simple analogy for " + term + ": " + definition, 30)
  }

  function MindMapRequest(term: string, definition: string): Request
  {
    Request("Create a mind map prompt for " + term + ". Include key concepts and relationships from: " + definition, 100)
  }

  /** The model's reply to `request`, stripped, or None when the call raises. */
  function StrippedReply(model: Model, request: Request, generate: Generator): (r: Option<string>)
    ensures r.None? <==> generate(model, request).None?
    ensures r.Some? ==> r.value == Strip(generate(model, request).value)
  {
    match generate(model, request)
    case None => None
    case Some(reply) => Some(Strip(reply))
  }

  lemma StrippedReplyTrimmed(model: Model, request: Request, generate: Generator)
    ensures var r := StrippedReply(model, request, generate); r.Some? ==> Trimmed(r.value)
  {
  }

  /** The three templates filled in for the term "cat". */
  lemma CatSimplified()
    ensures "Simplified: " + "a small domesticated animal" == "Simplified: a small domesticated animal"
  {
  }

  lemma CatAnalogy()
    ensures "Analogy for " + "cat" + ": Like a familiar example" == "Analogy for cat: Like a familiar example"
  {
  }

  lemma CatMindMap()
    ensures "Mind map for " + "cat" + ": Central concept - " + "cat" == "Mind map for cat: Central concept - cat"
  {
  }

  // ---------------------------------------------------------------------------
  // The simplifier

  class Simplifier {
    /** Fixed when the simplifier is built: None means fallback mode. */
    const model: Option<Model>

    /** Try to load the model; a load that raises leaves the simplifier in
        fallback mode for good. */
    constructor(load: Loader)
      ensures model.None? <==> load(ModelName).None?
      ensures model.Some? ==> model.value == load(ModelName).value
    {
      model := load(ModelName);
    }

    /** With a model, its stripped reply to `request` (None when the call
        raises); without one, the fixed `fallback`. */
    function Generate(request: Request, fallback: string, generate: Generator): Option<string>
    {
      if model.None? then Some(fallback) else StrippedReply(model.value, request, generate)
    }

    /** `simplify_definition(text)`. */
    function SimplifyDefinition(text: string, generate: Generator): (r: Option<string>)
      ensures model.None? ==> r == Some("Simplified: " + text)
      ensures model.Some? ==> r == StrippedReply(model.value, SimplifyRequest(text), generate)
    {
      Generate(SimplifyRequest(text), "Simplified: " + text, generate)
    }

    /** `generate_analogy(term, definition)`. */
    function GenerateAnalogy(term: string, definition: string, generate: Generator): (r: Option<string>)
      ensures model.None? ==> r == Some("Analogy for " + term + ": Like a familiar example")
      ensures model.Some? ==> r == StrippedReply(model.value, AnalogyRequest(term, definition), generate)
    {
      Generate(AnalogyRequest(term, definition), "Analogy for " + term + ": Like a familiar example", generate)
    }

    /** `generate_mind_map_prompt(term, definition)`. */
    function GenerateMindMapPrompt(term: string, definition: string, generate: Generator): (r: Option<string>)
      ensures model.None? ==> r == Some("Mind map for " + term + ": Central concept - " + term)
      ensures model.Some? ==> r == StrippedReply(model.value, MindMapRequest(term, definition), generate)
    {
      Generate(MindMapRequest(term, definition), "Mind map for " + term + ": Central concept - " + term, generate)
    }

    /** `process_text(term, text)`: the inputs unchanged and the three
        generator results, each generated from the original text. */
    function ProcessText(term: string, text: string, generate: Generator): (r: EnrichmentRecord)
      ensures r.term == term && r.complicatedText == text
      ensures r.simplifiedDefinition == SimplifyDefinition(text, generate)
      ensures r.analogy == GenerateAnalogy(term, text, generate)
      ensures r.mindMapPrompt == GenerateMindMapPrompt(term, text, generate)
    {
      EnrichmentRecord(term, text,
        SimplifyDefinition(text, generate),
        GenerateAnalogy(term, text, generate),
        GenerateMindMapPrompt(term, text, generate))
    }

    /** In fallback mode no field is ever missing: every generated field is its template. */
    lemma FallbackNeverMissing(term: string, text: string, generate: Generator)
      requires model.None?
      ensures var r := ProcessText(term, text, generate);
        r.simplifiedDefinition.Some? && r.analogy.Some? && r.mindMapPrompt.Some? &&
        r == EnrichmentRecord(term, text,
               Some("Simplified: " + text),
               Some("Analogy for " + term + ": Like a familiar example"),
               Some("Mind map for " + term + ": Central concept - " + term))
    {
    }

    /** With a model, a generated field is missing exactly when its own call
        raises; it is never replaced by the template. */
    lemma MissingIffCallFails(term: string, text: string, generate: Generator)
      requires model.Some?
      ensures var r := ProcessText(term, text, generate);
        (r.simplifiedDefinition.None? <==> generate(model.value, SimplifyRequest(text)).None?) &&
        (r.analogy.None? <==> generate(model.value, AnalogyRequest(term, text)).None?) &&
        (r.mindMapPrompt.None? <==> generate(model.value, MindMapRequest(term, text)).None?) &&
        (r.simplifiedDefinition.Some? ==> r.simplifiedDefinition.value == Strip(generate(model.value, SimplifyRequest(text)).value))
    {
    }

    /** Each field depends on its own call only: two generators that agree on
        one field's request give the same value for that field, whatever
        they do with the other two requests. */
    lemma FieldsIndependent(term: string, text: string, g1: Generator, g2: Generator)
      requires model.Some?
      ensures g1(model.value, SimplifyRequest(text)) == g2(model.value, SimplifyRequest(text)) ==>
        ProcessText(term, text, g1).simplifiedDefinition == ProcessText(term, text, g2).simplifiedDefinition
      ensures g1(model.value, AnalogyRequest(term, text)) == g2(model.value, AnalogyRequest(term, text)) ==>
        ProcessText(term, text, g1).analogy == ProcessText(term, text, g2).analogy
      ensures g1(model.value, MindMapRequest(term, text)) == g2(model.value, MindMapRequest(term, text)) ==>
        ProcessText(term, text, g1).mindMapPrompt == ProcessText(term, text, g2).mindMapPrompt
    {
    }

    /** A reply that is present carries no whitespace at either end. */
    lemma RepliesTrimmed(term: string, text: string, generate: Generator)
      requires model.Some?
      ensures var r := ProcessText(term, text, generate);
        (r.simplifiedDefinition.Some? ==> Trimmed(r.simplifiedDefinition.value)) &&
        (r.analogy.Some? ==> Trimmed(r.analogy.value)) &&
        (r.mindMapPrompt.Some? ==> Trimmed(r.mindMapPrompt.value))
    {
      var r := ProcessText(term, text, generate);
      StrippedReplyTrimmed(model.value, SimplifyRequest(text), generate);
      StrippedReplyTrimmed(model.value, AnalogyRequest(term, text), generate);
      StrippedReplyTrimmed(model.value, MindMapRequest(term, text), generate);
    }

    /** In fallback mode, the term "cat" with the text "a small domesticated
        animal" gets the three templates. */
    lemma CatFallback(generate: Generator)
      requires model.None?
      ensures ProcessText("cat", "a small domesticated animal", generate) ==
        EnrichmentRecord("cat", "a small domesticated animal",
          Some("Simplified: a small domesticated animal"),
          Some("Analogy for cat: Like a familiar example"),
          Some("Mind map for cat: Central concept - cat"))
    {
      CatSimplified();
      CatAnalogy();
      CatMindMap();
    }
  }
}
