# SageAI term pipeline in Dafny

SageAI turns an uploaded document into a study dataset. It validates the
upload, extracts the text, finds term/definition pairs with a dependency
parser, and enriches each pair with a simplified definition, an analogy
and a mind-map prompt from a local language model. When the model is
missing, it uses fixed templates instead. This project models the three
pieces that make decisions, plus the loop that joins the last two:

- `nlp_processor.dfy`, module `NlpProcessor` (`src/processors/nlp_processor.py`):
  - `ExtractTerms` finds the pairs in one parsed sentence. A token qualifies when it is an `nsubj` whose head has lemma `be`, `mean` or `refer` and has at least one `attr` child.
  - `ProcessText` cuts the text into 100000-character chunks and parses them in order. It stops at the first chunk whose parse raises, or earlier when the cap is reached.
  - Its scan is capped and stops early. Before each sentence, it returns the first `max_definitions` pairs once at least that many are collected.
  - A parser failure gives the empty list.
- `simplifier.dfy`, module `Simplification` (`src/ai/simplifier.py`):
  - The class `Simplifier` fixes at construction whether a model is present.
  - It has three generators (simplified definition, analogy, mind-map prompt) and `ProcessText`, which builds the five-field record.
  - Python's `str.strip` is modelled as `Strip`.
- `file_validator.dfy`, module `FileValidator` (`src/utils/file_validator.py`):
  - `ValidateFile` runs its guards in order: existence, then size, then the presence of a dot, then the lower-cased last-dot extension against the allowed set.
- `pipeline.dfy`, module `Pipeline` (`src/main.py`): the upload handler's loop, one `process_text` per pair, in order.
- `wrappers.dfy`, module `Wrappers`: `Option` and `Min`.

External collaborators become parameters:
- The spaCy parser is an `Analyser`, a function from a chunk to its sentences. It returns `None` when parsing raises.
  - A sentence is a sequence of tokens. Each token has its text, lemma, dependency label, head index and ordered child indices.
  - `WellFormed` requires every index to be in range.
- Loading GPT4All is a `Loader`.
- Its `generate` call is a `Generator`, from a model and a request (prompt, token limit) to the reply, or `None` when the call raises.
- The file system enters as whether the path exists and what the size query returned.

Behaviour of the code that the model keeps:
- The cap is checked before each sentence, not after each emission.
  - So one sentence can take the collected count past the cap. The final slice trims the result back.
  - When the cap is reached by the last sentence of a chunk, the next chunk is still parsed. If that parse raises, every pair found so far is lost (`FailureAfterCapDiscards`).
- A negative cap slices from the end of an empty list, so the result is empty (`PrefixSlice`, `ExtractBounds`).
- With a model present, a failing generation call gives `None`. It never falls back to the template.
- The analogy and the mind-map prompt are generated from the original definition, not from the simplified one.

## Model

| member | source | states |
|---|---|---|
| NlpProcessor.SplitJoinWords | src/processors/nlp_processor.py:49 | for at least one word, none of which holds a space, splitting the space-joined definition on spaces gives back those words |
| NlpProcessor.AttrFilterMembers | src/processors/nlp_processor.py:45 | a child index is kept iff it is one of the head's children and its dependency label is `attr` |
| NlpProcessor.QualifyingIndicesMembers | src/processors/nlp_processor.py:43-46 | a token among the first k yields a pair iff it is an `nsubj` whose head's lemma is `be`, `mean` or `refer` and whose head has an `attr` child |
| NlpProcessor.QualifyingIndicesIncreasing | src/processors/nlp_processor.py:43-47 | the tokens that yield pairs are visited in strictly increasing token order, so each token yields at most one pair |
| NlpProcessor.PairsAtIndex | src/processors/nlp_processor.py:47-49 | the j-th pair has the j-th qualifying token's text as its term and the space-join of its head's `attr` children's texts, in children order, as its definition |
| NlpProcessor.SentencePairs | src/processors/nlp_processor.py:41-51 | a sentence yields at most as many pairs as it has tokens |
| NlpProcessor.SentencePairsMembers | src/processors/nlp_processor.py:44-49 | a pair is in a sentence's result iff some qualifying token produces exactly that pair |
| NlpProcessor.XIsY | src/processors/nlp_processor.py:44-49 | the parse of "X is Y" yields exactly the pair (X, Y) |
| NlpProcessor.ExtractTerms | src/processors/nlp_processor.py:41-51 | the token loop returns exactly the sentence's pairs in token order |
| NlpProcessor.Chunks | src/processors/nlp_processor.py:24-25 | every chunk is non-empty and at most 100000 characters long |
| NlpProcessor.ChunksConcat | src/processors/nlp_processor.py:21-25 | the chunks concatenate back to the text |
| NlpProcessor.PrefixSlice | src/processors/nlp_processor.py:35 | Python's `xs[:n]` is a prefix of `xs`: its length is n capped at the length of `xs` for n >= 0, and the length of `xs` less -n (at least 0) for n < 0; it is the whole list once n reaches its length, and nothing for an empty list |
| NlpProcessor.Extract | src/processors/nlp_processor.py:18-39 | the empty text gives no pairs |
| NlpProcessor.Capped | src/processors/nlp_processor.py:29-35 | the declarative result has at most max(0, cap) pairs and is a prefix of all pairs found, in order |
| NlpProcessor.BelowCapBeforeEach | src/processors/nlp_processor.py:28-30 | when the scan passes a sentence, the pairs collected before every earlier sentence were below the cap |
| NlpProcessor.ScanListsMeaning | src/processors/nlp_processor.py:28-33 | the sentence loop either returns the capped prefix of all pairs, whatever follows, or collects every sentence's pairs with the cap unreached before the last one |
| NlpProcessor.ScanChunksMeaning | src/processors/nlp_processor.py:24-39 | the chunk loop from any point returns the capped prefix of the pairs of every sentence the parser delivered, or nothing once it reaches a chunk that fails to parse |
| NlpProcessor.ExtractIsCapped | src/processors/nlp_processor.py:18-39 | `process_text` equals `Capped` over the pair lists of all parsed sentences, with the flag whether every chunk parsed |
| NlpProcessor.ExtractBounds | src/processors/nlp_processor.py:24-35 | never more than `max_definitions` pairs, none for a non-positive cap, and always a prefix of all pairs in sentence order |
| NlpProcessor.ExtractWhenAllParse | src/processors/nlp_processor.py:24-35 | when every chunk parses, the result is exactly the first `max_definitions` pairs |
| NlpProcessor.LaterSentencesIgnored | src/processors/nlp_processor.py:28-30 | once the pairs collected reach the cap and another sentence is delivered, nothing after that sentence (more sentences, more chunks, a parser failure) changes the result |
| NlpProcessor.FailureAfterCapDiscards | src/processors/nlp_processor.py:28-39 | if the cap is reached with the first chunk's only sentence and the second chunk fails to parse, the result is empty |
| NlpProcessor.NoQualifyingNoPairs | src/processors/nlp_processor.py:42-51 | a sentence in which no token qualifies yields no pair |
| NlpProcessor.ExtractNoPattern | src/processors/nlp_processor.py:18-39 | when no token of any sentence the parser delivers qualifies, the result is empty |
| NlpProcessor.ProcessText | src/processors/nlp_processor.py:18-39 | the chunk and sentence loops, with their early returns, compute `Extract` |
| Simplification.Strip | src/ai/simplifier.py:37 | the stripped reply has no whitespace (Python's `isspace`) at either end |
| Simplification.StripCutsWhitespace | src/ai/simplifier.py:37 | the stripped reply is a contiguous piece of the reply with only whitespace on each side |
| Simplification.StripIdempotent | src/ai/simplifier.py:37 | stripping twice is stripping once |
| Simplification.StrippedReply | src/ai/simplifier.py:34-43 | a call that raises gives None; a reply gives Some of the stripped reply |
| Simplification.Simplifier.constructor | src/ai/simplifier.py:16-29 | the model is absent iff loading raised; it is a `const`, so no method changes it later |
| Simplification.Simplifier.SimplifyDefinition | src/ai/simplifier.py:31-43 | without a model, exactly "Simplified: " + text; with one, the stripped reply to the 50-token prompt, or None |
| Simplification.Simplifier.GenerateAnalogy | src/ai/simplifier.py:45-57 | without a model, exactly "Analogy for " + term + ": Like a familiar example"; with one, the stripped reply to the 30-token prompt, or None |
| Simplification.Simplifier.GenerateMindMapPrompt | src/ai/simplifier.py:59-71 | without a model, exactly "Mind map for " + term + ": Central concept - " + term; with one, the stripped reply to the 100-token prompt, or None |
| Simplification.Simplifier.ProcessText | src/ai/simplifier.py:73-81 | term and text are kept unchanged, and the three fields are the three generators' results on the original text |
| Simplification.Simplifier.FallbackNeverMissing | src/ai/simplifier.py:31-71 | without a model, no field is ever None and the record is the three templates |
| Simplification.Simplifier.MissingIffCallFails | src/ai/simplifier.py:31-71 | with a model, a field is None iff its own generation call raised, never the template |
| Simplification.Simplifier.FieldsIndependent | src/ai/simplifier.py:78-80 | each field depends only on its own call: generators that agree on that request give the same field |
| Simplification.Simplifier.RepliesTrimmed | src/ai/simplifier.py:31-71 | every generated field that is present has no whitespace at either end |
| Simplification.Simplifier.CatFallback | src/ai/simplifier.py:73-81 | without a model, ("cat", "a small domesticated animal") gets exactly the three filled-in templates |
| FileValidator.Lower | src/utils/file_validator.py:54 | same length, no upper-case ASCII letter left, and every other character unchanged |
| FileValidator.LowerIdempotent | src/utils/file_validator.py:54 | lowering twice is lowering once |
| FileValidator.Extension | src/utils/file_validator.py:54 | the extension is what follows a dot that ends the rest of the path, and holds no dot itself, so the dot is the last one |
| FileValidator.ExtensionOf | src/utils/file_validator.py:54 | the extension of stem + "." + ext is ext whenever ext holds no dot, whatever the stem holds |
| FileValidator.ValidateFile | src/utils/file_validator.py:20-66 | valid iff the file exists, its size is known and at most 262144000 bytes, and the lowered extension is allowed; valid iff the message is "File validation successful"; the first failing guard, in the order existence, size, dot, extension, decides the message |
| FileValidator.CaseInsensitive | src/utils/file_validator.py:54-58 | the extension's letter case never changes the verdict, nor the message of an existing file |
| FileValidator.MissingReportedFirst | src/utils/file_validator.py:34-37 | a path that does not exist yields (false, "File does not exist: " + path) whatever its size and name |
| FileValidator.SizeBoundary | src/utils/file_validator.py:43-46 | a file of exactly 262144000 bytes passes the size guard; one byte more is rejected with its size |
| FileValidator.UpperCasePdfAccepted | src/utils/file_validator.py:54-61 | "a.PDF" is accepted |
| FileValidator.TxtRejected | src/utils/file_validator.py:54-58 | "a.txt" is rejected as type "txt" |
| FileValidator.DotInDirectory | src/utils/file_validator.py:49-58 | "notes.d/readme" is rejected as type "d/readme": only the last dot counts |
| FileValidator.NoDotNoExtension | src/utils/file_validator.py:49-52 | "README" is rejected with "No file extension found" |
| Pipeline.Enriched | src/main.py:98-101 | one record per pair |
| Pipeline.EnrichedTraceable | src/main.py:98-101 | the record at each position carries the term and the definition of the pair at that position |
| Pipeline.EnrichAll | src/main.py:97-101 | the loop builds the records of all pairs, in order |
| Pipeline.Dataset | src/main.py:92-101 | the handler's dataset has at most 100 records; the function also gives none for an empty text, a case the handler rejects before this point |
| Pipeline.BuildDataset | src/main.py:92-101 | extracting with the default cap and then enriching computes `Dataset` |

## Left out

- Logging throughout: it is handler configuration with no observable logic.
- `NLPProcessor.__init__`: the spaCy model load, the download subprocess fallback and `nlp.max_length` are left out. The parser is a parameter, and no chunk exceeds the length limit.
- spaCy parsing and GPT4All generation: they are parameters (`Analyser`, `Loader`, `Generator`). Their internals are not modelled.
- NlpProcessor.ProcessText: the `try` around the loops is modelled as a parser failure on a chunk. Token access, `_extract_terms` and slicing cannot raise on well-formed sentences.
- Simplification.Simplifier.constructor: the model directory (`os.path.expanduser`, `os.makedirs`) and the download flag are file-system I/O. A loaded model is taken to be truthy in `if self.model`.
- Model replies: a reply is taken to be a string, so `strip` cannot raise.
- Sampled replies: GPT4All samples its output, so two calls with the same prompt can reply differently. The model takes a reply to be a function of the model and the request. No single-record contract depends on this, but `EnrichAll`, `BuildDataset` and their specifications do: two pairs with the same request get the same reply.
- FileValidator.Lower: only ASCII letters are lowered, while Python's `str.lower` also lowers other scripts. Every allowed extension is ASCII. The only non-ASCII character that lowers to an ASCII letter is the Kelvin sign, which lowers to `k`, and no allowed extension contains `k`. So the verdict is the same; only the extension shown in an unsupported-type message can differ.
- FileValidator.ValidateFile: the size message prints megabytes as floating-point numbers, so it is `SizeExceeded(bytes)`. The unsupported-type message lists the allowed set in hash order, so it is `TypeNotSupported(extension)`. An error from the size query is `ValidationError(detail)`.
- `src/extractors/text_extractor.py`: format-specific readers over third-party libraries.
- `src/main.py`: routing, CORS, saving and removing the upload, the empty-text check and the HTTP status codes are request plumbing. Only the enrichment loop is modelled.
- `src/output/data_writer.py` and `output/data_writer.py`: CSV and JSON serialisation.
- Concurrency: the code has none.
