/** The enrichment loop of the upload handler (src/main.py): one
    `process_text` call per extracted pair, in order. */
module Pipeline {
  import opened NlpProcessor
  import opened Simplification

  /** The record of every pair, in the order of the pairs. */
  function Enriched(simplifier: Simplifier, pairs: seq<Pair>, generate: Generator): (r: seq<EnrichmentRecord>)
    ensures |r| == |pairs|
  {
    seq(|pairs|, i requires 0 <= i < |pairs| => simplifier.ProcessText(pairs[i].term, pairs[i].definition, generate))
  }

  /** Every record carries the term and the definition of the pair at the
      same position. */
  lemma EnrichedTraceable(simplifier: Simplifier, pairs: seq<Pair>, generate: Generator, i: nat)
    requires i < |pairs|
    ensures Enriched(simplifier, pairs, generate)[i].term == pairs[i].term
    ensures Enriched(simplifier, pairs, generate)[i].complicatedText == pairs[i].definition
  {
  }

  /** Enriching a list of pairs extended by one pair extends the records by
      that pair's record. */
  lemma EnrichedAppend(simplifier: Simplifier, pairs: seq<Pair>, p: Pair, generate: Generator)
    ensures Enriched(simplifier, pairs + [p], generate) ==
      Enriched(simplifier, pairs, generate) + [simplifier.ProcessText(p.term, p.definition, generate)]
  {
    var e := Enriched(simplifier, pairs + [p], generate);
    assert forall i | 0 <= i < |pairs| :: (pairs + [p])[i] == pairs[i];
    assert e[..|pairs|] == Enriched(simplifier, pairs, generate);
  }

  /** The loop building `dataset`. */
  method EnrichAll(simplifier: Simplifier, pairs: seq<Pair>, generate: Generator) returns (dataset: seq<EnrichmentRecord>)
    ensures dataset == Enriched(simplifier, pairs, generate)
  {
    dataset := [];
    for i := 0 to |pairs|
      invariant dataset == Enriched(simplifier, pairs[..i], generate)
    {
      var item := pairs[i];
      var processed := simplifier.ProcessText(item.term, item.definition, generate);
      EnrichedAppend(simplifier, pairs[..i], item, generate);
      assert pairs[..i + 1] == pairs[..i] + [item];
      dataset := dataset + [processed];
    }
    assert pairs[..|pairs|] == pairs;
  }

  /** What the upload handler builds from the extracted text: the pairs
      found with the default cap, each enriched in turn. */
  function Dataset(text: string, analyse: Analyser, simplifier: Simplifier, generate: Generator): (r: seq<EnrichmentRecord>)
    ensures |r| <= DefaultMaxDefinitions
    ensures text == [] ==> r == []
  {
    ExtractBounds(text, DefaultMaxDefinitions, analyse);
    Enriched(simplifier, Extract(text, DefaultMaxDefinitions, analyse), generate)
  }

  /** The handler's two steps: `process_text` on the text, then the loop. */
  method BuildDataset(text: string, analyse: Analyser, simplifier: Simplifier, generate: Generator) returns (dataset: seq<EnrichmentRecord>)
    ensures dataset == Dataset(text, analyse, simplifier, generate)
  {
    var termsDefs := ProcessText(text, DefaultMaxDefinitions, analyse);
    dataset := EnrichAll(simplifier, termsDefs, generate);
  }
}
