/** Term/definition extraction (src/processors/nlp_processor.py).

    The dependency parser is not modelled: it is an `Analyser`, a function
    from a chunk of text to the sentences it finds there (or `None` when the
    parser raises). Everything the extractor itself decides -- the chunking,
    the capped sentence loop, the final slice and the subject/defining-verb/
    attribute pattern -- is modelled and proved here. */
module NlpProcessor {
  import opened Wrappers

  /** A token as the dependency parser reports it. `head` and `children` are
      positions in the same sentence (a root token is its own head);
      `children` keeps the parser's order. */
  datatype Token = Token(text: string, lemma_: string, dep: string, head: nat, children: seq<nat>)

  /** Every position in `cs` is below `n`. */
  predicate InRange(cs: seq<nat>, n: nat)
  {
    forall k | 0 <= k < |cs| :: cs[k] < n
  }

  /** Every head and child position names a token of the sentence. */
  predicate WellFormed(tokens: seq<Token>)
  {
    forall i | 0 <= i < |tokens| ::
      tokens[i].head < |tokens| && InRange(tokens[i].children, |tokens|)
  }

  /** A parsed sentence: the parser never points outside the sentence. */
  type Sentence = s: seq<Token> | WellFormed(s) witness []

  /** The parser applied to one chunk: its sentences in order, or None when it raises. */
  type Analyser = string -> Option<seq<Sentence>>

  datatype Pair = Pair(term: string, definition: string)

  const ChunkSize: nat := 100000

  /** The cap `process_text` applies when its caller gives none. */
  const DefaultMaxDefinitions: int := 100

  const DefiningVerbs: seq<string> := ["be", "mean", "refer"]

  // ---------------------------------------------------------------------------
  // Joining and splitting words

  /** `" ".join(words)` */
  function JoinWords(words: seq<string>): string
    decreases |words|
  {
    if words == [] then ""
    else if |words| == 1 then words[0]
    else words[0] + " " + JoinWords(words[1..])
  }

  /** `s.split(" ")`: the pieces between single spaces, empty pieces included. */
  function SplitOnSpace(s: string): (r: seq<string>)
    ensures |r| > 0
    decreases |s|
  {
    if s == [] then [""]
    else
      var rest := SplitOnSpace(s[1..]);
      if s[0] == ' ' then [""] + rest else [[s[0]] + rest[0]] + rest[1..]
  }

  lemma {:induction false} SplitSpaceFree(w: string, tail: string)
    requires ' ' !in w
    ensures SplitOnSpace(w) == [w]
    ensures SplitOnSpace(w + " " + tail) == [w] + SplitOnSpace(tail)
    decreases |w|
  {
    if w == [] {
      assert (w + " " + tail)[1..] == tail;
    } else {
      SplitSpaceFree(w[1..], tail);
      assert (w + " " + tail)[1..] == w[1..] + " " + tail;
      assert [w[0]] + w[1..] == w;
    }
  }

  /** The definition text gives back the attribute words it was joined from,
      as long as no word holds a space. */
  lemma {:induction false} SplitJoinWords(words: seq<string>)
    requires |words| > 0
    requires forall k | 0 <= k < |words| :: ' ' !in words[k]
    ensures SplitOnSpace(JoinWords(words)) == words
    decreases |words|
  {
    if |words| == 1 {
      SplitSpaceFree(words[0], "");
    } else {
      SplitJoinWords(words[1..]);
      SplitSpaceFree(words[0], JoinWords(words[1..]));
    }
  }

  // ---------------------------------------------------------------------------
  // The pattern recognised in one sentence (_extract_terms)

  /** `[t for t in cs if t.dep_ == "attr"]`, as positions. */
  function AttrFilter(s: Sentence, cs: seq<nat>): (r: seq<nat>)
    requires InRange(cs, |s|)
    ensures |r| <= |cs| && InRange(r, |s|)
    decreases |cs|
  {
    if cs == [] then []
    else (if s[cs[0]].dep == "attr" then [cs[0]] else []) + AttrFilter(s, cs[1..])
  }

  /** The filter keeps exactly the listed positions whose token is an attribute. */
  lemma {:induction false} AttrFilterMembers(s: Sentence, cs: seq<nat>, c: nat)
    requires InRange(cs, |s|)
    ensures c in AttrFilter(s, cs) <==> c in cs && c < |s| && s[c].dep == "attr"
    decreases |cs|
  {
    if cs != [] {
      AttrFilterMembers(s, cs[1..], c);
      assert cs == [cs[0]] + cs[1..];
    }
  }

  /** The attribute children of the token at `h`, in children order. */
  function AttrChildren(s: Sentence, h: nat): (r: seq<nat>)
    requires h < |s|
    ensures InRange(r, |s|)
  {
    AttrFilter(s, s[h].children)
  }

  /** The texts of the tokens at the positions `cs`, in that order. */
  function Texts(s: Sentence, cs: seq<nat>): seq<string>
    requires InRange(cs, |s|)
    decreases |cs|
  {
    if cs == [] then [] else [s[cs[0]].text] + Texts(s, cs[1..])
  }

  /** The token at `i` is a subject whose head is a defining verb. */
  predicate SubjectOfDefiningVerb(s: Sentence, i: nat)
    requires i < |s|
  {
    s[i].dep == "nsubj" && s[s[i].head].lemma_ in DefiningVerbs
  }

  /** The token at `i` yields a pair: it is a subject of a defining verb
      and that verb has at least one attribute child. */
  predicate Qualifies(s: Sentence, i: nat)
    requires i < |s|
  {
    SubjectOfDefiningVerb(s, i) && |AttrChildren(s, s[i].head)| > 0
  }

  /** The pair the token at `i` yields: its text, and the texts of its
      head's attribute children joined by single spaces. */
  function PairAt(s: Sentence, i: nat): Pair
    requires i < |s|
  {
    Pair(s[i].text, JoinWords(Texts(s, AttrChildren(s, s[i].head))))
  }

  /** The positions below `k` whose token qualifies, in increasing order. */
  function QualifyingIndices(s: Sentence, k: nat): (r: seq<nat>)
    requires k <= |s|
    ensures |r| <= k && InRange(r, k)
    decreases k
  {
    if k == 0 then []
    else QualifyingIndices(s, k - 1) + (if Qualifies(s, k - 1) then [k - 1] else [])
  }

  /** The positions below `k` listed are exactly the qualifying ones. */
  lemma {:induction false} QualifyingIndicesMembers(s: Sentence, k: nat, i: nat)
    requires k <= |s|
    ensures i in QualifyingIndices(s, k) <==> i < k && Qualifies(s, i)
    decreases k
  {
    if k > 0 {
      QualifyingIndicesMembers(s, k - 1, i);
    }
  }

  predicate StrictlyIncreasing(r: seq<nat>)
  {
    forall a, b | 0 <= a < b < |r| :: r[a] < r[b]
  }

  /** They are listed in strictly increasing order, so each token yields at most one pair. */
  lemma {:induction false} QualifyingIndicesIncreasing(s: Sentence, k: nat)
    requires k <= |s|
    ensures StrictlyIncreasing(QualifyingIndices(s, k))
    decreases k
  {
    if k > 0 {
      QualifyingIndicesIncreasing(s, k - 1);
      var prev := QualifyingIndices(s, k - 1);
      if Qualifies(s, k - 1) {
        var r := prev + [k - 1];
        assert QualifyingIndices(s, k) == r;
        forall a, b | 0 <= a < b < |r| ensures r[a] < r[b] {
          assert r[a] == prev[a] && prev[a] < k - 1;
          if b < |prev| {
            assert r[b] == prev[b];
          }
        }
      } else {
        assert QualifyingIndices(s, k) == prev;
      }
    }
  }

  /** The pairs yielded by the tokens at the positions `idx`, in that order. */
  function PairsAt(s: Sentence, idx: seq<nat>): (r: seq<Pair>)
    requires InRange(idx, |s|)
    ensures |r| == |idx|
    decreases |idx|
  {
    if idx == [] then []
    else PairsAt(s, idx[..|idx| - 1]) + [PairAt(s, idx[|idx| - 1])]
  }

  /** What `_extract_terms` returns for one sentence: one pair per
      qualifying token, in token order. */
  function SentencePairs(s: Sentence): (r: seq<Pair>)
    ensures |r| <= |s|
  {
    PairsAt(s, QualifyingIndices(s, |s|))
  }

  /** The `j`-th pair is the one yielded by the `j`-th position. */
  lemma {:induction false} PairsAtIndex(s: Sentence, idx: seq<nat>, j: nat)
    requires InRange(idx, |s|) && j < |idx|
    ensures PairsAt(s, idx)[j] == PairAt(s, idx[j])
    decreases |idx|
  {
    if j < |idx| - 1 {
      var init := idx[..|idx| - 1];
      assert init[j] == idx[j];
      PairsAtIndex(s, init, j);
    }
  }

  /** A pair is extracted from a sentence iff some qualifying token yields it. */
  lemma SentencePairsMembers(s: Sentence, p: Pair)
    ensures p in SentencePairs(s) <==> exists i | 0 <= i < |s| :: Qualifies(s, i) && p == PairAt(s, i)
  {
    var idx := QualifyingIndices(s, |s|);
    var r := SentencePairs(s);
    if p in r {
      var j :| 0 <= j < |r| && r[j] == p;
      PairsAtIndex(s, idx, j);
      assert idx[j] in idx;
      QualifyingIndicesMembers(s, |s|, idx[j]);
      assert idx[j] < |s| && Qualifies(s, idx[j]) && p == PairAt(s, idx[j]);
    }
    if exists i | 0 <= i < |s| :: Qualifies(s, i) && p == PairAt(s, i) {
      var i :| 0 <= i < |s| && Qualifies(s, i) && p == PairAt(s, i);
      QualifyingIndicesMembers(s, |s|, i);
      assert i in idx;
      var j :| 0 <= j < |idx| && idx[j] == i;
      PairsAtIndex(s, idx, j);
      assert r[j] == p;
    }
  }

  /** The sentence "X is Y" parsed with X as subject and Y as attribute of "is". */
  const XIsYSentence: Sentence := [Token("X", "X", "nsubj", 1, []),
                                    Token("is", "be", "ROOT", 1, [0, 2]),
                                    Token("Y", "Y", "attr", 1, [])]

  /** Only its subject qualifies. */
  lemma XIsYQualifying()
    ensures QualifyingIndices(XIsYSentence, 3) == [0]
  {
    var s := XIsYSentence;
    assert AttrChildren(s, 1) == [2] by {
      assert [0, 2][1..] == [2];
      assert AttrFilter(s, [2]) == [2];
    }
    assert Qualifies(s, 0);
    assert !Qualifies(s, 1) && !Qualifies(s, 2) by {
      assert s[1].dep != "nsubj" && s[2].dep != "nsubj";
    }
    assert QualifyingIndices(s, 1) == [0];
    assert QualifyingIndices(s, 2) == [0];
  }

  /** It yields the one pair ("X", "Y"). */
  lemma XIsY()
    ensures SentencePairs(XIsYSentence) == [Pair("X", "Y")]
  {
    var s := XIsYSentence;
    XIsYQualifying();
    assert AttrChildren(s, 1) == [2] by {
      assert AttrFilter(s, [2]) == [2];
    }
    assert Texts(s, [2]) == ["Y"];
    assert PairsAt(s, [0]) == [Pair("X", "Y")];
  }

  /** `_extract_terms`: scan the tokens in order, appending a pair for each
      qualifying one. */
  method ExtractTerms(s: Sentence) returns (terms: seq<Pair>)
    ensures terms == SentencePairs(s)
  {
    terms := [];
    for i := 0 to |s|
      invariant terms == PairsAt(s, QualifyingIndices(s, i))
    {
      TokenStep(s, i);
      var token := s[i];
      if token.dep == "nsubj" && s[token.head].lemma_ in DefiningVerbs {
        var definitionTokens := AttrChildren(s, token.head);
        if |definitionTokens| > 0 {
          terms := terms + [Pair(token.text, JoinWords(Texts(s, definitionTokens)))];
        }
      }
    }
  }

  /** One token of the scan: it adds its pair exactly when it qualifies. */
  lemma TokenStep(s: Sentence, i: nat)
    requires i < |s|
    ensures PairsAt(s, QualifyingIndices(s, i + 1))
         == PairsAt(s, QualifyingIndices(s, i)) + (if Qualifies(s, i) then [PairAt(s, i)] else [])
  {
    var idx := QualifyingIndices(s, i);
    if Qualifies(s, i) {
      var idx' := idx + [i];
      assert QualifyingIndices(s, i + 1) == idx';
      assert idx'[..|idx|] == idx && idx'[|idx|] == i;
    } else {
      assert QualifyingIndices(s, i + 1) == idx;
    }
  }

  // ---------------------------------------------------------------------------
  // Chunking

  function Concat(parts: seq<string>): string
    decreases |parts|
  {
    if parts == [] then "" else parts[0] + Concat(parts[1..])
  }

  /** `text[i:i+100000]` for `i` in `range(0, len(text), 100000)`. */
  function Chunks(text: string): (r: seq<string>)
    ensures forall k | 0 <= k < |r| :: 0 < |r[k]| <= ChunkSize
    decreases |text|
  {
    if text == [] then []
    else if |text| <= ChunkSize then [text]
    else [text[..ChunkSize]] + Chunks(text[ChunkSize..])
  }

  /** The chunks put back together are the text. */
  lemma {:induction false} ChunksConcat(text: string)
    ensures Concat(Chunks(text)) == text
    decreases |text|
  {
    if |text| > ChunkSize {
      ChunksConcat(text[ChunkSize..]);
      assert text == text[..ChunkSize] + text[ChunkSize..];
    }
  }

  /** The chunks from offset `i` on: the slice at `i`, then the chunks from `i + 100000`. */
  lemma ChunksFrom(text: string, i: nat)
    requires i < |text|
    ensures Chunks(text[i..]) == [text[i..Min(i + ChunkSize, |text|)]] + Chunks(text[Min(i + ChunkSize, |text|)..])
  {
    var t := text[i..];
    if |t| > ChunkSize {
      assert t[..ChunkSize] == text[i..i + ChunkSize];
      assert t[ChunkSize..] == text[i + ChunkSize..];
    } else {
      assert Min(i + ChunkSize, |text|) == |text|;
      assert text[i..|text|] == t;
      assert text[|text|..] == [];
    }
  }

  // ---------------------------------------------------------------------------
  // The whole text (process_text)

  /** The pairs of each sentence, one list per sentence, in order. */
  function PairLists(sentences: seq<Sentence>): (r: seq<seq<Pair>>)
    ensures |r| == |sentences|
    decreases |sentences|
  {
    if sentences == [] then [] else [SentencePairs(sentences[0])] + PairLists(sentences[1..])
  }

  /** The pair lists of the sentences of the chunks in order, up to the
      first chunk the parser fails on. */
  function ChunkPairLists(chunks: seq<string>, analyse: Analyser): seq<seq<Pair>>
    decreases |chunks|
  {
    if chunks == [] then []
    else match analyse(chunks[0])
      case None => []
      case Some(sentences) => PairLists(sentences) + ChunkPairLists(chunks[1..], analyse)
  }

  predicate AllAnalysed(chunks: seq<string>, analyse: Analyser)
  {
    forall k | 0 <= k < |chunks| :: analyse(chunks[k]).Some?
  }

  /** Python's `xs[:n]`, negative `n` counting from the end. */
  function PrefixSlice<T>(xs: seq<T>, n: int): (r: seq<T>)
    ensures r <= xs
    ensures n >= 0 ==> |r| == Min(n, |xs|)
    ensures n < 0 ==> |r| == (if |xs| + n < 0 then 0 else |xs| + n)
    ensures n >= |xs| ==> r == xs
    ensures xs == [] ==> r == []
  {
    if n >= 0 then xs[..Min(n, |xs|)] else xs[..if |xs| + n < 0 then 0 else |xs| + n]
  }

  // The scan as the loops run it, one sentence and one chunk at a time.

  /** Where the scan of one chunk's sentences ends: it returned `result`, or
      it ran through them all with the pairs `acc` collected. */
  datatype Scan<T> = Stopped(result: seq<T>) | Running(acc: seq<T>)

  /** The sentence loop over the pair lists of one chunk's sentences,
      starting with the pairs `acc`: before each sentence, return the first
      `cap` pairs once at least `cap` are collected; else append its pairs. */
  function ScanLists<T>(lists: seq<seq<T>>, acc: seq<T>, cap: int): Scan<T>
    decreases |lists|
  {
    if lists == [] then Running(acc)
    else if |acc| >= cap then Stopped(PrefixSlice(acc, cap))
    else ScanLists(lists[1..], acc + lists[0], cap)
  }

  /** The chunk loop from `chunks` on, with the pairs `acc` collected: a
      parser failure returns nothing, running out of chunks returns the
      first `cap` pairs. */
  function ScanChunks(chunks: seq<string>, acc: seq<Pair>, cap: int, analyse: Analyser): seq<Pair>
    decreases |chunks|, 1
  {
    if chunks == [] then PrefixSlice(acc, cap)
    else match analyse(chunks[0])
      case None => []
      case Some(sentences) => Resume(ScanLists(PairLists(sentences), acc, cap), chunks[1..], cap, analyse)
  }

  /** After one chunk's sentences: the value returned, or the scan of the
      remaining chunks. */
  function Resume(scan: Scan<Pair>, chunks: seq<string>, cap: int, analyse: Analyser): seq<Pair>
    decreases |chunks|, 2
  {
    match scan
    case Stopped(r) => r
    case Running(acc) => ScanChunks(chunks, acc, cap, analyse)
  }

  /** What `process_text(text, maxDefinitions)` returns. */
  function Extract(text: string, maxDefinitions: int, analyse: Analyser): (r: seq<Pair>)
    ensures text == [] ==> r == []
  {
    ScanChunks(Chunks(text), [], maxDefinitions, analyse)
  }

  // What the scan returns, stated without the loops.

  /** The lists one after the other. */
  function Flatten<T>(lists: seq<seq<T>>): seq<T>
    decreases |lists|
  {
    if lists == [] then []
    else Flatten(lists[..|lists| - 1]) + lists[|lists| - 1]
  }

  lemma {:induction false} FlattenAppend<T>(a: seq<seq<T>>, b: seq<seq<T>>)
    ensures Flatten(a + b) == Flatten(a) + Flatten(b)
    decreases |b|
  {
    if b != [] {
      var b' := b[..|b| - 1];
      assert (a + b)[..|a + b| - 1] == a + b';
      FlattenAppend(a, b');
    } else {
      assert a + b == a;
    }
  }

  /** The lists of a prefix flatten to a prefix. */
  lemma FlattenPrefix<T>(lists: seq<seq<T>>, m: nat)
    requires m <= |lists|
    ensures Flatten(lists[..m]) <= Flatten(lists)
  {
    assert lists == lists[..m] + lists[m..];
    FlattenAppend(lists[..m], lists[m..]);
  }

  /** The scan was still running when the last of the sentences came up:
      the lists before the last one hold fewer than `cap` pairs. */
  predicate BelowCapBeforeLast<T>(lists: seq<seq<T>>, cap: int)
  {
    lists == [] || |Flatten(lists[..|lists| - 1])| < cap
  }

  /** Counts only grow, so a scan still running at the last sentence was
      running before every one of them. */
  lemma BelowCapBeforeEach<T>(lists: seq<seq<T>>, cap: int)
    requires BelowCapBeforeLast(lists, cap)
    ensures forall m | 0 <= m < |lists| :: |Flatten(lists[..m])| < cap
  {
    if lists != [] {
      var before := lists[..|lists| - 1];
      forall m | 0 <= m < |lists| ensures |Flatten(lists[..m])| < cap {
        FlattenPrefix(before, m);
        assert before[..m] == lists[..m];
      }
    }
  }

  /** The capped scan over the pair lists of all sentences the parser
      delivered; `complete` says whether it parsed every chunk. Nothing for a
      non-positive cap; nothing when parsing stopped early and the scan got
      there (the cap was not yet reached before the last sentence delivered);
      otherwise the first `cap` pairs. */
  function Capped<T>(lists: seq<seq<T>>, complete: bool, cap: int): (r: seq<T>)
    ensures |r| <= if cap < 0 then 0 else cap
    ensures r <= Flatten(lists)
  {
    var found := Flatten(lists);
    if cap <= 0 then []
    else if !complete && BelowCapBeforeLast(lists, cap) then []
    else found[..Min(cap, |found|)]
  }

  /** Collecting one more sentence's pairs while below the cap. */
  lemma CapStep<T>(examined: seq<seq<T>>, terms: seq<T>, cap: int)
    requires |Flatten(examined)| < cap
    ensures BelowCapBeforeLast(examined + [terms], cap)
    ensures Flatten(examined + [terms]) == Flatten(examined) + terms
  {
    assert (examined + [terms])[..|examined|] == examined;
  }

  /** Stopping before a sentence, with at least `cap` pairs collected from
      those before it, returns what `Capped` describes, whatever follows. */
  lemma StopMatchesCapped<T>(examined: seq<seq<T>>, rest: seq<seq<T>>, complete: bool, cap: int)
    requires rest != []
    requires BelowCapBeforeLast(examined, cap)
    requires |Flatten(examined)| >= cap
    ensures PrefixSlice(Flatten(examined), cap) == Capped(examined + rest, complete, cap)
  {
    if cap > 0 {
      CapReachedBeforeRest(examined, rest, cap);
      assert PrefixSlice(Flatten(examined), cap) == Flatten(examined)[..cap];
    } else {
      assert examined == [] || cap == 0;
    }
  }

  /** With the cap reached by `examined`, the scan never gets to the last of
      `examined + rest`, and the pairs collected lead all pairs. */
  lemma CapReachedBeforeRest<T>(examined: seq<seq<T>>, rest: seq<seq<T>>, cap: int)
    requires rest != [] && |Flatten(examined)| >= cap
    ensures Flatten(examined) <= Flatten(examined + rest)
    ensures !BelowCapBeforeLast(examined + rest, cap)
  {
    var all := examined + rest;
    FlattenAppend(examined, rest);
    var before := all[..|all| - 1];
    assert before[..|examined|] == examined;
    FlattenPrefix(before, |examined|);
  }

  lemma Associative<T>(a: seq<T>, b: seq<T>, c: seq<T>)
    ensures a + (b + c) == a + b + c
  {
  }

  /** The sentence loop over `lists`, after the sentences with pair lists
      `examined`: if it returns, it returns what `Capped` says of everything
      delivered, whatever comes later; if it runs through, it has collected
      the pairs of all of them and the cap was not reached before the last. */
  lemma {:induction false} ScanListsMeaning<T>(examined: seq<seq<T>>, lists: seq<seq<T>>, later: seq<seq<T>>, complete: bool, cap: int)
    requires BelowCapBeforeLast(examined, cap)
    ensures var scan := ScanLists(lists, Flatten(examined), cap);
      (scan.Stopped? ==> scan.result == Capped(examined + lists + later, complete, cap)) &&
      (scan.Running? ==> scan.acc == Flatten(examined + lists) && BelowCapBeforeLast(examined + lists, cap))
    decreases |lists|
  {
    if lists == [] {
      assert examined + lists == examined;
    } else if |Flatten(examined)| >= cap {
      Associative(examined, lists, later);
      StopMatchesCapped(examined, lists + later, complete, cap);
    } else {
      CapStep(examined, lists[0], cap);
      ScanListsMeaning(examined + [lists[0]], lists[1..], later, complete, cap);
      assert examined + [lists[0]] + lists[1..] == examined + lists;
    }
  }

  /** The chunk loop from `chunks` on, after the sentences with pair lists
      `examined` (all of whose chunks parsed), returns what `Capped` says of
      all sentences delivered. */
  lemma {:induction false} ScanChunksMeaning(examined: seq<seq<Pair>>, chunks: seq<string>, cap: int, analyse: Analyser)
    requires BelowCapBeforeLast(examined, cap)
    ensures ScanChunks(chunks, Flatten(examined), cap, analyse)
         == Capped(examined + ChunkPairLists(chunks, analyse), AllAnalysed(chunks, analyse), cap)
    decreases |chunks|
  {
    var all := examined + ChunkPairLists(chunks, analyse);
    if chunks == [] {
      assert all == examined;
    } else {
      match analyse(chunks[0])
      case None =>
        assert all == examined;
        assert !AllAnalysed(chunks, analyse);
      case Some(sentences) =>
        var lists := PairLists(sentences);
        var later := ChunkPairLists(chunks[1..], analyse);
        AllAnalysedTail(chunks, analyse);
        ScanListsMeaning(examined, lists, later, AllAnalysed(chunks, analyse), cap);
        Associative(examined, lists, later);
        if ScanLists(lists, Flatten(examined), cap).Running? {
          ScanChunksMeaning(examined + lists, chunks[1..], cap, analyse);
        }
    }
  }

  lemma AllAnalysedTail(chunks: seq<string>, analyse: Analyser)
    requires chunks != [] && analyse(chunks[0]).Some?
    ensures AllAnalysed(chunks, analyse) == AllAnalysed(chunks[1..], analyse)
  {
    if AllAnalysed(chunks[1..], analyse) {
      forall m | 0 <= m < |chunks| ensures analyse(chunks[m]).Some? {
        if m > 0 { assert chunks[m] == chunks[1..][m - 1]; }
      }
    }
  }

  /** `process_text` returns nothing for a non-positive cap; nothing when the
      parser fails on a chunk the scan reaches; otherwise the first
      `maxDefinitions` pairs of all sentences of all chunks. */
  lemma ExtractIsCapped(text: string, maxDefinitions: int, analyse: Analyser)
    ensures Extract(text, maxDefinitions, analyse)
         == Capped(ChunkPairLists(Chunks(text), analyse), AllAnalysed(Chunks(text), analyse), maxDefinitions)
  {
    ScanChunksMeaning([], Chunks(text), maxDefinitions, analyse);
    assert [] + ChunkPairLists(Chunks(text), analyse) == ChunkPairLists(Chunks(text), analyse);
  }

  /** At most `maxDefinitions` pairs, none for a non-positive cap, and always
      a prefix of the pairs of all sentences delivered, in sentence order. */
  lemma ExtractBounds(text: string, maxDefinitions: int, analyse: Analyser)
    ensures var r := Extract(text, maxDefinitions, analyse);
      |r| <= (if maxDefinitions < 0 then 0 else maxDefinitions) &&
      r <= Flatten(ChunkPairLists(Chunks(text), analyse)) &&
      (maxDefinitions <= 0 ==> r == [])
  {
    ExtractIsCapped(text, maxDefinitions, analyse);
  }

  /** No token of any sentence in `sentences` qualifies. */
  predicate NoPattern(sentences: seq<Sentence>)
  {
    forall j, i | 0 <= j < |sentences| && 0 <= i < |sentences[j]| :: !Qualifies(sentences[j], i)
  }

  /** No token of any sentence the parser delivers for `chunks` qualifies. */
  predicate NoPatternInChunks(chunks: seq<string>, analyse: Analyser)
  {
    forall k | 0 <= k < |chunks| && analyse(chunks[k]).Some? :: NoPattern(analyse(chunks[k]).value)
  }

  /** Lists that are all empty flatten to nothing. */
  lemma {:induction false} FlattenEmpties<T>(lists: seq<seq<T>>)
    requires forall k | 0 <= k < |lists| :: lists[k] == []
    ensures Flatten(lists) == []
    decreases |lists|
  {
    if lists != [] {
      FlattenEmpties(lists[..|lists| - 1]);
    }
  }

  /** When no token qualifies, no position below `k` is listed. */
  lemma {:induction false} NoQualifyingIndices(s: Sentence, k: nat)
    requires k <= |s|
    requires forall i | 0 <= i < |s| :: !Qualifies(s, i)
    ensures QualifyingIndices(s, k) == []
    decreases k
  {
    if k > 0 {
      NoQualifyingIndices(s, k - 1);
    }
  }

  /** A sentence in which no token qualifies yields no pair. */
  lemma NoQualifyingNoPairs(s: Sentence)
    requires forall i | 0 <= i < |s| :: !Qualifies(s, i)
    ensures SentencePairs(s) == []
  {
    NoQualifyingIndices(s, |s|);
  }

  lemma {:induction false} NoPatternNoPairs(sentences: seq<Sentence>)
    requires NoPattern(sentences)
    ensures Flatten(PairLists(sentences)) == []
    decreases |sentences|
  {
    if sentences != [] {
      var s := sentences[0];
      assert forall i | 0 <= i < |s| :: !Qualifies(s, i) by {
        forall i | 0 <= i < |s| ensures !Qualifies(s, i) { assert !Qualifies(sentences[0], i); }
      }
      NoQualifyingNoPairs(s);
      assert NoPattern(sentences[1..]) by {
        forall j, i | 0 <= j < |sentences[1..]| && 0 <= i < |sentences[1..][j]|
          ensures !Qualifies(sentences[1..][j], i)
        {
          assert sentences[1..][j] == sentences[j + 1];
        }
      }
      NoPatternNoPairs(sentences[1..]);
      FlattenAppend([SentencePairs(s)], PairLists(sentences[1..]));
      assert Flatten([SentencePairs(s)]) == Flatten([SentencePairs(s)][..0]) + [];
    }
  }

  lemma {:induction false} NoPatternInChunksNoPairs(chunks: seq<string>, analyse: Analyser)
    requires NoPatternInChunks(chunks, analyse)
    ensures Flatten(ChunkPairLists(chunks, analyse)) == []
    decreases |chunks|
  {
    if chunks != [] && analyse(chunks[0]).Some? {
      var sentences := analyse(chunks[0]).value;
      NoPatternNoPairs(sentences);
      assert NoPatternInChunks(chunks[1..], analyse) by {
        forall k | 0 <= k < |chunks[1..]| && analyse(chunks[1..][k]).Some?
          ensures NoPattern(analyse(chunks[1..][k]).value)
        {
          assert chunks[1..][k] == chunks[k + 1];
        }
      }
      NoPatternInChunksNoPairs(chunks[1..], analyse);
      FlattenAppend(PairLists(sentences), ChunkPairLists(chunks[1..], analyse));
    }
  }

  /** When no token of any delivered sentence qualifies, `process_text`
      returns no pairs. */
  lemma ExtractNoPattern(text: string, maxDefinitions: int, analyse: Analyser)
    requires NoPatternInChunks(Chunks(text), analyse)
    ensures Extract(text, maxDefinitions, analyse) == []
  {
    ExtractBounds(text, maxDefinitions, analyse);
    NoPatternInChunksNoPairs(Chunks(text), analyse);
  }

  /** Once the pairs of the sentences examined reach the cap and at least
      one more sentence is delivered, nothing after that sentence (more
      sentences, more chunks, a parser failure) changes the result. */
  lemma LaterSentencesIgnored<T>(examined: seq<seq<T>>, rest1: seq<seq<T>>, complete1: bool,
                                 rest2: seq<seq<T>>, complete2: bool, cap: int)
    requires BelowCapBeforeLast(examined, cap) && |Flatten(examined)| >= cap
    requires rest1 != [] && rest2 != []
    ensures Capped(examined + rest1, complete1, cap) == Capped(examined + rest2, complete2, cap)
  {
    StopMatchesCapped(examined, rest1, complete1, cap);
    StopMatchesCapped(examined, rest2, complete2, cap);
  }

  /** When every chunk parses, the result is exactly the first
      `maxDefinitions` pairs, in sentence order. */
  lemma ExtractWhenAllParse(text: string, maxDefinitions: int, analyse: Analyser)
    requires AllAnalysed(Chunks(text), analyse)
    requires maxDefinitions >= 0
    ensures var found := Flatten(ChunkPairLists(Chunks(text), analyse));
      Extract(text, maxDefinitions, analyse) == found[..Min(maxDefinitions, |found|)]
  {
    ExtractIsCapped(text, maxDefinitions, analyse);
  }

  /** The cap is checked before each sentence, not after each pair: when it is
      reached with the only sentence of the first chunk, the second chunk is
      still parsed, and if that raises, all pairs found so far are dropped. */
  lemma FailureAfterCapDiscards(text: string, maxDefinitions: int, analyse: Analyser, s: Sentence)
    requires |Chunks(text)| >= 2
    requires analyse(Chunks(text)[0]) == Some([s])
    requires analyse(Chunks(text)[1]).None?
    requires 0 < maxDefinitions <= |SentencePairs(s)|
    ensures Extract(text, maxDefinitions, analyse) == []
  {
    var chunks := Chunks(text);
    assert chunks[1..][0] == chunks[1];
    assert ScanChunks(chunks[1..], SentencePairs(s), maxDefinitions, analyse) == [];
    assert PairLists([s]) == [SentencePairs(s)];
    assert [SentencePairs(s)][1..] == [];
    assert ScanLists([SentencePairs(s)], [], maxDefinitions) == Running(SentencePairs(s));
    assert ScanChunks(chunks, [], maxDefinitions, analyse)
        == Resume(Running(SentencePairs(s)), chunks[1..], maxDefinitions, analyse);
  }

  /** `process_text`: parse the text chunk by chunk and collect the pairs of
      each sentence, stopping before a sentence once `maxDefinitions` pairs
      are collected. */
  method ProcessText(text: string, maxDefinitions: int, analyse: Analyser) returns (r: seq<Pair>)
    ensures r == Extract(text, maxDefinitions, analyse)
  {
    var chunkSize := ChunkSize;
    var termsDefinitions: seq<Pair> := [];
    ghost var chunks := Chunks(text);
    ghost var k := 0;
    var i := 0;
    while i < |text|
      invariant 0 <= k <= |chunks|
      invariant Chunks(text[Min(i, |text|)..]) == chunks[k..]
      invariant ScanChunks(chunks[k..], termsDefinitions, maxDefinitions, analyse) == Extract(text, maxDefinitions, analyse)
      decreases |text| - i
    {
      ChunkStep(text, i, chunks, k);
      var chunk := text[i..Min(i + chunkSize, |text|)];
      var doc := analyse(chunk);
      if doc.None? {
        // the exception handler: every pair collected so far is dropped
        r := [];
        return;
      }
      var sentences := doc.value;
      assert sentences[0..] == sentences;
      var j := 0;
      while j < |sentences|
        invariant 0 <= j <= |sentences|
        invariant Resume(ScanLists(PairLists(sentences[j..]), termsDefinitions, maxDefinitions), chunks[k + 1..], maxDefinitions, analyse)
               == Extract(text, maxDefinitions, analyse)
      {
        SentenceStep(sentences, j);
        if |termsDefinitions| >= maxDefinitions {
          r := PrefixSlice(termsDefinitions, maxDefinitions);
          return;
        }
        var terms := ExtractTerms(sentences[j]);
        termsDefinitions := termsDefinitions + terms;
        j := j + 1;
      }
      assert sentences[j..] == [];
      i := i + chunkSize;
      k := k + 1;
    }
    assert chunks[k..] == Chunks([]);
    r := PrefixSlice(termsDefinitions, maxDefinitions);
  }

  /** One step of the chunk loop: the slice at `i` is the next chunk. */
  lemma ChunkStep(text: string, i: nat, chunks: seq<string>, k: nat)
    requires i < |text| && k <= |chunks|
    requires Chunks(text[i..]) == chunks[k..]
    ensures k < |chunks| && chunks[k..][0] == text[i..Min(i + ChunkSize, |text|)]
    ensures Chunks(text[Min(i + ChunkSize, |text|)..]) == chunks[k..][1..] == chunks[k + 1..]
  {
    ChunksFrom(text, i);
    assert chunks[k..][1..] == chunks[k + 1..];
  }

  /** One step of the sentence loop: the pair lists from sentence `j` on. */
  lemma SentenceStep(sentences: seq<Sentence>, j: nat)
    requires j < |sentences|
    ensures var lists := PairLists(sentences[j..]);
      lists != [] && lists[0] == SentencePairs(sentences[j]) && lists[1..] == PairLists(sentences[j + 1..])
  {
    assert sentences[j..][0] == sentences[j];
    assert sentences[j..][1..] == sentences[j + 1..];
  }
}
