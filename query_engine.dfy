/** The query-answering pipeline: query enhancement, context truncation, the
    two retrieval modes (nearest-neighbour hits with deduplication, and the
    full scan) and the answer decision tree with its fallbacks. The sentence
    encoder, the FAISS search, the Groq chain and the Hugging Face QA model
    are parameters. */
module QueryEngine {
  import opened Wrappers
  import opened Text
  import ChunkText

  // ---------------------------------------------------------------------
  // Configuration and chunk store

  /** The fields of a mapping object; a field missing from the JSON object
      reads as "", which is what `value.get(name, "")` returns. */
  datatype MappingEntry = MappingEntry(sections: string, keywords: string, fallback: string)

  /** `value` in `compliance_mapping.items()`: an object, or any other JSON
      value (such as the list the file keeps under "mappings"), which has no
      `get`, so reading a field of it raises AttributeError. */
  datatype MappingValue = Object(entry: MappingEntry) | NotAnObject

  /** `compliance_mapping` in its iteration order (the order of the file). */
  type EnhancementTable = seq<(string, MappingValue)>

  /** One chunk object as `json.load` gives it back. */
  type ChunkRecord = map<string, string>

  /** `d.get(key, "")` */
  function Get(d: ChunkRecord, key: string): string {
    if key in d then d[key] else ""
  }

  /** `extract_section`: `chunk.get("section", "Unknown")`. */
  function ExtractSection(chunk: ChunkRecord): (s: string)
    ensures "section" !in chunk ==> s == "Unknown"
    ensures forall c: ChunkText.Chunk :: chunk == ChunkText.ToRecord(c) ==> s == c.section
  {
    if "section" in chunk then chunk["section"] else "Unknown"
  }

  // ---------------------------------------------------------------------
  // truncate_context

  /** How many words `truncate_context` keeps out of `n` for a budget of
      `maxTokens`: word k (counting from 1) brings the running total to 1.5k,
      and the loop stops at the first word with 1.5k > maxTokens. */
  function KeptWordCount(n: nat, maxTokens: int): (k: nat)
    ensures k <= n
    ensures k == 0 || 3 * k <= 2 * maxTokens
    ensures k == n || 3 * (k + 1) > 2 * maxTokens
  {
    if maxTokens <= 0 then 0
    else if 2 * maxTokens / 3 <= n then 2 * maxTokens / 3
    else n
  }

  /** What `truncate_context(context, max_tokens)` returns. */
  function TruncatedContext(context: string, maxTokens: int): string {
    var ws := Words(context);
    Join(ws[..KeptWordCount(|ws|, maxTokens)], " ")
  }

  /** `truncate_context`. The running count `current_tokens` grows by 1.5 per
      word; the loop keeps it doubled, so that it stays an integer and the test
      `current_tokens > max_tokens` becomes `doubled > 2 * max_tokens`. */
  method TruncateContext(context: string, maxTokens: int) returns (r: string)
    ensures r == TruncatedContext(context, maxTokens)
  {
    var words := Words(context);
    var doubledTokens := 0;
    var truncated: seq<string> := [];
    var i := 0;
    while i < |words|
      invariant 0 <= i <= |words|
      invariant doubledTokens == 3 * i
      invariant i <= KeptWordCount(|words|, maxTokens)
      invariant truncated == words[..i]
    {
      doubledTokens := doubledTokens + 3;
      if doubledTokens > 2 * maxTokens {
        break;
      }
      truncated := truncated + [words[i]];
      i := i + 1;
    }
    r := Join(truncated, " ");
  }

  /** The truncated context is the first words of the context joined by single
      spaces: exactly min(#words, floor(2 * maxTokens / 3)) of them, so their
      1.5-token cost never exceeds the budget. */
  lemma TruncationKeepsLeadingWords(context: string, maxTokens: int)
    ensures var ws := Words(context);
      var kept := Words(TruncatedContext(context, maxTokens));
      && |kept| == (if maxTokens <= 0 then 0 else if 2 * maxTokens / 3 <= |ws| then 2 * maxTokens / 3 else |ws|)
      && kept == ws[..|kept|]
      && (|kept| == 0 || 3 * |kept| <= 2 * maxTokens)
  {
    var ws := Words(context);
    var k := KeptWordCount(|ws|, maxTokens);
    WordsAreWords(context);
    assert forall w :: w in ws[..k] ==> w in ws;
    WordsOfJoin(ws[..k]);
  }

  /** Truncating twice with the same budget is truncating once. */
  lemma TruncationIdempotent(context: string, maxTokens: int)
    ensures TruncatedContext(TruncatedContext(context, maxTokens), maxTokens) == TruncatedContext(context, maxTokens)
  {
    var ws := Words(context);
    var k := KeptWordCount(|ws|, maxTokens);
    WordsAreWords(context);
    assert forall w :: w in ws[..k] ==> w in ws;
    WordsOfJoin(ws[..k]);
    assert ws[..k][..k] == ws[..k];
  }

  // ---------------------------------------------------------------------
  // enhance_query

  /** `key.lower() in query.lower()` */
  predicate KeyOccurs(query: string, key: string) {
    ContainsIgnoringCase(query, key)
  }

  /** `" ".join(sections + " " + keywords)`: the join runs over the characters
      of the concatenated string, so every character ends up separated by a space. */
  function Additions(e: MappingEntry): string {
    SpreadChars(e.sections + " " + e.keywords)
  }

  /** `enhance_query`: the query followed by the additions of the first entry
      whose key occurs in it, or the query unchanged when none does; None
      (the AttributeError) when that first entry's value is not an object. */
  function EnhanceQuery(query: string, table: EnhancementTable): (r: Option<string>)
    ensures r == Some(query) <==> forall i :: 0 <= i < |table| ==> !KeyOccurs(query, table[i].0)
    ensures forall i :: (0 <= i < |table| && KeyOccurs(query, table[i].0)
      && (forall j :: 0 <= j < i ==> !KeyOccurs(query, table[j].0))
      ==> r == EnhancedBy(query, table[i].1))
  {
    match FirstWhere(table, (e: (string, MappingValue)) => KeyOccurs(query, e.0))
    case None => Some(query)
    case Some(i) => EnhancedBy(query, table[i].1)
  }

  /** The query with the additions of a matching value: None (the
      AttributeError of `value.get`) when the value is not an object. A
      matching entry always changes the query. */
  function EnhancedBy(query: string, v: MappingValue): (r: Option<string>)
    ensures r.Some? <==> v.Object?
    ensures r != Some(query)
  {
    if v.NotAnObject? then None else Some(query + " " + Additions(v.entry))
  }

  /** The additions put a space between every two characters of the entry's
      sections and keywords, so they are never the two fields joined by one
      space ("4.5" and "mfa" give "4 . 5   m f a", not "4.5 mfa"). */
  lemma AdditionsSpreadCharacters(e: MappingEntry)
    ensures var joined := e.sections + " " + e.keywords;
      var a := Additions(e);
      && |a| == 2 * |joined| - 1
      && (forall i :: 0 <= i < |joined| ==> a[2 * i] == joined[i])
      && (forall i :: 0 <= i < |joined| - 1 ==> a[2 * i + 1] == ' ')
      && (e.sections != [] || e.keywords != [] ==> a != joined)
  {
    var joined := e.sections + " " + e.keywords;
    var a := Additions(e);
    forall i | 0 <= i < |joined| ensures a[2 * i] == joined[i] {
      assert (2 * i) % 2 == 0 && (2 * i) / 2 == i;
    }
    forall i | 0 <= i < |joined| - 1 ensures a[2 * i + 1] == ' ' {
      assert (2 * i + 1) % 2 == 1;
    }
  }

  // ---------------------------------------------------------------------
  // retrieve_chunks: deduplication of the nearest-neighbour indices

  /** `chunks[idx]` for an index the loop did not skip (`idx < n`): a negative
      index counts from the end, and one below `-n` raises IndexError (None). */
  function PythonIndex(idx: int, n: nat): (r: Option<nat>)
    requires idx < n
    ensures r.Some? <==> -(n as int) <= idx
    ensures r.Some? ==> r.value < n && r.value == (if idx >= 0 then idx else n + idx)
  {
    if idx >= 0 then Some(idx) else if idx >= -(n as int) then Some(n + idx) else None
  }

  /** The texts the dedup loop reads, in rank order, skipping indices at or
      beyond the corpus size; None when an index below `-n` or a chunk without
      a "text" key raises. */
  function RankedTexts(indices: seq<int>, records: seq<ChunkRecord>): Option<seq<string>>
    decreases |indices|
  {
    if |indices| == 0 then Some([])
    else
      match RankedTexts(indices[..|indices| - 1], records)
      case None => None
      case Some(texts) =>
        var idx := indices[|indices| - 1];
        if idx >= |records| then Some(texts)
        else
          match PythonIndex(idx, |records|)
          case None => None
          case Some(p) => if "text" in records[p] then Some(texts + [records[p]["text"]]) else None
  }

  /** Each distinct element of `s` once, at the position of its first occurrence. */
  function FirstOccurrences(s: seq<string>): seq<string>
    decreases |s|
  {
    if |s| == 0 then []
    else
      var r := FirstOccurrences(s[..|s| - 1]);
      if s[|s| - 1] in r then r else r + [s[|s| - 1]]
  }

  /** The texts `retrieve_chunks` returns for the search hits `indices`: the
      exception handler turns every failure into the empty list. */
  function DedupResult(indices: seq<int>, records: seq<ChunkRecord>): seq<string> {
    match RankedTexts(indices, records)
    case None => []
    case Some(texts) => FirstOccurrences(texts)
  }

  /** The loop over `indices[0]` with the `seen_texts` set. */
  method DeduplicateHits(indices: seq<int>, records: seq<ChunkRecord>) returns (texts: seq<string>)
    ensures texts == DedupResult(indices, records)
  {
    var seenTexts: set<string> := {};
    var relevant: seq<string> := [];
    ghost var ranked: seq<string> := [];
    for k := 0 to |indices|
      invariant RankedTexts(indices[..k], records) == Some(ranked)
      invariant relevant == FirstOccurrences(ranked)
      invariant seenTexts == set t | t in relevant
    {
      assert indices[..k + 1][..k] == indices[..k];
      var idx := indices[k];
      if idx >= |records| {
        continue;
      }
      if idx < -|records| {
        RankedTextsFailureSticks(indices, records, k + 1);
        return [];
      }
      var chunk := records[if idx >= 0 then idx else |records| + idx];
      if "text" !in chunk {
        RankedTextsFailureSticks(indices, records, k + 1);
        return [];
      }
      var text := chunk["text"];
      ranked := ranked + [text];
      if text !in seenTexts {
        seenTexts := seenTexts + {text};
        relevant := relevant + [text];
      }
    }
    assert indices[..|indices|] == indices;
    texts := relevant;
  }

  lemma {:induction false} RankedTextsFailureSticks(indices: seq<int>, records: seq<ChunkRecord>, k: nat)
    requires k <= |indices| && RankedTexts(indices[..k], records).None?
    ensures RankedTexts(indices, records).None?
    decreases |indices| - k
  {
    if k < |indices| {
      assert indices[..k + 1][..k] == indices[..k];
      RankedTextsFailureSticks(indices, records, k + 1);
    } else {
      assert indices[..k] == indices;
    }
  }

  /** `retrieve_chunks(query, ...)`. `search` stands for reading the index,
      encoding the enhanced query and `index.search(q_embed, top_k)`: it
      returns the ranked indices, or None when any of these raises. A chunk
      file that cannot be loaded is `corpus == None`. */
  method RetrieveChunks(query: string, table: EnhancementTable, corpus: Option<seq<ChunkRecord>>,
                        search: string -> Option<seq<int>>) returns (texts: seq<string>)
    ensures texts == IndexedRetrieval(query, table, corpus, search)
  {
    if corpus.None? {
      return [];
    }
    var enhanced := EnhanceQuery(query, table);
    if enhanced.None? {
      return [];
    }
    var hits := search(enhanced.value);
    if hits.None? {
      return [];
    }
    texts := DeduplicateHits(hits.value, corpus.value);
  }

  function IndexedRetrieval(query: string, table: EnhancementTable, corpus: Option<seq<ChunkRecord>>,
                            search: string -> Option<seq<int>>): seq<string> {
    if corpus.None? then []
    else
      match EnhanceQuery(query, table)
      case None => []
      case Some(enhanced) =>
        match search(enhanced)
        case None => []
        case Some(hits) => DedupResult(hits, corpus.value)
  }

  // Properties of the deduplication

  predicate Distinct(s: seq<string>) {
    forall i, j :: 0 <= i < j < |s| ==> s[i] != s[j]
  }

  /** Position of the first occurrence of `x` in `s`. */
  function FirstIndex(s: seq<string>, x: string): (i: nat)
    requires x in s
    ensures i < |s| && s[i] == x
    ensures forall j :: 0 <= j < i ==> s[j] != x
  {
    if s[0] == x then 0 else 1 + FirstIndex(s[1..], x)
  }

  lemma FirstIndexExtend(s: seq<string>, x: string, y: string)
    requires y in s
    ensures FirstIndex(s + [x], y) == FirstIndex(s, y)
  {
    var k := FirstIndex(s, y);
    assert (s + [x])[k] == y;
    assert forall j :: 0 <= j < k ==> (s + [x])[j] == s[j];
  }

  /** The deduplicated list holds every text once, exactly the texts of the
      ranked list, ordered by where each first occurs there, and is no longer. */
  lemma {:induction false} FirstOccurrencesSpec(s: seq<string>)
    ensures var r := FirstOccurrences(s);
      && Distinct(r)
      && (forall x :: x in r <==> x in s)
      && (forall i, j :: 0 <= i < j < |r| ==> FirstIndex(s, r[i]) < FirstIndex(s, r[j]))
      && |r| <= |s|
    decreases |s|
  {
    if |s| > 0 {
      var init := s[..|s| - 1];
      var x := s[|s| - 1];
      assert s == init + [x];
      FirstOccurrencesSpec(init);
      var p := FirstOccurrences(init);
      forall y | y in init ensures FirstIndex(s, y) == FirstIndex(init, y) {
        FirstIndexExtend(init, x, y);
      }
      if x !in p {
        assert FirstOccurrences(s) == p + [x];
        AppendedDistinct(p, init, x);
        AppendedOrder(s, init, p, x);
      } else {
        assert FirstOccurrences(s) == p;
        assert forall y :: y in s <==> y in init;
        KeptOrder(s, init, p);
      }
    }
  }

  lemma FirstIndexOfNew(s: seq<string>, x: string)
    requires x !in s
    ensures FirstIndex(s + [x], x) == |s|
  {
    assert forall j :: 0 <= j < |s| ==> (s + [x])[j] == s[j];
  }

  /** A list ordered by first occurrence in `init` stays so ordered in any
      extension of `init` that moves no first occurrence. */
  lemma KeptOrder(s: seq<string>, init: seq<string>, p: seq<string>)
    requires forall y :: y in p ==> y in init && y in s
    requires forall i, j :: 0 <= i < j < |p| ==> FirstIndex(init, p[i]) < FirstIndex(init, p[j])
    requires forall y :: y in init && y in s ==> FirstIndex(s, y) == FirstIndex(init, y)
    ensures forall i, j :: 0 <= i < j < |p| ==> FirstIndex(s, p[i]) < FirstIndex(s, p[j])
  {
    forall i, j | 0 <= i < j < |p| ensures FirstIndex(s, p[i]) < FirstIndex(s, p[j]) {
      assert p[i] in init && p[j] in init;
    }
  }

  /** Appending a text that is new keeps a list free of repeats. */
  lemma AppendedDistinct(p: seq<string>, init: seq<string>, x: string)
    requires Distinct(p) && x !in init
    requires forall y :: y in p ==> y in init
    ensures Distinct(p + [x])
  {
    var r := p + [x];
    forall i, j | 0 <= i < j < |r| ensures r[i] != r[j] {
      assert r[i] == p[i] && p[i] in init;
      if j == |p| {
        assert r[j] == x;
      }
    }
  }

  /** Appending the text that first occurs last keeps the first-occurrence order. */
  lemma AppendedOrder(s: seq<string>, init: seq<string>, p: seq<string>, x: string)
    requires s == init + [x] && x !in init
    requires forall y :: y in p ==> y in init
    requires forall i, j :: 0 <= i < j < |p| ==> FirstIndex(init, p[i]) < FirstIndex(init, p[j])
    requires forall y :: y in init ==> FirstIndex(s, y) == FirstIndex(init, y)
    ensures forall i, j :: 0 <= i < j < |p| + 1 ==> FirstIndex(s, (p + [x])[i]) < FirstIndex(s, (p + [x])[j])
  {
    FirstIndexOfNew(init, x);
    var r := p + [x];
    forall i, j | 0 <= i < j < |r| ensures FirstIndex(s, r[i]) < FirstIndex(s, r[j]) {
      assert r[i] == p[i] && p[i] in init;
      if j < |p| {
        assert r[j] == p[j] && p[j] in init;
      } else {
        assert r[j] == x;
      }
    }
  }

  /** The indices smaller than `n`, in order. */
  function InRange(indices: seq<int>, n: nat): (r: seq<int>)
    ensures forall i :: 0 <= i < |r| ==> r[i] < n
    decreases |indices|
  {
    if |indices| == 0 then []
    else
      var idx := indices[|indices| - 1];
      InRange(indices[..|indices| - 1], n) + (if idx < n then [idx] else [])
  }

  /** An index at or beyond the corpus size contributes nothing: dropping all
      of them changes nothing. */
  lemma {:induction false} OutOfRangeIgnored(indices: seq<int>, records: seq<ChunkRecord>)
    ensures RankedTexts(indices, records) == RankedTexts(InRange(indices, |records|), records)
    decreases |indices|
  {
    if |indices| > 0 {
      var init := indices[..|indices| - 1];
      var idx := indices[|indices| - 1];
      OutOfRangeIgnored(init, records);
      var kept := InRange(indices, |records|);
      if idx < |records| {
        assert kept == InRange(init, |records|) + [idx];
        assert kept[..|kept| - 1] == InRange(init, |records|);
        assert kept[|kept| - 1] == idx;
      } else {
        assert kept == InRange(init, |records|);
        assert RankedTexts(indices, records) == RankedTexts(init, records);
      }
    }
  }

  /** What the pipeline promises of indexed retrieval: distinct texts, in the
      order of their first occurrence among the hits, no more of them than hits
      (so no more than `top_k`), and hits at or beyond the corpus size ignored. */
  lemma DedupGuarantees(indices: seq<int>, records: seq<ChunkRecord>)
    ensures var r := DedupResult(indices, records);
      && Distinct(r)
      && |r| <= |indices|
      && DedupResult(InRange(indices, |records|), records) == r
      && (RankedTexts(indices, records).Some? ==>
            var ranked := RankedTexts(indices, records).value;
            && (forall x :: x in r <==> x in ranked)
            && (forall i, j :: 0 <= i < j < |r| ==> FirstIndex(ranked, r[i]) < FirstIndex(ranked, r[j])))
  {
    OutOfRangeIgnored(indices, records);
    RankedTextsLength(indices, records);
    if RankedTexts(indices, records).Some? {
      FirstOccurrencesSpec(RankedTexts(indices, records).value);
    }
  }

  lemma {:induction false} RankedTextsLength(indices: seq<int>, records: seq<ChunkRecord>)
    ensures RankedTexts(indices, records).Some? ==> |RankedTexts(indices, records).value| <= |indices|
    decreases |indices|
  {
    if |indices| > 0 {
      RankedTextsLength(indices[..|indices| - 1], records);
    }
  }

  /** FAISS pads missing neighbours with -1, which is not `>= len(chunks)`:
      Python reads it as the last chunk. */
  lemma MinusOneIsLastChunk(records: seq<ChunkRecord>)
    requires |records| > 0 && "text" in records[|records| - 1]
    ensures DedupResult([-1], records) == [records[|records| - 1]["text"]]
  {
    var n := |records|;
    var t := records[n - 1]["text"];
    var hits: seq<int> := [-1];
    assert hits[..|hits| - 1] == [];
    assert RankedTexts(hits[..|hits| - 1], records) == Some([]);
    assert [] + [t] == [t];
    assert PythonIndex(hits[0], n) == Some(n - 1);
    assert RankedTexts(hits, records) == Some([t]);
    assert [t][..0] == [];
    assert FirstOccurrences([t]) == [t];
  }

  // ---------------------------------------------------------------------
  // scan_chunks_fallback

  /** Whether the full scan keeps a chunk: its stripped text is not the
      placeholder, and the lower-cased query occurs in its lower-cased text or title. */
  predicate ScanKeeps(query: string, chunk: ChunkRecord) {
    var text := Get(chunk, "text");
    Strip(text) != ChunkText.NoTextPlaceholder
    && (ContainsIgnoringCase(text, query) || ContainsIgnoringCase(Get(chunk, "title"), query))
  }

  /** `matched_chunks` after the loop. */
  function ScanMatches(query: string, records: seq<ChunkRecord>): seq<ChunkRecord> {
    Filter(records, (c: ChunkRecord) => ScanKeeps(query, c))
  }

  /** `[c["text"] for c in chunks]`, or None when one of them has no "text". */
  function TextsOf(chunks: seq<ChunkRecord>): Option<seq<string>>
    decreases |chunks|
  {
    if |chunks| == 0 then Some([])
    else
      match TextsOf(chunks[..|chunks| - 1])
      case None => None
      case Some(ts) =>
        var c := chunks[|chunks| - 1];
        if "text" in c then Some(ts + [c["text"]]) else None
  }

  /** What `scan_chunks_fallback` returns; every failure gives the empty list. */
  function FullScan(query: string, corpus: Option<seq<ChunkRecord>>): seq<string> {
    if corpus.None? then []
    else
      match TextsOf(ScanMatches(query, corpus.value))
      case None => []
      case Some(ts) => ts
  }

  /** `scan_chunks_fallback`. */
  method ScanChunksFallback(query: string, corpus: Option<seq<ChunkRecord>>) returns (texts: seq<string>)
    ensures texts == FullScan(query, corpus)
  {
    if corpus.None? {
      return [];
    }
    var matched := CollectMatches(query, corpus.value);
    texts := CollectTexts(matched);
  }

  /** The scanning loop of `scan_chunks_fallback`. */
  method CollectMatches(query: string, chunks: seq<ChunkRecord>) returns (matched: seq<ChunkRecord>)
    ensures matched == ScanMatches(query, chunks)
  {
    matched := [];
    var qLower := LowerStr(query);
    for i := 0 to |chunks|
      invariant matched == ScanMatches(query, chunks[..i])
    {
      var chunk := chunks[i];
      FilterStep(chunks, (c: ChunkRecord) => ScanKeeps(query, c), i);
      var text := Get(chunk, "text");
      var title := Get(chunk, "title");
      if Strip(text) == ChunkText.NoTextPlaceholder {
        continue;
      }
      if Contains(LowerStr(text), qLower) || Contains(LowerStr(title), qLower) {
        matched := matched + [chunk];
      }
    }
    assert chunks[..|chunks|] == chunks;
  }

  /** `[c["text"] for c in matched_chunks]`; a missing key makes the function
      return the empty list. */
  method CollectTexts(matched: seq<ChunkRecord>) returns (texts: seq<string>)
    ensures texts == (match TextsOf(matched) case None => [] case Some(ts) => ts)
  {
    texts := [];
    for k := 0 to |matched|
      invariant TextsOf(matched[..k]) == Some(texts)
    {
      assert matched[..k + 1][..k] == matched[..k];
      if "text" !in matched[k] {
        TextsOfFailureSticks(matched, k + 1);
        return [];
      }
      texts := texts + [matched[k]["text"]];
    }
    assert matched[..|matched|] == matched;
  }

  lemma {:induction false} TextsOfFailureSticks(chunks: seq<ChunkRecord>, k: nat)
    requires k <= |chunks| && TextsOf(chunks[..k]).None?
    ensures TextsOf(chunks).None?
    decreases |chunks| - k
  {
    if k < |chunks| {
      assert chunks[..k + 1][..k] == chunks[..k];
      TextsOfFailureSticks(chunks, k + 1);
    } else {
      assert chunks[..k] == chunks;
    }
  }

  /** Positions of the chunks the scan keeps, in corpus order. */
  function KeptPositions(query: string, records: seq<ChunkRecord>): seq<nat> {
    Positions(records, (c: ChunkRecord) => ScanKeeps(query, c))
  }

  /** When every chunk has a text, the comprehension reads all of them, in order. */
  lemma {:induction false} TextsOfAll(chunks: seq<ChunkRecord>)
    requires forall k :: 0 <= k < |chunks| ==> "text" in chunks[k]
    ensures TextsOf(chunks).Some?
    ensures |TextsOf(chunks).value| == |chunks|
    ensures forall k :: 0 <= k < |chunks| ==> TextsOf(chunks).value[k] == chunks[k]["text"]
    decreases |chunks|
  {
    if |chunks| > 0 {
      TextsOfAll(chunks[..|chunks| - 1]);
    }
  }

  /** Over a corpus whose chunks all carry a text (as the chunker writes them),
      the full scan returns, in corpus order, exactly the texts of the chunks
      it keeps: the k-th result is the text at the k-th kept position, those
      positions increase, and a position is kept iff its chunk passes the test. */
  lemma FullScanSpec(query: string, records: seq<ChunkRecord>)
    requires forall i :: 0 <= i < |records| ==> "text" in records[i]
    ensures var r := FullScan(query, Some(records));
      var ps := KeptPositions(query, records);
      && |r| == |ps|
      && (forall k :: 0 <= k < |ps| ==> ps[k] < |records| && r[k] == records[ps[k]]["text"])
      && (forall k, l :: 0 <= k < l < |ps| ==> ps[k] < ps[l])
      && (forall i :: 0 <= i < |records| ==> (i in ps <==> ScanKeeps(query, records[i])))
  {
    FilterPositions(records, (c: ChunkRecord) => ScanKeeps(query, c));
    TextsOfAll(ScanMatches(query, records));
  }

  // ---------------------------------------------------------------------
  // query_knowledge_base

  /** Outcome of `chain.invoke({"query": ..., "context": ...})`. */
  datatype Generation = Generated(text: string) | GenerationRaised

  /** Outcome of the Hugging Face QA pass: the argmax start and end positions,
      `len(inputs.input_ids[0])`, and what `hf_tokenizer.decode` gives for the
      span `input_ids[0, start:end+1]`; or an exception from the tokenizer or model. */
  datatype Extraction = Span(start: int, end: int, inputLength: nat, decoded: string) | ExtractionRaised

  const InferredPrefix := "[INFERRED] "
  const NoInformation := InferredPrefix + "No relevant information found. Please refine your query."
  const NoPreciseAnswer := InferredPrefix + "Unable to extract a precise answer. Please ask a more specific query."
  const ErrorPrefix := "[ERROR] "
  const ErrorAnswer := ErrorPrefix + "Error processing query. Please try again."
  const SpanLead := "Based on the policy document: "

  /** Token budgets of the two synthesis paths. */
  const GenerativeBudget := 3000
  const ExtractiveBudget := 300

  /** What the fallback loop over `compliance_mapping` ends with. */
  datatype Fallback = FallbackText(text: string) | NoFallback | FallbackRaised

  /** The fallback loop stops at an entry whose key occurs in the query and
      whose value is either not an object (reading it raises) or has a
      non-empty fallback; a matching key with an empty fallback is passed over. */
  predicate StopsFallbackScan(query: string, e: (string, MappingValue)) {
    KeyOccurs(query, e.0) && (e.1.NotAnObject? || e.1.entry.fallback != "")
  }

  /** The fallback text of the first entry the loop stops at, the
      AttributeError when that entry is not an object, or nothing. */
  function MappingFallback(query: string, table: EnhancementTable): (r: Fallback)
    ensures r.NoFallback? <==> forall i :: 0 <= i < |table| ==> !StopsFallbackScan(query, table[i])
    ensures forall i :: (0 <= i < |table| && StopsFallbackScan(query, table[i])
      && (forall j :: 0 <= j < i ==> !StopsFallbackScan(query, table[j]))
      ==> r == (if table[i].1.NotAnObject? then FallbackRaised else FallbackText(table[i].1.entry.fallback)))
  {
    match FirstWhere(table, (e: (string, MappingValue)) => StopsFallbackScan(query, e))
    case None => NoFallback
    case Some(i) => if table[i].1.NotAnObject? then FallbackRaised else FallbackText(table[i].1.entry.fallback)
  }

  /** The answer `query_knowledge_base` gives once the passages are
      retrieved. `groqReady` says whether the Groq client and chain were built
      at start-up; `groq` and `hf` are the two models, applied to (query,
      truncated context). */
  function SynthesizedAnswer(query: string, passages: seq<string>, table: EnhancementTable,
                             groqReady: bool, groq: (string, string) -> Generation,
                             hf: (string, string) -> Extraction): string
  {
    if passages == [] then
      match MappingFallback(query, table)
      case FallbackText(text) => InferredPrefix + text
      case NoFallback => NoInformation
      case FallbackRaised => ErrorAnswer
    else
      var context := TruncatedContext(Join(passages, "\n"), GenerativeBudget);
      if groqReady && groq(query, context).Generated? then groq(query, context).text
      else
        match hf(query, TruncatedContext(passages[0], ExtractiveBudget))
        case ExtractionRaised => ErrorAnswer
        case Span(s, e, n, decoded) =>
          if 0 <= s <= e < n then (if groqReady then InferredPrefix else "") + SpanLead + decoded
          else NoPreciseAnswer
  }

  /** The decision tree of `query_knowledge_base`, with its `inferred` flag. */
  method AnswerFromPassages(query: string, passages: seq<string>, table: EnhancementTable,
                            groqReady: bool, groq: (string, string) -> Generation,
                            hf: (string, string) -> Extraction) returns (answer: string)
    ensures answer == SynthesizedAnswer(query, passages, table, groqReady, groq, hf)
  {
    var inferred := false;
    if passages == [] {
      inferred := true;
      match MappingFallback(query, table)
      case FallbackText(fallbackText) =>
        return InferredPrefix + fallbackText;
      case NoFallback =>
        return NoInformation;
      case FallbackRaised =>
        return ErrorAnswer;
    }
    var context := Join(passages, "\n");
    context := TruncateContext(context, GenerativeBudget);
    if groqReady {
      var outcome := groq(query, context);
      match outcome
      case Generated(text) =>
        var response := text;
        if inferred {
          response := InferredPrefix + response;
        }
        return response;
      case GenerationRaised =>
        inferred := true;
    }
    var contextChunk := TruncateContext(passages[0], ExtractiveBudget);
    var extraction := hf(query, contextChunk);
    match extraction
    case ExtractionRaised =>
      return ErrorAnswer;
    case Span(startIdx, endIdx, inputLength, decoded) =>
      if 0 <= startIdx <= endIdx < inputLength {
        var prefix := if inferred then InferredPrefix else "";
        return prefix + SpanLead + decoded;
      }
      return NoPreciseAnswer;
  }

  /** An empty retrieval is answered from the mapping alone, whatever either
      model would do: an inferred answer, unless the fallback loop raises. */
  lemma EmptyRetrievalInferred(query: string, table: EnhancementTable,
                               groqReady: bool, groq: (string, string) -> Generation,
                               hf: (string, string) -> Extraction,
                               groqReady': bool, groq': (string, string) -> Generation,
                               hf': (string, string) -> Extraction)
    ensures var a := SynthesizedAnswer(query, [], table, groqReady, groq, hf);
      && (StartsWith(a, InferredPrefix) <==> !MappingFallback(query, table).FallbackRaised?)
      && a == SynthesizedAnswer(query, [], table, groqReady', groq', hf')
      && (MappingFallback(query, table).FallbackText? ==> a == InferredPrefix + MappingFallback(query, table).text)
      && (MappingFallback(query, table).NoFallback? ==> a == NoInformation)
      && (MappingFallback(query, table).FallbackRaised? ==> a == ErrorAnswer)
  {
    var a := SynthesizedAnswer(query, [], table, groqReady, groq, hf);
    match MappingFallback(query, table)
    case FallbackText(text) =>
      assert a == InferredPrefix + text;
      InferredAnswersMarked(text);
    case NoFallback =>
      assert a == NoInformation;
      InferredAnswersMarked("");
    case FallbackRaised =>
      assert a == ErrorAnswer;
      ErrorAnswerUnmarked();
  }

  lemma InferredAnswersMarked(text: string)
    ensures StartsWith(InferredPrefix + text, InferredPrefix) && StartsWith(NoInformation, InferredPrefix)
  {
    assert (InferredPrefix + text)[..|InferredPrefix|] == InferredPrefix;
    assert NoInformation[..|InferredPrefix|] == InferredPrefix;
  }

  lemma ErrorAnswerUnmarked()
    ensures !StartsWith(ErrorAnswer, InferredPrefix)
  {
    assert ErrorAnswer[1] == ErrorPrefix[1] == 'E';
    assert InferredPrefix[1] == 'I';
    assert ErrorAnswer[..|InferredPrefix|][1] == 'E';
  }

  /** With passages, a generated answer is returned exactly as Groq gave it:
      the `inferred` flag is still false at that point. */
  lemma GeneratedAnswerUnmarked(query: string, passages: seq<string>, table: EnhancementTable,
                                groq: (string, string) -> Generation, hf: (string, string) -> Extraction)
    requires passages != []
    requires groq(query, TruncatedContext(Join(passages, "\n"), GenerativeBudget)).Generated?
    ensures SynthesizedAnswer(query, passages, table, true, groq, hf)
      == groq(query, TruncatedContext(Join(passages, "\n"), GenerativeBudget)).text
  {
  }

  /** The extractive path: a span is decoded only when 0 <= start <= end <
      length, and the decoded answer is marked inferred iff the Groq call was
      made and raised (not when Groq was never configured). */
  lemma ExtractiveAnswer(query: string, passages: seq<string>, table: EnhancementTable,
                         groqReady: bool, groq: (string, string) -> Generation,
                         hf: (string, string) -> Extraction)
    requires passages != []
    requires !(groqReady && groq(query, TruncatedContext(Join(passages, "\n"), GenerativeBudget)).Generated?)
    ensures var a := SynthesizedAnswer(query, passages, table, groqReady, groq, hf);
      match hf(query, TruncatedContext(passages[0], ExtractiveBudget))
      case ExtractionRaised => a == ErrorAnswer
      case Span(s, e, n, decoded) =>
        && (0 <= s <= e < n ==> (StartsWith(a, InferredPrefix) <==> groqReady)
                                && a == (if groqReady then InferredPrefix else "") + SpanLead + decoded)
        && (!(0 <= s <= e < n) ==> a == NoPreciseAnswer)
  {
    match hf(query, TruncatedContext(passages[0], ExtractiveBudget))
    case ExtractionRaised =>
    case Span(s, e, n, decoded) =>
      if 0 <= s <= e < n {
        var a := SynthesizedAnswer(query, passages, table, groqReady, groq, hf);
        if groqReady {
          assert a[..|InferredPrefix|] == InferredPrefix;
        } else {
          assert a[0] == SpanLead[0];
        }
      }
  }

  /** A query whose first matching key holds a value that is not an object
      (the "mappings" list, say) makes indexed retrieval return nothing, and
      the fallback loop then raises too: the answer is the error message. */
  lemma NonObjectEntryGivesError(query: string, table: EnhancementTable, i: nat,
                                 corpus: Option<seq<ChunkRecord>>, search: string -> Option<seq<int>>,
                                 groqReady: bool, groq: (string, string) -> Generation,
                                 hf: (string, string) -> Extraction)
    requires i < |table| && KeyOccurs(query, table[i].0) && table[i].1.NotAnObject?
    requires forall j :: 0 <= j < i ==> !KeyOccurs(query, table[j].0)
    ensures IndexedRetrieval(query, table, corpus, search) == []
    ensures SynthesizedAnswer(query, Passages(query, false, table, corpus, search), table, groqReady, groq, hf) == ErrorAnswer
  {
    assert EnhanceQuery(query, table).None?;
    assert StopsFallbackScan(query, table[i]);
    assert forall j :: 0 <= j < i ==> !StopsFallbackScan(query, table[j]);
  }

  /** The passages `query_knowledge_base` works from. */
  function Passages(query: string, fullScan: bool, table: EnhancementTable,
                    corpus: Option<seq<ChunkRecord>>, search: string -> Option<seq<int>>): seq<string> {
    if fullScan then FullScan(query, corpus) else IndexedRetrieval(query, table, corpus, search)
  }

  /** `query_knowledge_base(query, full_scan=...)`: retrieve, then answer. */
  method QueryKnowledgeBase(query: string, fullScan: bool, table: EnhancementTable,
                            corpus: Option<seq<ChunkRecord>>, search: string -> Option<seq<int>>,
                            groqReady: bool, groq: (string, string) -> Generation,
                            hf: (string, string) -> Extraction) returns (answer: string)
    ensures answer == SynthesizedAnswer(query, Passages(query, fullScan, table, corpus, search), table, groqReady, groq, hf)
  {
    var passages;
    if fullScan {
      passages := ScanChunksFallback(query, corpus);
    } else {
      passages := RetrieveChunks(query, table, corpus, search);
    }
    answer := AnswerFromPassages(query, passages, table, groqReady, groq, hf);
  }
}
