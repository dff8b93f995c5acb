# Policy-compliance chatbot: retrieval, answering, gap analysis and chunking

This project models the core of a retrieval-augmented chatbot that answers
questions about an organisation's information-security policy. It also
audits that policy against PCI-DSS and ISO 27001. The model covers three
parts of the chatbot:

- **Chunking** (`chunk_text.dfy`, module `ChunkText`). The policy text is cut at
  its section headings. Each body is cleaned: "page N of M" markers are removed,
  runs of newlines become one space, and the result is stripped. An empty body is
  replaced by a placeholder. A section longer than `max_words` words is cut into
  pieces of `max_words` words. Each chunk is a record with `section`, `title`
  and `text`.
- **Question answering** (`query_engine.dfy`, module `QueryEngine`):
  - the query is enhanced with mapping keywords;
  - indexed retrieval deduplicates the nearest-neighbour hits by text, and a
    full scan matches the query by substring;
  - the context is truncated to a token budget;
  - the answer is chosen from a generative model, an extractive QA model, the
    mapping's fallback text, or one of the fixed inferred/error messages.
- **Compliance report** (`report_generator.dfy`, module `ReportGenerator`):
  - the audit priority comes from the first risk keyword in the query;
  - the compliance verdict comes from the first mapping whose policy section
    starts with the queried section: one finding per clause whose description
    the answer does not mention, and a status derived from the count;
  - the Markdown report lists one block per audit query.

Two support modules state the Python behaviour the code relies on:

- `Text` (`text.dfy`) covers `str.isspace`, ASCII `lower`, substring `in`,
  `startswith`, `strip`, `split()` and `join`.
- `Wrappers` (`wrappers.dfy`) holds `Option`/`Result` and the three loop
  shapes the code uses: first match, filter, and concatenate-or-fail.

Loops become methods with invariants. Each method is proved equal to a
specification function: `TruncateContext`, `DeduplicateHits`, `CollectMatches`,
`CollectTexts`, `AnswerFromPassages`, `CheckClauses`, `CollectGaps`, `AnalyzeCompliance`,
`BuildReportLines`, `SplitSection` and `ChunkText`. Lemmas then prove what the
code promises about those functions.

Things outside the model become parameters:

- `search` is the sentence embedding plus FAISS search; `None` stands for an
  exception.
- `groq` is the generative chain and `groqReady` says whether it was built at
  start-up.
- `hf` is the tokenizer and QA model, given as the argmax span, the input length
  and the decoded text, or an exception.
- `corpus` is the chunk JSON file, `None` when it cannot be read.
- `table` is the keyword-enhancement mapping, in file order. A value is an
  object or any other JSON value (such as the list kept under "mappings"),
  and reading a field of the latter raises `AttributeError`.
- `answer` is the question-answering function, as the report generator uses it.
- `headings` are the heading matches of the chunker's regular expression, given
  as spans.

Exceptions that the code catches are modelled as the value it returns
instead. The two exceptions that escape are each a `Failure`: the `KeyError`
for a gap clause with no `clause` id, which stops the report, and the
`ValueError` of `range(0, n, 0)` when `chunk_text` is given `max_words` 0.

## Model

| member | source | states |
|---|---|---|
| ChunkText.ToRecord | src/pdf_processing/chunk_text.py:45 | a chunk's dictionary has exactly the keys section, title and text, holding the chunk's fields |
| ChunkText.Slice | src/pdf_processing/chunk_text.py:29 | Python slicing with bounds clamped to the string: the plain subsequence when the bounds are in order and in range, never longer than the string |
| ChunkText.PageMarkerAt | src/pdf_processing/chunk_text.py:32 | a "page N of M" marker found at the front of the text (case-insensitive, with optional whitespace) is at least six characters long and lies within the text |
| ChunkText.RemovePageMarkers | src/pdf_processing/chunk_text.py:32 | removing page markers never lengthens the text |
| ChunkText.CollapseNewlines | src/pdf_processing/chunk_text.py:33 | after replacing each run of newlines by a space, no newline is left |
| ChunkText.SectionText | src/pdf_processing/chunk_text.py:32-38 | the section text that gets split is never empty, has no newline and does not start with whitespace; it is the cleaned body, or the placeholder "[No text extracted]" exactly when cleaning leaves nothing |
| ChunkText.PlaceholderShape | src/pdf_processing/chunk_text.py:38 | the placeholder is non-empty, starts with a non-space and contains no newline |
| ChunkText.PieceChunks | src/pdf_processing/chunk_text.py:43-45 | one chunk per piece of words |
| ChunkText.PiecesStep | src/pdf_processing/chunk_text.py:43-44 | the pieces taken from word j onwards are the slice words[j:j+max_words] (clamped), followed by the pieces from j+max_words |
| ChunkText.PieceChunksCons | src/pdf_processing/chunk_text.py:44-45 | a piece becomes a chunk carrying the section number, the stripped title and the piece's words joined by single spaces |
| ChunkText.SplitSection | src/pdf_processing/chunk_text.py:43-45 | the `range(0, len(words), max_words)` loop appends exactly the chunks of the successive pieces |
| ChunkText.CleanSection | src/pdf_processing/chunk_text.py:32-38 | the three substitutions and the placeholder produce the section text defined above |
| ChunkText.ChunkText | src/pdf_processing/chunk_text.py:6-47 | the loop over headings returns the chunks of every section in heading order; it fails (the `ValueError` of a zero `range` step) iff `max_words` is 0 and there is at least one heading |
| ChunkText.PiecesShape | src/pdf_processing/chunk_text.py:43-44 | every piece but the last holds exactly max_words words, the last holds 1 to max_words, and the piece count is the ceiling of words / max_words |
| ChunkText.PiecesSizes | src/pdf_processing/chunk_text.py:43-44 | every piece but the last holds exactly max_words words and the last holds 1 to max_words |
| ChunkText.PiecesCount | src/pdf_processing/chunk_text.py:43 | the number of pieces is the ceiling of words / max_words |
| ChunkText.PiecesFlatten | src/pdf_processing/chunk_text.py:43-44 | the pieces, concatenated in order, are the section's words |
| ChunkText.PiecesHoldWords | src/pdf_processing/chunk_text.py:43-44 | every word in a piece is a word of the section |
| ChunkText.WordsOfPieceChunks | src/pdf_processing/chunk_text.py:44 | splitting a piece's chunk text gives back exactly that piece, and the chunks' words in order are the pieces' words in order |
| ChunkText.LongSectionSplit | src/pdf_processing/chunk_text.py:42-45 | a section longer than max_words becomes ceil(n / max_words) chunks; every chunk but the last has exactly max_words words and the last has 1 to max_words; the chunks' words in order are the section's words, with none lost, added or reordered |
| ChunkText.ShortSectionWhole | src/pdf_processing/chunk_text.py:46-47 | a section of at most max_words words is a single chunk holding the cleaned text unchanged |
| ChunkText.SectionChunksClean | src/pdf_processing/chunk_text.py:37-47 | every chunk of a section has a non-empty, newline-free text and carries that section's number and stripped title |
| ChunkText.PieceChunksClean | src/pdf_processing/chunk_text.py:43-45 | chunks built from non-empty pieces of words have non-empty, newline-free texts and the section's label |
| ChunkText.JoinedWordsClean | src/pdf_processing/chunk_text.py:44 | whitespace-free words joined by single spaces give a non-empty text without newlines |
| ChunkText.HeadingLabels | src/pdf_processing/chunk_text.py:21-22 | one (section, stripped title) label per heading processed |
| ChunkText.ChunksAreClean | src/pdf_processing/chunk_text.py:20-47 | every chunk produced has a non-empty text with no newline and the number and title of one of the headings |
| ChunkText.CleanChunksAppend | src/pdf_processing/chunk_text.py:45-47 | appending a clean section's chunks keeps every chunk clean and labelled by a heading |
| ChunkText.PieceChunksAt | src/pdf_processing/chunk_text.py:44-45 | chunk k of a long section is the section label with the k-th piece joined by spaces |
| ChunkText.SectionsPartitionText | src/pdf_processing/chunk_text.py:25-29 | the heading matches and the bodies between them, taken in order after the text that precedes the first heading, rebuild the text up to the end of the last body: no text is lost or duplicated between sections |
| Text.WordsOfJoin | src/rag_pipeline/query_engine.py:79-87 | splitting whitespace-free words joined by single spaces gives back those words |
| Text.StripIsSlice | src/pdf_processing/chunk_text.py:34 | `strip()` keeps one contiguous slice of its argument |
| QueryEngine.ExtractSection | src/rag_pipeline/query_engine.py:89-90 | a record without "section" gives "Unknown"; the record of a chunk gives that chunk's section |
| QueryEngine.KeptWordCount | src/rag_pipeline/query_engine.py:80-86 | the number of words kept is the largest k, up to the word count, whose cost of 1.5 tokens per word stays within the budget |
| QueryEngine.TruncateContext | src/rag_pipeline/query_engine.py:78-87 | the token-counting loop, with its doubled counter, returns the truncation function's value |
| QueryEngine.TruncationKeepsLeadingWords | src/rag_pipeline/query_engine.py:78-87 | the truncated context's words are the first min(n, floor(2·max_tokens/3)) words of the context, or none for a budget of 0 or less, and they cost at most the budget |
| QueryEngine.TruncationIdempotent | src/rag_pipeline/query_engine.py:78-87 | truncating an already truncated context changes nothing |
| QueryEngine.EnhanceQuery | src/rag_pipeline/query_engine.py:92-101 | the query is returned unchanged iff no mapping key occurs in it case-insensitively; otherwise, when the first matching key's value is an object, its additions follow the query after a space, and when it is not, enhancement raises `AttributeError` |
| QueryEngine.AdditionsSpreadCharacters | src/rag_pipeline/query_engine.py:97-99 | for every mapping entry, the additions are the characters of sections, a space and keywords with one space between each two, so they are 2n-1 long and never the two fields joined by one space when either is non-empty ("4.5" and "mfa" give "4 . 5   m f a") |
| QueryEngine.PythonIndex | src/rag_pipeline/query_engine.py:123-125 | an index below the corpus size selects a chunk iff it is at least -n; a negative index counts from the end |
| QueryEngine.DeduplicateHits | src/rag_pipeline/query_engine.py:119-131 | the dedup loop over the hit indices returns the texts of the deduplicated hits, or nothing when a record lacks "text" or an index is below -n |
| QueryEngine.RetrieveChunks | src/rag_pipeline/query_engine.py:106-134 | indexed retrieval is: an unreadable corpus, an enhancement that raises or a failed search gives [], otherwise the deduplicated texts of the hits for the enhanced query |
| QueryEngine.FirstIndex | src/rag_pipeline/query_engine.py:126-128 | the position of the first occurrence of a text |
| QueryEngine.FirstIndexExtend | src/rag_pipeline/query_engine.py:126-128 | appending a text leaves the first occurrence of an earlier text where it was |
| QueryEngine.FirstOccurrencesSpec | src/rag_pipeline/query_engine.py:119-128 | deduplication keeps each text once, keeps exactly the texts of the ranked list, orders them by first occurrence and never lengthens the list |
| QueryEngine.InRange | src/rag_pipeline/query_engine.py:123-124 | the kept indices are all below the corpus size |
| QueryEngine.OutOfRangeIgnored | src/rag_pipeline/query_engine.py:123-124 | hits at or beyond the corpus size contribute nothing: dropping them gives the same ranked texts |
| QueryEngine.DedupGuarantees | src/rag_pipeline/query_engine.py:119-131 | the retrieved texts are distinct, no more than the hits, ordered by first occurrence, the same set as the hit texts, and unaffected by out-of-range hits |
| QueryEngine.RankedTextsLength | src/rag_pipeline/query_engine.py:122-128 | there are never more ranked texts than hits |
| QueryEngine.MinusOneIsLastChunk | src/rag_pipeline/query_engine.py:122-128 | the hit -1, which a search with fewer results than top_k pads with, retrieves the last chunk's text instead of being dropped |
| QueryEngine.ScanChunksFallback | src/rag_pipeline/query_engine.py:139-156 | the full scan returns the texts of the matching chunks, or [] when the corpus cannot be read or a matching chunk has no "text" |
| QueryEngine.CollectMatches | src/rag_pipeline/query_engine.py:146-152 | the scan loop keeps exactly the chunks that pass the filter, in order |
| QueryEngine.CollectTexts | src/rag_pipeline/query_engine.py:153 | the texts of the matched chunks, or [] when one lacks "text" |
| QueryEngine.TextsOfAll | src/rag_pipeline/query_engine.py:153 | when every chunk has "text", the list holds each chunk's text at the chunk's position |
| QueryEngine.FullScanSpec | src/rag_pipeline/query_engine.py:146-153 | the full scan returns the texts of the chunks at the kept positions, in increasing order; a position is kept iff its text is not the placeholder and the lower-cased query occurs in its lower-cased text or title |
| QueryEngine.MappingFallback | src/rag_pipeline/query_engine.py:172-176 | the loop passes over keys absent from the query and matching objects with an empty fallback; it stops at the first other entry, giving its fallback when it is an object and raising `AttributeError` when it is not, and ends with nothing iff it never stops |
| QueryEngine.AnswerFromPassages | src/rag_pipeline/query_engine.py:168-204 | the decision tree, with its `inferred` flag, returns the synthesized answer |
| QueryEngine.QueryKnowledgeBase | src/rag_pipeline/query_engine.py:161-207 | the answer is the synthesized answer over the passages of the full scan or of indexed retrieval, as `full_scan` chooses |
| QueryEngine.EmptyRetrievalInferred | src/rag_pipeline/query_engine.py:170-177 | with no passages the answer does not depend on either model: it is the "[INFERRED] " fallback text, or the no-information message when the loop finds nothing, or the error message when it raises; it starts with "[INFERRED] " iff the loop did not raise |
| QueryEngine.GeneratedAnswerUnmarked | src/rag_pipeline/query_engine.py:183-188 | a successful generation is returned exactly as generated |
| QueryEngine.NonObjectEntryGivesError | src/rag_pipeline/query_engine.py:92-207 | when the first mapping key occurring in the query holds a value that is not an object, indexed retrieval returns [] and the answer is the error message |
| QueryEngine.ExtractiveAnswer | src/rag_pipeline/query_engine.py:193-204 | without a generated answer, an extraction exception gives the error answer; a valid span (0 <= start <= end < length) gives "Based on the policy document: " and the decoded span, marked "[INFERRED] " iff the Groq chain existed and raised; any other span gives the imprecise-answer message |
| ReportGenerator.AssignRiskLevel | src/compliance_analysis/report_generator.py:25-31 | the risk of the first keyword in table order found in the lower-cased query, or Low when none is found |
| ReportGenerator.KeywordAbsent | src/compliance_analysis/report_generator.py:28-29 | a keyword with a character absent from the lower-cased query does not match |
| ReportGenerator.KeywordPresent | src/compliance_analysis/report_generator.py:28-29 | a keyword found at a position of the lower-cased query matches |
| ReportGenerator.RiskOfFirstKeyword | src/compliance_analysis/report_generator.py:28-30 | the first keyword in table order that matches decides the risk |
| ReportGenerator.NoHighKeyword | src/compliance_analysis/report_generator.py:11-15 | none of the four High keywords that precede "logging" in the table occurs in "password logging" |
| ReportGenerator.PasswordLoggingIsMedium | src/compliance_analysis/report_generator.py:11-31 | "password logging" is rated Medium: "logging" comes before "password" in the table |
| ReportGenerator.StatusLabel | src/compliance_analysis/report_generator.py:70-79 | the status strings are the four the code writes, and "Unknown" is the label of the Unknown status only |
| ReportGenerator.AnalyzeCompliance | src/compliance_analysis/report_generator.py:42-79 | the loop over mappings returns the analysis: Unknown for no mappings or no section match, else the first match's verdict |
| ReportGenerator.CheckClauses | src/compliance_analysis/report_generator.py:49-77 | the two clause loops and the status choice return that mapping's verdict, or the `KeyError` for a gap clause without an id |
| ReportGenerator.CollectGaps | src/compliance_analysis/report_generator.py:53-67 | one framework's clause loop returns that framework's findings, or the `KeyError` for a gap clause without an id |
| ReportGenerator.FrameworkGapsSpec | src/compliance_analysis/report_generator.py:53-67 | the clause loop succeeds iff every gap clause has an id; it then gives one finding per gap clause, in clause order, each naming the framework, the clause id and the description |
| ReportGenerator.GapsNameFramework | src/compliance_analysis/report_generator.py:57-65 | every finding starts with its framework name and a space |
| ReportGenerator.FrameworkGapsLength | src/compliance_analysis/report_generator.py:53-67 | a framework never has more findings than clauses |
| ReportGenerator.StatusRule | src/compliance_analysis/report_generator.py:69-75 | Compliant iff no gap, Partially Compliant iff some but fewer gaps than clauses, Non-Compliant iff every clause is a gap |
| ReportGenerator.MatchedVerdict | src/compliance_analysis/report_generator.py:51-77 | a matched mapping's gaps are its PCI-DSS findings followed by its ISO 27001 findings, no more than the clauses, each framework's findings are prefixed by its name, and the status follows the gap count |
| ReportGenerator.AnalysisCases | src/compliance_analysis/report_generator.py:42-79 | "Compliance mapping not found" for no mappings, "Section not found in compliance mapping" when no policy section starts with the section, otherwise the first matching mapping's verdict; Unknown iff one of the first two |
| ReportGenerator.MissingClauseReported | src/compliance_analysis/report_generator.py:54-59 | a PCI-DSS clause whose description the answer does not mention is reported under PCI-DSS and in the gaps, and the section is not Compliant |
| ReportGenerator.NoDescriptionNoGap | src/compliance_analysis/report_generator.py:55-56 | clauses with empty descriptions never produce a finding |
| ReportGenerator.UndescribedMappingCompliant | src/compliance_analysis/report_generator.py:53-71 | a mapping whose clauses all lack descriptions is Compliant, whatever the answer |
| ReportGenerator.ShorterSectionMatchesLonger | src/compliance_analysis/report_generator.py:48 | a query for section "4.2" is judged against a mapping for "4.20" |
| ReportGenerator.SubsectionNotFound | src/compliance_analysis/report_generator.py:48 | a query for section "4.4.1" finds no mapping for "4.4" |
| ReportGenerator.BuildReportLines | src/compliance_analysis/report_generator.py:97-126 | the loop builds the header followed by the concatenated query blocks, or fails with the error of the first query whose analysis raised |
| ReportGenerator.AppendQueryBlock | src/compliance_analysis/report_generator.py:105-126 | the lines appended for one query are that query's block |
| ReportGenerator.AppendGapLines | src/compliance_analysis/report_generator.py:113-117 | the gap lines appended are one line per finding, or "- None" |
| Wrappers.ConcatenatedAt | src/compliance_analysis/report_generator.py:99-126 | when a loop of appends that stops at the first failure succeeds, the part of element i sits right after the parts of the elements before it, so the report's blocks appear in query order |
| ReportGenerator.GenerateReport | src/compliance_analysis/report_generator.py:81-132 | the report text is the header and the blocks of the ten audit queries joined by newlines, or the error of the first query whose analysis raised, which, for mappings of the modelled shape, is always the `KeyError` for a clause without an id |
| ReportGenerator.ReportFailureIsKeyError | src/compliance_analysis/report_generator.py:99-103 | for mappings of the modelled shape, a report that fails fails with the `KeyError` for a clause without an id, raised by the analysis of some query all of whose predecessors were analysed without error |
| Wrappers.ConcatenatedFailureOrigin | src/compliance_analysis/report_generator.py:99-126 | a loop of appends that stops at the first failure fails with the error of its first failing element, every earlier element having succeeded |
| ReportGenerator.UnknownBlock | src/compliance_analysis/report_generator.py:105-124 | an Unknown verdict's block shows the status "Unknown" and "- None" under both framework headings; its message is not printed |
| ReportGenerator.NoneIffNoGaps | src/compliance_analysis/report_generator.py:113-124 | "- None" is written under a framework heading iff the framework has no findings, and otherwise there is one line per finding |
| ReportGenerator.FindingLineIsNotNone | src/compliance_analysis/report_generator.py:115-117 | a finding line is never the "- None" line |

## Behaviours of the code worth knowing

- Section matching (`report_generator.py:48`) asks whether the mapping's section
  starts with the queried section. So "4.2" is judged against a mapping for
  "4.20", and "4.4.1" finds no mapping for "4.4" (`ShorterSectionMatchesLonger`,
  `SubsectionNotFound`).
- `assign_risk_level` returns the risk of the first keyword in table order, so
  "password logging" is Medium (`PasswordLoggingIsMedium`).
- `enhance_query` applies `" ".join` to a string, which puts a space between
  every character of the sections and keywords (`AdditionsSpreadCharacters`).
- An extractive answer is marked "[INFERRED] " only when the Groq call was made
  and raised. When Groq was never configured, the answer is not marked
  (`ExtractiveAnswer`).
- Negative hit indices are not dropped. -1, which FAISS uses to pad missing
  results, selects the last chunk (`MinusOneIsLastChunk`). An index below -n
  raises an `IndexError`, and retrieval then returns [].
- A mapping value that is not an object, such as the "mappings" list of the
  shared compliance-mapping file, raises `AttributeError` as soon as it is the
  first value whose key occurs in the query. Indexed retrieval then returns [],
  and the fallback loop raises again, so the answer is the error message
  (`NonObjectEntryGivesError`).
- A gap clause without a `clause` id raises a `KeyError`. Nothing catches it, so
  the whole report fails instead of only that query's block. For mapping entries
  and clauses that are objects with string `policy_section` and `description`
  it is the only error that stops the report (`GenerateReport`,
  `ReportFailureIsKeyError`).
- An Unknown verdict's message, such as "Section not found in compliance
  mapping", is kept in `gaps`. The report never prints it (`UnknownBlock`).
- A clause with an empty description counts toward the clause total, but it
  never produces a finding (`NoDescriptionNoGap`).

## Left out

- Reading the chunk JSON, the compliance-mapping JSON and the FAISS index, and
  writing the chunk JSON and the report file: the files are parameters (`corpus`,
  `table`, `mappings`) or are the returned value. `load_compliance_mapping`
  returning [] on error is an empty `mappings` argument.
- Building the Groq client and chain and the Hugging Face models at import time:
  only whether the chain exists (`groqReady`) is kept.
- The sentence embedding, FAISS search, LLM generation, tokenization and QA
  argmax are foreign code. They are the parameters `search`, `groq` and `hf`.
  The tokenizer's truncation to 512 tokens is inside `hf`.
- Logging, `print` and the interactive `__main__` loops: they do not affect the
  returned values.
- The regular expression `(\d+(\.\d+){0,2})\s+([^\n]+)` and `finditer`: the heading
  matches are the input `headings` (spans with the number and raw title). Only
  that they are ordered and do not overlap is assumed, in `SectionsPartitionText`.
- Unicode case folding and digits: `lower` and the IGNORECASE match of "page"
  and "of" are modelled for ASCII letters only, and `\d` for ASCII digits only.
- JSON values that are not strings (a number as `section`, a list as `text`):
  chunk records are maps from strings to strings. A missing key is modelled.
- QueryEngine.EnhanceQuery and QueryEngine.MappingFallback: a mapping value that
  is not an object is modelled, but the fields of an object are taken to be
  strings; a list or number as `sections`, `keywords` or `fallback` (which would
  raise `TypeError` in the concatenation, or be formatted by the f-string) is
  not.
- ReportGenerator.AnalyzeCompliance: mapping entries and clauses are taken to be
  objects with a string `policy_section` and `description`. Any other shape (an
  entry or clause that is not an object, such as a bare clause id, or a
  non-string `policy_section` or `description`) makes `.get(...)`,
  `.startswith` or `.lower()` raise an uncaught `AttributeError` that would also
  stop the report; the model does not represent it.
- The order of the mapping dictionary: it is the order of the `table`, `RiskLevels`
  and `mappings` sequences, which Python preserves from the file or literal.
- Exceptions the code catches are modelled only where the model can raise them:
  an unreadable file, a failed search, a missing "text" key, a bad index, the
  `AttributeError` of a mapping value that is not an object (`EnhancedBy`,
  `MappingFallback`), the Groq exception (`GenerationRaised`), and a QA
  exception. Exceptions in `str` operations are not modelled.
- `extract_text.py`, `embeddings.py`, `vector_store.py` and the Streamlit app are
  not part of this model.
