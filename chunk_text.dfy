/** The section chunker (`chunk_text`): cuts the extracted policy text at its
    section headings, cleans each section's body and splits long sections into
    chunks of at most `maxWords` words. The heading matches that the regular
    expression `(\d+(\.\d+){0,2})\s+([^\n]+)` finds are an input. */
module ChunkText {
  import opened Wrappers
  import opened Text

  /** Text stored for a section whose cleaned body is empty. */
  const NoTextPlaceholder := "[No text extracted]"

  /** One heading match: `match.start()`, `match.end()`, group 1 (the section
      number) and group 3 (the title, before `strip()`). */
  datatype Heading = Heading(start: nat, end: nat, section: string, rawTitle: string)

  /** One element of the output list: `{"section": ..., "title": ..., "text": ...}`. */
  datatype Chunk = Chunk(section: string, title: string, text: string)

  /** The chunk as the JSON object the retrieval side loads back. */
  function ToRecord(c: Chunk): (r: map<string, string>)
    ensures r.Keys == {"section", "title", "text"}
    ensures r["section"] == c.section && r["title"] == c.title && r["text"] == c.text
  {
    map["section" := c.section, "title" := c.title, "text" := c.text]
  }

  /** What `re.finditer` guarantees of its matches: in order, non-overlapping,
      non-empty and inside the text. */
  predicate WellFormed(text: string, headings: seq<Heading>) {
    && (forall i :: 0 <= i < |headings| ==> headings[i].start < headings[i].end <= |text|)
    && (forall i :: 0 <= i < |headings| - 1 ==> headings[i].end <= headings[i + 1].start)
  }

  /** Python's `s[a:b]` for non-negative bounds: both clamped to `len(s)`,
      and empty when `a >= b`. */
  function Slice(s: string, a: nat, b: nat): (r: string)
    ensures a <= b <= |s| ==> r == s[a..b]
    ensures |r| <= |s|
  {
    var a' := if a <= |s| then a else |s|;
    var b' := if b <= |s| then b else |s|;
    if a' >= b' then [] else s[a'..b']
  }

  /** Where section `i`'s body ends: the start of the next heading, or the end of the text. */
  function BodyEnd(text: string, headings: seq<Heading>, i: nat): nat
    requires i < |headings|
  {
    if i + 1 < |headings| then headings[i + 1].start else |text|
  }

  /** `text[start:end]` for section `i`. */
  function RawBody(text: string, headings: seq<Heading>, i: nat): string
    requires i < |headings|
  {
    Slice(text, headings[i].end, BodyEnd(text, headings, i))
  }

  // ---------------------------------------------------------------------
  // Cleaning: re.sub(r'page\s*\d+\s*of\s*\d+', '', s, flags=re.IGNORECASE),
  // then re.sub(r'\n+', ' ', s), then strip().

  predicate IsDigit(c: char) { '0' <= c <= '9' }

  /** Length of the run of characters satisfying `p` at the front of `s`. */
  function RunLength(s: string, p: char -> bool): (n: nat)
    ensures n <= |s|
    ensures forall i :: 0 <= i < n ==> p(s[i])
    ensures n < |s| ==> !p(s[n])
  {
    if s == [] || !p(s[0]) then 0 else 1 + RunLength(s[1..], p)
  }

  /** Length of the page marker `page\s*\d+\s*of\s*\d+` (any case) matched at
      the front of `s`, if one is. Every quantifier is greedy and each class is
      disjoint from what follows it, so the regular expression has exactly one
      way to match here. */
  function PageMarkerAt(s: string): (r: Option<nat>)
    ensures r.Some? ==> 6 <= r.value <= |s|
  {
    if |s| < 4 || LowerStr(s[..4]) != "page" then None
    else
      var a := 4 + RunLength(s[4..], IsSpace);
      var d1 := RunLength(s[a..], IsDigit);
      if d1 == 0 then None
      else
        var b := a + d1 + RunLength(s[a + d1..], IsSpace);
        if |s| < b + 2 || LowerStr(s[b..b + 2]) != "of" then None
        else
          var c := b + 2 + RunLength(s[b + 2..], IsSpace);
          var d2 := RunLength(s[c..], IsDigit);
          if d2 == 0 then None else Some(c + d2)
  }

  /** `re.sub` of the page-marker pattern with '': scanning left to right, each
      marker found is dropped and the scan resumes after it. */
  function RemovePageMarkers(s: string): (r: string)
    ensures |r| <= |s|
    decreases |s|
  {
    if s == [] then []
    else
      match PageMarkerAt(s)
      case Some(n) => RemovePageMarkers(s[n..])
      case None => [s[0]] + RemovePageMarkers(s[1..])
  }

  function NewlineRun(s: string): (n: nat)
    ensures n <= |s|
  {
    RunLength(s, c => c == '\n')
  }

  /** `re.sub(r'\n+', ' ', s)`: every maximal run of newlines becomes one space. */
  function CollapseNewlines(s: string): (r: string)
    ensures '\n' !in r
    decreases |s|
  {
    if s == [] then []
    else if s[0] == '\n' then " " + CollapseNewlines(s[NewlineRun(s)..])
    else [s[0]] + CollapseNewlines(s[1..])
  }

  /** The cleaning applied to each section body: page markers removed,
      newline runs collapsed, then `strip()`; the placeholder comes after. */
  function CleanBody(raw: string): string {
    Strip(CollapseNewlines(RemovePageMarkers(raw)))
  }

  /** The section text that goes on to be split: the cleaned body, or the
      placeholder when cleaning left nothing. */
  function SectionText(raw: string): (t: string)
    ensures t != [] && '\n' !in t
    ensures !IsSpace(t[0])
    ensures CleanBody(raw) != [] ==> t == CleanBody(raw)
    ensures CleanBody(raw) == [] ==> t == NoTextPlaceholder
  {
    var collapsed := CollapseNewlines(RemovePageMarkers(raw));
    StripAvoids(collapsed, '\n');
    PlaceholderShape();
    if Strip(collapsed) == [] then NoTextPlaceholder else Strip(collapsed)
  }

  lemma PlaceholderShape()
    ensures NoTextPlaceholder != [] && !IsSpace(NoTextPlaceholder[0]) && '\n' !in NoTextPlaceholder
  {
  }

  // ---------------------------------------------------------------------
  // Splitting long sections

  /** The word lists `words[j:j+m]` for `j` in `range(0, len(words), m)`. */
  function Pieces(ws: seq<string>, m: nat): (ps: seq<seq<string>>)
    requires m > 0
    decreases |ws|
  {
    if |ws| == 0 then []
    else if |ws| <= m then [ws]
    else [ws[..m]] + Pieces(ws[m..], m)
  }

  function Flatten(ps: seq<seq<string>>): seq<string> {
    if |ps| == 0 then [] else ps[0] + Flatten(ps[1..])
  }

  /** Each piece joined with single spaces into a chunk of the heading. */
  function PieceChunks(h: Heading, ps: seq<seq<string>>): (cs: seq<Chunk>)
    ensures |cs| == |ps|
  {
    if |ps| == 0 then [] else [Chunk(h.section, Strip(h.rawTitle), Join(ps[0], " "))] + PieceChunks(h, ps[1..])
  }

  /** The chunks one section contributes, given its section text. A section
      of more than `maxWords` words is split (a negative `maxWords` gives an
      empty `range` and so no chunk); any other is kept whole. */
  function SectionChunks(h: Heading, sectionText: string, maxWords: int): seq<Chunk>
    requires maxWords != 0
  {
    var ws := Words(sectionText);
    if |ws| > maxWords then
      if maxWords < 0 then [] else PieceChunks(h, Pieces(ws, maxWords))
    else [Chunk(h.section, Strip(h.rawTitle), sectionText)]
  }

  /** The chunks of the first `count` sections, in heading order. */
  function ChunksUpTo(text: string, headings: seq<Heading>, maxWords: int, count: nat): seq<Chunk>
    requires maxWords != 0 && count <= |headings|
  {
    if count == 0 then []
    else
      ChunksUpTo(text, headings, maxWords, count - 1)
      + SectionChunks(headings[count - 1], SectionText(RawBody(text, headings, count - 1)), maxWords)
  }

  /** One step of the splitting loop: the first piece of `ws[j..]` is
      `ws[j:j+m]`, and the rest are the pieces of what follows it. */
  lemma PiecesStep(ws: seq<string>, j: nat, m: nat)
    requires m > 0 && j < |ws|
    ensures var end := if j + m <= |ws| then j + m else |ws|;
      Pieces(ws[j..], m) == [ws[j..end]] + Pieces(ws[end..], m)
  {
    var end := if j + m <= |ws| then j + m else |ws|;
    if |ws[j..]| > m {
      assert ws[j..][..m] == ws[j..end];
      assert ws[j..][m..] == ws[end..];
    } else {
      assert ws[j..] == ws[j..end];
      assert ws[end..] == [];
    }
  }

  lemma PieceChunksCons(h: Heading, p: seq<string>, ps: seq<seq<string>>)
    ensures PieceChunks(h, [p] + ps) == [Chunk(h.section, Strip(h.rawTitle), Join(p, " "))] + PieceChunks(h, ps)
  {
    assert ([p] + ps)[1..] == ps;
  }

  /** The inner loop over `range(0, len(words), max_words)` for a positive
      `max_words`: one chunk of `words[j:j+max_words]` per step. */
  method SplitSection(h: Heading, words: seq<string>, maxWords: nat) returns (chunks: seq<Chunk>)
    requires maxWords > 0
    ensures chunks == PieceChunks(h, Pieces(words, maxWords))
  {
    chunks := [];
    var title := Strip(h.rawTitle);
    var j := 0;
    while j < |words|
      invariant 0 <= j <= |words|
      invariant chunks + PieceChunks(h, Pieces(words[j..], maxWords)) == PieceChunks(h, Pieces(words, maxWords))
      decreases |words| - j
    {
      var end := if j + maxWords <= |words| then j + maxWords else |words|;
      PiecesStep(words, j, maxWords);
      PieceChunksCons(h, words[j..end], Pieces(words[end..], maxWords));
      var chunk := Chunk(h.section, title, Join(words[j..end], " "));
      ghost var rest := PieceChunks(h, Pieces(words[end..], maxWords));
      assert PieceChunks(h, Pieces(words[j..], maxWords)) == [chunk] + rest;
      AppendAssociates(chunks, [chunk], rest);
      chunks := chunks + [chunk];
      j := end;
    }
    assert words[j..] == [];
  }

  /** What `chunk_text` does to one section body: clean it, and put the
      placeholder in place of an empty result. */
  method CleanSection(raw: string) returns (sectionText: string)
    ensures sectionText == SectionText(raw)
  {
    sectionText := CleanBody(raw);
    if sectionText == [] {
      sectionText := NoTextPlaceholder;
    }
  }

  /** `chunk_text(text, max_words)`. With `max_words == 0` and at least one
      heading, `range(0, len(words), 0)` raises ValueError. */
  method ChunkText(text: string, headings: seq<Heading>, maxWords: int) returns (r: Result<seq<Chunk>, string>)
    ensures r.Failure? <==> maxWords == 0 && |headings| > 0
    ensures r.Success? && maxWords != 0 ==> r.value == ChunksUpTo(text, headings, maxWords, |headings|)
    ensures r.Success? && maxWords == 0 ==> r.value == []
  {
    var chunks: seq<Chunk> := [];
    for i := 0 to |headings|
      invariant maxWords == 0 ==> i == 0 && chunks == []
      invariant maxWords != 0 ==> chunks == ChunksUpTo(text, headings, maxWords, i)
    {
      var h := headings[i];
      var title := Strip(h.rawTitle);
      var sectionText := CleanSection(Slice(text, h.end, BodyEnd(text, headings, i)));
      ghost var expected := if maxWords == 0 then [] else SectionChunks(h, sectionText, maxWords);
      assert maxWords != 0 ==> ChunksUpTo(text, headings, maxWords, i + 1) == chunks + expected;
      var words := Words(sectionText);
      WordsNonEmpty(sectionText);
      ghost var previous := chunks;
      if |words| > maxWords {
        if maxWords == 0 {
          return Failure("range() arg 3 must not be zero");
        }
        // for j in range(0, len(words), max_words): empty when max_words < 0
        if maxWords > 0 {
          var pieces := SplitSection(h, words, maxWords);
          chunks := chunks + pieces;
        }
      } else {
        chunks := chunks + [Chunk(h.section, title, sectionText)];
      }
      assert chunks == previous + expected;
    }
    return Success(chunks);
  }

  // ---------------------------------------------------------------------
  // Properties

  /** Everything `WordsOf` the chunk texts, in chunk order. */
  function WordsOfChunks(cs: seq<Chunk>): seq<string> {
    if |cs| == 0 then [] else Words(cs[0].text) + WordsOfChunks(cs[1..])
  }

  /** The pieces of a word list are non-empty, all but the last hold exactly
      `m` words, the last holds between 1 and `m`, there are ceil(n/m) of
      them, and in order they make up the list again. */
  lemma PiecesShape(ws: seq<string>, m: nat)
    requires m > 0
    ensures var ps := Pieces(ws, m);
      && (forall k :: 0 <= k < |ps| - 1 ==> |ps[k]| == m)
      && (|ps| > 0 ==> 1 <= |ps[|ps| - 1]| <= m)
      && (|ps| - 1) * m < |ws| + (if ws == [] then m else 0) && |ws| <= |ps| * m
      && Flatten(ps) == ws
  {
    PiecesSizes(ws, m);
    PiecesCount(ws, m);
    PiecesFlatten(ws, m);
  }

  lemma {:induction false} PiecesSizes(ws: seq<string>, m: nat)
    requires m > 0
    ensures var ps := Pieces(ws, m);
      && (forall k :: 0 <= k < |ps| - 1 ==> |ps[k]| == m)
      && (|ps| > 0 ==> 1 <= |ps[|ps| - 1]| <= m)
    decreases |ws|
  {
    if |ws| > m {
      PiecesSizes(ws[m..], m);
      var ps := Pieces(ws, m);
      var rest := Pieces(ws[m..], m);
      assert ps == [ws[..m]] + rest;
      forall k | 0 <= k < |ps| - 1 ensures |ps[k]| == m {
        if k > 0 {
          assert ps[k] == rest[k - 1];
        }
      }
      assert ps[|ps| - 1] == rest[|rest| - 1];
    }
  }

  lemma {:induction false} PiecesCount(ws: seq<string>, m: nat)
    requires m > 0
    ensures var n := |Pieces(ws, m)|;
      (n - 1) * m < |ws| + (if ws == [] then m else 0) && |ws| <= n * m
    decreases |ws|
  {
    if |ws| > m {
      PiecesCount(ws[m..], m);
      assert |Pieces(ws, m)| == 1 + |Pieces(ws[m..], m)|;
      PieceCount(|ws|, |Pieces(ws[m..], m)|, m);
    }
  }

  lemma {:induction false} PiecesFlatten(ws: seq<string>, m: nat)
    requires m > 0
    ensures Flatten(Pieces(ws, m)) == ws
    decreases |ws|
  {
    if |ws| > m {
      PiecesFlatten(ws[m..], m);
      var ps := Pieces(ws, m);
      assert ps[0] == ws[..m] && ps[1..] == Pieces(ws[m..], m);
      assert ws[..m] + ws[m..] == ws;
    } else if |ws| > 0 {
      assert Flatten([ws]) == ws + [];
    }
  }

  /** The arithmetic of one step of `PiecesShape`: m more words, one more piece. */
  lemma PieceCount(n: nat, r: nat, m: nat)
    requires m > 0 && n > m && r > 0
    requires (r - 1) * m < n - m && n - m <= r * m
    ensures r * m < n && n <= (r + 1) * m
  {
    assert (r + 1) * m == r * m + m;
    assert (r - 1) * m == r * m - m;
  }

  lemma {:induction false} PiecesHoldWords(ws: seq<string>, m: nat)
    requires m > 0
    ensures forall k, w :: 0 <= k < |Pieces(ws, m)| && w in Pieces(ws, m)[k] ==> w in ws
    decreases |ws|
  {
    if |ws| > m {
      PiecesHoldWords(ws[m..], m);
      var ps := Pieces(ws, m);
      forall k, w | 0 <= k < |ps| && w in ps[k] ensures w in ws {
        var i :| 0 <= i < |ps[k]| && ps[k][i] == w;
        if k == 0 {
          assert ws[i] == w;
        } else {
          assert ps[k] == Pieces(ws[m..], m)[k - 1];
          assert w in ws[m..];
        }
      }
    }
  }

  lemma {:induction false} WordsOfPieceChunks(h: Heading, ps: seq<seq<string>>)
    requires forall k, w :: 0 <= k < |ps| && w in ps[k] ==> IsWord(w)
    ensures WordsOfChunks(PieceChunks(h, ps)) == Flatten(ps)
    ensures forall k :: 0 <= k < |ps| ==> Words(PieceChunks(h, ps)[k].text) == ps[k]
  {
    if |ps| > 0 {
      var cs := PieceChunks(h, ps);
      WordsOfJoin(ps[0]);
      WordsOfPieceChunks(h, ps[1..]);
      assert cs[1..] == PieceChunks(h, ps[1..]);
      forall k | 0 <= k < |ps| ensures Words(cs[k].text) == ps[k] {
        if k > 0 {
          assert cs[k] == PieceChunks(h, ps[1..])[k - 1];
        }
      }
    }
  }

  /** A section of `n > maxWords` words becomes ceil(n / maxWords) chunks: all
      but the last hold exactly `maxWords` words, the last between 1 and
      `maxWords`, and their words in order are the section's words. */
  lemma LongSectionSplit(h: Heading, sectionText: string, maxWords: int)
    requires maxWords > 0 && |Words(sectionText)| > maxWords
    ensures var cs := SectionChunks(h, sectionText, maxWords);
      var n := |Words(sectionText)|;
      && (|cs| - 1) * maxWords < n <= |cs| * maxWords
      && (forall k :: 0 <= k < |cs| - 1 ==> |Words(cs[k].text)| == maxWords)
      && 1 <= |Words(cs[|cs| - 1].text)| <= maxWords
      && WordsOfChunks(cs) == Words(sectionText)
  {
    var ws := Words(sectionText);
    var ps := Pieces(ws, maxWords);
    PiecesShape(ws, maxWords);
    PiecesHoldWords(ws, maxWords);
    WordsAreWords(sectionText);
    WordsOfPieceChunks(h, ps);
  }

  /** A section of at most `maxWords` words is one chunk whose text is the
      section text exactly as cleaned, inner runs of spaces included. */
  lemma ShortSectionWhole(h: Heading, sectionText: string, maxWords: int)
    requires maxWords != 0 && |Words(sectionText)| <= maxWords
    ensures SectionChunks(h, sectionText, maxWords) == [Chunk(h.section, Strip(h.rawTitle), sectionText)]
  {
  }

  /** Every chunk has a non-empty text without newlines, and its section
      number and title are one of `labels`. */
  predicate CleanChunks(cs: seq<Chunk>, labels: seq<(string, string)>) {
    forall c :: c in cs ==> c.text != [] && '\n' !in c.text && (c.section, c.title) in labels
  }

  /** The chunks of one section have non-empty texts without newlines and
      carry the section's number and stripped title. */
  lemma SectionChunksClean(h: Heading, sectionText: string, maxWords: int)
    requires maxWords != 0 && sectionText != [] && '\n' !in sectionText
    ensures CleanChunks(SectionChunks(h, sectionText, maxWords), [(h.section, Strip(h.rawTitle))])
  {
    var ws := Words(sectionText);
    if |ws| > maxWords && maxWords > 0 {
      var ps := Pieces(ws, maxWords);
      PiecesShape(ws, maxWords);
      PiecesHoldWords(ws, maxWords);
      WordsAreWords(sectionText);
      assert forall k :: 0 <= k < |ps| ==> ps[k] != [];
      assert forall k, w :: 0 <= k < |ps| && w in ps[k] ==> IsWord(w);
      PieceChunksClean(h, ps);
    }
  }

  /** Chunks built from non-empty pieces of words are clean. */
  lemma PieceChunksClean(h: Heading, ps: seq<seq<string>>)
    requires forall k :: 0 <= k < |ps| ==> ps[k] != []
    requires forall k, w :: 0 <= k < |ps| && w in ps[k] ==> IsWord(w)
    ensures CleanChunks(PieceChunks(h, ps), [(h.section, Strip(h.rawTitle))])
  {
    var cs := PieceChunks(h, ps);
    PieceChunksAt(h, ps);
    forall c | c in cs
      ensures c.text != [] && '\n' !in c.text && (c.section, c.title) in [(h.section, Strip(h.rawTitle))]
    {
      var k :| 0 <= k < |cs| && cs[k] == c;
      JoinedWordsClean(ps[k]);
    }
  }

  /** Words joined by single spaces give a non-empty text without newlines. */
  lemma JoinedWordsClean(p: seq<string>)
    requires p != [] && forall w :: w in p ==> IsWord(w)
    ensures Join(p, " ") != [] && '\n' !in Join(p, " ")
  {
    assert IsWord(p[0]);
    JoinNonEmpty(p, " ");
    forall w | w in p ensures '\n' !in w {
      assert IsWord(w);
    }
    JoinAvoids(p, " ", '\n');
  }

  /** The (section number, stripped title) label of each of the first `count` headings. */
  function HeadingLabels(headings: seq<Heading>, count: nat): (labels: seq<(string, string)>)
    requires count <= |headings|
    ensures |labels| == count
  {
    if count == 0 then []
    else HeadingLabels(headings, count - 1) + [(headings[count - 1].section, Strip(headings[count - 1].rawTitle))]
  }

  /** No chunk text is empty or holds a newline, and every chunk carries the
      section number and stripped title of one of the headings before `count`. */
  lemma {:induction false} ChunksAreClean(text: string, headings: seq<Heading>, maxWords: int, count: nat)
    requires maxWords != 0 && count <= |headings|
    ensures CleanChunks(ChunksUpTo(text, headings, maxWords, count), HeadingLabels(headings, count))
  {
    if count > 0 {
      ChunksAreClean(text, headings, maxWords, count - 1);
      var h := headings[count - 1];
      var st := SectionText(RawBody(text, headings, count - 1));
      var before := ChunksUpTo(text, headings, maxWords, count - 1);
      var cs := SectionChunks(h, st, maxWords);
      var labels := HeadingLabels(headings, count - 1);
      var own := [(h.section, Strip(h.rawTitle))];
      SectionChunksClean(h, st, maxWords);
      CleanChunksAppend(before, cs, labels, own);
      assert ChunksUpTo(text, headings, maxWords, count) == before + cs;
      assert HeadingLabels(headings, count) == labels + own;
    }
  }

  lemma CleanChunksAppend(before: seq<Chunk>, cs: seq<Chunk>, labels: seq<(string, string)>, more: seq<(string, string)>)
    requires CleanChunks(before, labels) && CleanChunks(cs, more)
    ensures CleanChunks(before + cs, labels + more)
  {
  }

  lemma {:induction false} PieceChunksAt(h: Heading, ps: seq<seq<string>>)
    ensures forall k :: 0 <= k < |ps| ==> PieceChunks(h, ps)[k] == Chunk(h.section, Strip(h.rawTitle), Join(ps[k], " "))
  {
    if |ps| > 0 {
      PieceChunksAt(h, ps[1..]);
    }
  }

  /** The pieces `re.finditer` and the slicing leave cover the text: the text
      before the first heading, then each heading's own match followed by its
      section body, give back the whole text. */
  function Reassembled(text: string, headings: seq<Heading>, count: nat): string
    requires WellFormed(text, headings) && count <= |headings|
  {
    if count == 0 then []
    else
      var h := headings[count - 1];
      Reassembled(text, headings, count - 1) + text[h.start..h.end] + RawBody(text, headings, count - 1)
  }

  lemma {:induction false} SectionsPartitionText(text: string, headings: seq<Heading>, count: nat)
    requires WellFormed(text, headings) && 0 < count <= |headings|
    ensures text[..headings[0].start] + Reassembled(text, headings, count) == text[..BodyEnd(text, headings, count - 1)]
  {
    var h := headings[count - 1];
    var e := BodyEnd(text, headings, count - 1);
    assert h.start < h.end <= |text|;
    assert h.end <= e <= |text| by {
      if count < |headings| {
        assert h.end <= headings[count].start;
        assert headings[count].start < headings[count].end;
      }
    }
    var before := Reassembled(text, headings, count - 1);
    if count > 1 {
      SectionsPartitionText(text, headings, count - 1);
      assert BodyEnd(text, headings, count - 2) == h.start;
    }
    assert text[..headings[0].start] + before == text[..h.start];
    assert Reassembled(text, headings, count) == before + text[h.start..h.end] + RawBody(text, headings, count - 1);
    assert RawBody(text, headings, count - 1) == text[h.end..e];
    AppendAssociates(text[..headings[0].start], before, text[h.start..h.end]);
    AppendAssociates(text[..headings[0].start], before + text[h.start..h.end], text[h.end..e]);
    SliceJoin(text, h.start, h.end, e);
  }

  /** Three adjacent slices of a string make up its prefix. */
  lemma SliceJoin(t: string, a: nat, b: nat, c: nat)
    requires a <= b <= c <= |t|
    ensures t[..a] + t[a..b] + t[b..c] == t[..c]
  {
    assert t[..a] + t[a..b] == t[..b];
  }
}
