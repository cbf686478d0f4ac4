/** The data handling of seed_db.py: the text of every page is cleaned and
    kept when non-empty, cut into overlapping chunks of words, each chunk
    becomes a vector with an id naming its page and its position, and the
    vectors are sent to the index in batches. Reading the PDF, computing the
    embeddings and the index calls themselves are not modelled: the pages
    are an input and the batches are the output. */
module SeedDb {
  import opened Text
  import opened Slices

  const MaxWords: nat := 400
  const Overlap: nat := 40
  const BatchSize: nat := 100

  // ----- chunking -----

  /** Each window of words joined with single spaces. */
  function JoinEach(windows: seq<seq<string>>): (r: seq<string>)
    ensures |r| == |windows|
    ensures forall k :: 0 <= k < |windows| ==> r[k] == Join(windows[k], " ")
  {
    seq(|windows|, k requires 0 <= k < |windows| => Join(windows[k], " "))
  }

  lemma JoinEachCons(w: seq<string>, rest: seq<seq<string>>)
    ensures JoinEach([w] + rest) == [Join(w, " ")] + JoinEach(rest)
  {
  }

  /** The windows of words `chunk_text` takes: `maxWords` words every
      `maxWords - overlap` words. */
  function WordWindows(words: seq<string>, maxWords: nat, overlap: nat): seq<seq<string>>
    requires overlap < maxWords
  {
    Windows(words, 0, maxWords, maxWords - overlap)
  }

  /** `chunk_text(text, max_words, overlap)`. */
  function Chunks(text: string, maxWords: nat, overlap: nat): seq<string>
    requires overlap < maxWords
  {
    JoinEach(WordWindows(SplitWords(text), maxWords, overlap))
  }

  /** The loop of `chunk_text`. The loop only ends when the step
      `maxWords - overlap` is positive, which is why it is required. */
  method ChunkText(text: string, maxWords: nat, overlap: nat) returns (chunks: seq<string>)
    requires overlap < maxWords
    ensures chunks == Chunks(text, maxWords, overlap)
  {
    var words := SplitWords(text);
    var step := maxWords - overlap;
    chunks := [];
    var i: nat := 0;
    ghost var rest := JoinEach(Windows(words, 0, maxWords, step));
    while i < |words|
      invariant rest == JoinEach(Windows(words, i, maxWords, step))
      invariant chunks + rest == Chunks(text, maxWords, overlap)
      decreases |words| - i
    {
      var chunk := Join(words[i..Min(i + maxWords, |words|)], " ");
      NextChunk(words, i, maxWords, step);
      AppendAssoc(chunks, [chunk], JoinEach(Windows(words, i + step, maxWords, step)));
      chunks := chunks + [chunk];
      i := i + step;
      rest := JoinEach(Windows(words, i, maxWords, step));
    }
    NoChunkLeft(words, i, maxWords, step);
    AppendEmpty(chunks);
  }

  /** No chunk starts past the last word. */
  lemma NoChunkLeft(words: seq<string>, i: nat, maxWords: nat, step: nat)
    requires 0 < step && |words| <= i
    ensures JoinEach(Windows(words, i, maxWords, step)) == []
  {
  }

  /** The chunks from word `i` on are the chunk at `i` followed by those
      a step further. */
  lemma NextChunk(words: seq<string>, i: nat, maxWords: nat, step: nat)
    requires 0 < step && i < |words|
    ensures JoinEach(Windows(words, i, maxWords, step))
      == [Join(words[i..Min(i + maxWords, |words|)], " ")] + JoinEach(Windows(words, i + step, maxWords, step))
  {
    var chunk := words[i..Min(i + maxWords, |words|)];
    assert Windows(words, i, maxWords, step) == [chunk] + Windows(words, i + step, maxWords, step);
    JoinEachCons(chunk, Windows(words, i + step, maxWords, step));
  }

  /** Window `k` is the words from `k * (maxWords - overlap)` on, `maxWords`
      of them or as many as remain; so no chunk has more than `maxWords`
      words, and none is empty. */
  lemma ChunkAt(words: seq<string>, maxWords: nat, overlap: nat, k: nat)
    requires overlap < maxWords && k < |WordWindows(words, maxWords, overlap)|
    ensures k * (maxWords - overlap) < |words|
    ensures WordWindows(words, maxWords, overlap)[k]
         == words[k * (maxWords - overlap)..Min(k * (maxWords - overlap) + maxWords, |words|)]
    ensures 0 < |WordWindows(words, maxWords, overlap)[k]| <= maxWords
  {
    var step := maxWords - overlap;
    WindowAt(words, 0, maxWords, step, k);
    WindowsBounded(words, 0, maxWords, step, k);
  }

  /** There are ceil(n / (maxWords - overlap)) windows of n words. */
  lemma ChunkCount(words: seq<string>, maxWords: nat, overlap: nat)
    requires overlap < maxWords
    ensures var count := |WordWindows(words, maxWords, overlap)|;
      && (|words| == 0 ==> count == 0)
      && (|words| > 0 ==> (count - 1) * (maxWords - overlap) < |words| <= count * (maxWords - overlap))
  {
    WindowsCount(words, 0, maxWords, maxWords - overlap);
  }

  /** A text of white space only has no chunks. */
  lemma BlankTextHasNoChunks(text: string, maxWords: nat, overlap: nat)
    requires overlap < maxWords && AllSpace(Py, text)
    ensures Chunks(text, maxWords, overlap) == []
  {
    assert SplitWords(text) == [];
  }

  /** Every word lies in some window. */
  lemma ChunksCover(words: seq<string>, maxWords: nat, overlap: nat, j: nat)
    requires overlap < maxWords && j < |words|
    ensures exists k :: (0 <= k < |WordWindows(words, maxWords, overlap)|
      && k * (maxWords - overlap) <= j < k * (maxWords - overlap) + |WordWindows(words, maxWords, overlap)[k]|)
  {
    var step := maxWords - overlap;
    WindowsCover(words, 0, maxWords, step, j);
    var k :| 0 <= k < |Windows(words, 0, maxWords, step)|
      && 0 + k * step <= j < 0 + k * step + |Windows(words, 0, maxWords, step)[k]|;
    assert 0 <= k < |WordWindows(words, maxWords, overlap)|
      && k * (maxWords - overlap) <= j < k * (maxWords - overlap) + |WordWindows(words, maxWords, overlap)[k]|;
  }

  /** Consecutive windows share `overlap` words, or what is left of the
      first of them past its first `maxWords - overlap` words. */
  lemma ChunksOverlap(words: seq<string>, maxWords: nat, overlap: nat, k: nat)
    requires overlap < maxWords && k + 1 < |WordWindows(words, maxWords, overlap)|
    ensures var w := WordWindows(words, maxWords, overlap);
      var step := maxWords - overlap;
      && step <= |w[k]| && |w[k]| - step <= |w[k + 1]|
      && w[k][step..] == w[k + 1][..|w[k]| - step]
  {
    WindowsOverlap(words, 0, maxWords, maxWords - overlap, k);
  }

  // ----- pages -----

  /** `page.get_text().replace("\n", " ").strip()`. */
  function CleanPage(page: string): (r: string)
    ensures '\n' !in r
    ensures r == [] || (!IsSpace(Py, r[0]) && !IsSpace(Py, r[|r| - 1]))
    ensures r == [] <==> AllSpace(Py, page)
  {
    var flat := ReplaceChar(page, '\n', " ");
    var r := Trim(flat, Py);
    TrimWithin(flat);
    FlatPointwise(page, flat);
    FlatWhole(page, flat);
    r
  }

  /** A cleaned page is what lies in the page between its leading and its
      trailing white space, with each line break read as a space. */
  lemma CleanPageBetween(page: string)
    ensures FlattenedBetween(page, CleanPage(page))
  {
    var flat := ReplaceChar(page, '\n', " ");
    TrimBetween(flat, Py);
    FlatPointwise(page, flat);
    FlattenedMiddle(page, flat, Trim(flat, Py));
  }

  /** Flattening works character by character. */
  lemma FlatPointwise(page: string, flat: string)
    requires flat == ReplaceChar(page, '\n', " ")
    ensures |flat| == |page| && forall k :: 0 <= k < |page| ==> flat[k] == Flat(page[k])
  {
  }

  /** Flattening leaves an all-space page all space and no other. */
  lemma FlatWhole(page: string, flat: string)
    requires |flat| == |page| && forall k :: 0 <= k < |page| ==> flat[k] == Flat(page[k])
    ensures AllSpace(Py, flat) <==> AllSpace(Py, page)
  {
    FlattenedSpaces(page, flat, 0, |page|);
    assert flat[0..|page|] == flat && page[0..|page|] == page;
  }

  /** `r` is what lies in `page` between a run of leading and a run of
      trailing white space, with each line break read as a space. */
  predicate FlattenedBetween(page: string, r: string)
  {
    exists i :: 0 <= i <= |page| - |r| && AllSpace(Py, page[..i]) && AllSpace(Py, page[i + |r|..])
      && forall k :: 0 <= k < |r| ==> r[k] == Flat(page[i + k])
  }

  /** A character once its line break is read as a space. */
  function Flat(c: char): char
  {
    if c == '\n' then ' ' else c
  }

  lemma FlatSpace(c: char)
    ensures IsSpace(Py, Flat(c)) <==> IsSpace(Py, c)
  {
  }

  /** Replacing line breaks by spaces makes no piece more or less white
      space. */
  lemma FlattenedSpaces(page: string, flat: string, a: nat, b: nat)
    requires |flat| == |page| && forall k :: 0 <= k < |page| ==> flat[k] == Flat(page[k])
    requires a <= b <= |page|
    ensures AllSpace(Py, flat[a..b]) <==> AllSpace(Py, page[a..b])
  {
    forall k | 0 <= k < b - a
      ensures IsSpace(Py, flat[a..b][k]) <==> IsSpace(Py, page[a..b][k])
    {
      assert flat[a..b][k] == Flat(page[a + k]) && page[a..b][k] == page[a + k];
      FlatSpace(page[a + k]);
    }
  }

  /** The middle piece of a flattened page, located in the page. */
  lemma FlattenedMiddle(page: string, flat: string, r: string)
    requires |flat| == |page| && forall k :: 0 <= k < |page| ==> flat[k] == Flat(page[k])
    requires Between(flat, r, Py)
    ensures FlattenedBetween(page, r)
  {
    var i :| 0 <= i <= |flat| - |r| && r == flat[i..i + |r|] && AllSpace(Py, flat[..i]) && AllSpace(Py, flat[i + |r|..]);
    FlattenedEnds(page, flat, i, i + |r|);
    FlattenedPiece(page, flat, r, i);
    assert AllSpace(Py, page[..i]) && AllSpace(Py, page[i + |r|..]) && forall k :: 0 <= k < |r| ==> r[k] == Flat(page[i + k]);
  }

  /** The white space before and after a piece of a flattened page is white
      space in the page. */
  lemma FlattenedEnds(page: string, flat: string, i: nat, j: nat)
    requires |flat| == |page| && forall k :: 0 <= k < |page| ==> flat[k] == Flat(page[k])
    requires i <= j <= |page| && AllSpace(Py, flat[..i]) && AllSpace(Py, flat[j..])
    ensures AllSpace(Py, page[..i]) && AllSpace(Py, page[j..])
  {
    assert flat[..i] == flat[0..i] && page[..i] == page[0..i];
    FlattenedSpaces(page, flat, 0, i);
    assert flat[j..] == flat[j..|page|] && page[j..] == page[j..|page|];
    FlattenedSpaces(page, flat, j, |page|);
  }

  /** A piece of a flattened page is the flattened piece of the page. */
  lemma FlattenedPiece(page: string, flat: string, r: string, i: nat)
    requires |flat| == |page| && forall k :: 0 <= k < |page| ==> flat[k] == Flat(page[k])
    requires i + |r| <= |flat| && r == flat[i..i + |r|]
    ensures forall k :: 0 <= k < |r| ==> r[k] == Flat(page[i + k])
  {
    forall k | 0 <= k < |r|
      ensures r[k] == Flat(page[i + k])
    {
      assert r[k] == flat[i + k];
    }
  }

  lemma TrimWithin(s: string)
    requires '\n' !in s
    ensures '\n' !in Trim(s, Py)
  {
    var t := TrimStart(s, Py);
    assert forall c :: c in t ==> c in s;
    var r := TrimEnd(t, Py);
    assert forall c :: c in r ==> c in t;
  }

  /** The id of the page numbered `n` (from 1). */
  function PageId(n: nat): string
  {
    "page_" + NatToString(n)
  }

  datatype PageText = PageText(id: string, text: string)

  /** The cleaned text of every page, in page order. */
  function CleanPages(pages: seq<string>): (r: seq<string>)
    ensures |r| == |pages|
    ensures forall i :: 0 <= i < |pages| ==> r[i] == CleanPage(pages[i])
  {
    seq(|pages|, i requires 0 <= i < |pages| => CleanPage(pages[i]))
  }

  /** The non-empty texts among `cleaned`, each with the id of its page
      number (its position from 1). */
  function KeptTexts(cleaned: seq<string>): seq<PageText>
    decreases |cleaned|
  {
    if cleaned == [] then []
    else
      var n := |cleaned|;
      KeptTexts(cleaned[..n - 1]) + (if cleaned[n - 1] != "" then [PageText(PageId(n), cleaned[n - 1])] else [])
  }

  /** The `texts` list: the pages with some text left once cleaned, each
      with the id of its number. */
  function PageTexts(pages: seq<string>): seq<PageText>
  {
    KeptTexts(CleanPages(pages))
  }

  /** The numbers of the pages among `cleaned` that are kept. */
  function KeptPages(cleaned: seq<string>): seq<nat>
    decreases |cleaned|
  {
    if cleaned == [] then []
    else
      var n := |cleaned|;
      KeptPages(cleaned[..n - 1]) + (if cleaned[n - 1] != "" then [n] else [])
  }

  /** The loop over the pages of the document. */
  method ExtractPageTexts(pages: seq<string>) returns (texts: seq<PageText>)
    ensures texts == PageTexts(pages)
  {
    texts := [];
    for i := 0 to |pages|
      invariant texts == KeptTexts(CleanPages(pages[..i]))
    {
      assert CleanPages(pages[..i + 1])[..i] == CleanPages(pages[..i]);
      var text := CleanPage(pages[i]);
      if text != "" {
        texts := texts + [PageText(PageId(i + 1), text)];
      }
    }
    assert pages[..|pages|] == pages;
  }

  /** Kept page numbers are page numbers, in strictly increasing order. */
  lemma {:induction false} KeptPagesIncrease(cleaned: seq<string>)
    ensures forall k :: 0 <= k < |KeptPages(cleaned)| ==> 1 <= KeptPages(cleaned)[k] <= |cleaned|
    ensures forall k, l :: 0 <= k < l < |KeptPages(cleaned)| ==> KeptPages(cleaned)[k] < KeptPages(cleaned)[l]
    decreases |cleaned|
  {
    if cleaned != [] {
      var n := |cleaned|;
      var prev := KeptPages(cleaned[..n - 1]);
      KeptPagesIncrease(cleaned[..n - 1]);
      var kept := KeptPages(cleaned);
      assert kept == prev + (if cleaned[n - 1] != "" then [n] else []);
      assert |cleaned[..n - 1]| == n - 1;
      assert forall k :: 0 <= k < |prev| ==> 1 <= prev[k] <= n - 1;
      assert forall k :: 0 <= k < |prev| ==> kept[k] == prev[k];
    }
  }

  /** A page is kept exactly when its cleaned text is not empty. */
  lemma {:induction false} KeptPagesComplete(cleaned: seq<string>, m: nat)
    requires 1 <= m <= |cleaned|
    ensures m in KeptPages(cleaned) <==> cleaned[m - 1] != ""
    decreases |cleaned|
  {
    var n := |cleaned|;
    var prev := cleaned[..n - 1];
    KeptPagesIncrease(prev);
    if m < n {
      KeptPagesComplete(prev, m);
      assert prev[m - 1] == cleaned[m - 1];
    }
  }

  /** Entry `k` of the list is kept page `k`, with its id and its text. */
  lemma {:induction false} KeptTextsAreKeptPages(cleaned: seq<string>)
    ensures |KeptTexts(cleaned)| == |KeptPages(cleaned)|
    ensures forall k :: 0 <= k < |KeptPages(cleaned)| ==>
      (&& 1 <= KeptPages(cleaned)[k] <= |cleaned|
       && KeptTexts(cleaned)[k] == PageText(PageId(KeptPages(cleaned)[k]), cleaned[KeptPages(cleaned)[k] - 1]))
    decreases |cleaned|
  {
    if cleaned != [] {
      var n := |cleaned|;
      var prev := cleaned[..n - 1];
      KeptTextsAreKeptPages(prev);
      var kept := KeptPages(cleaned);
      var texts := KeptTexts(cleaned);
      var kept' := KeptPages(prev);
      var texts' := KeptTexts(prev);
      if cleaned[n - 1] != "" {
        assert kept == kept' + [n];
        assert texts == texts' + [PageText(PageId(n), cleaned[n - 1])];
      } else {
        assert kept == kept' && texts == texts';
      }
      forall k | 0 <= k < |kept|
        ensures 1 <= kept[k] <= n && texts[k] == PageText(PageId(kept[k]), cleaned[kept[k] - 1])
      {
        if k < |kept'| {
          assert kept[k] == kept'[k] && texts[k] == texts'[k];
          assert prev[kept'[k] - 1] == cleaned[kept'[k] - 1];
        }
      }
    }
  }

  /** The numbers of the pages of a document that are kept. */
  function DocumentPages(pages: seq<string>): seq<nat>
  {
    KeptPages(CleanPages(pages))
  }

  /** The document's list holds exactly the pages with text left once
      cleaned, in page order, each under the id of its number and with its
      cleaned text, which is not empty and has no line breaks. */
  lemma PageTextsAreKeptPages(pages: seq<string>)
    ensures |PageTexts(pages)| == |DocumentPages(pages)|
    ensures forall k :: 0 <= k < |DocumentPages(pages)| ==>
      (&& 1 <= DocumentPages(pages)[k] <= |pages|
       && PageTexts(pages)[k] == PageText(PageId(DocumentPages(pages)[k]), CleanPage(pages[DocumentPages(pages)[k] - 1]))
       && PageTexts(pages)[k].text != "" && '\n' !in PageTexts(pages)[k].text)
    ensures forall k, l :: 0 <= k < l < |DocumentPages(pages)| ==> DocumentPages(pages)[k] < DocumentPages(pages)[l]
    ensures forall m :: 1 <= m <= |pages| ==> (m in DocumentPages(pages) <==> CleanPage(pages[m - 1]) != "")
  {
    var cleaned := CleanPages(pages);
    var kept := KeptPages(cleaned);
    var texts := KeptTexts(cleaned);
    KeptTextsAreKeptPages(cleaned);
    KeptPagesIncrease(cleaned);
    forall k | 0 <= k < |kept| ensures texts[k].text != "" {
      KeptPagesComplete(cleaned, kept[k]);
    }
    forall m | 1 <= m <= |pages| ensures m in kept <==> CleanPage(pages[m - 1]) != "" {
      KeptPagesComplete(cleaned, m);
    }
  }

  /** Page ids are distinct: distinct page numbers give distinct ids. */
  lemma PageIdInjective(a: nat, b: nat)
    requires PageId(a) == PageId(b)
    ensures a == b
  {
    assert PageId(a)[5..] == NatToString(a) && PageId(b)[5..] == NatToString(b);
    NatToStringInjective(a, b);
  }

  // ----- vectors -----

  /** A vector to upsert: its id and its metadata `{page, text}`. The
      embedding values are not modelled. */
  datatype Vector = Vector(id: string, page: string, text: string)

  /** `f"{page_id}_chunk_{i}"`. */
  function ChunkId(pageId: string, i: nat): string
  {
    pageId + "_chunk_" + NatToString(i)
  }

  /** The vectors of one page, one per chunk, in chunk order. */
  function PageVectors(p: PageText): (r: seq<Vector>)
    ensures var chunks := Chunks(p.text, MaxWords, Overlap);
      |r| == |chunks|
      && forall i :: 0 <= i < |r| ==> r[i] == Vector(ChunkId(p.id, i), p.id, chunks[i])
  {
    var chunks := Chunks(p.text, MaxWords, Overlap);
    seq(|chunks|, i requires 0 <= i < |chunks| => Vector(ChunkId(p.id, i), p.id, chunks[i]))
  }

  /** The `vectors` list: the vectors of every page, page after page. */
  function VectorsOf(texts: seq<PageText>): seq<Vector>
    decreases |texts|
  {
    if texts == [] then [] else VectorsOf(texts[..|texts| - 1]) + PageVectors(texts[|texts| - 1])
  }

  /** The inner loop of the vector building: the vectors of one page are
      appended, chunk after chunk. */
  method AppendPageVectors(vectors: seq<Vector>, page: PageText) returns (r: seq<Vector>)
    ensures r == vectors + PageVectors(page)
  {
    var chunks := ChunkText(page.text, MaxWords, Overlap);
    ghost var all := PageVectors(page);
    assert |all| == |chunks|;
    r := vectors;
    for i := 0 to |chunks|
      invariant r == vectors + all[..i]
    {
      assert all[i] == Vector(ChunkId(page.id, i), page.id, chunks[i]);
      PrefixGrows(all, i);
      AppendAssoc(vectors, all[..i], [all[i]]);
      r := r + [Vector(ChunkId(page.id, i), page.id, chunks[i])];
    }
    WholePrefix(all);
  }

  /** The nested loops that build the vectors. */
  method BuildVectors(texts: seq<PageText>) returns (vectors: seq<Vector>)
    ensures vectors == VectorsOf(texts)
  {
    vectors := [];
    for t := 0 to |texts|
      invariant vectors == VectorsOf(texts[..t])
    {
      assert texts[..t + 1][..t] == texts[..t];
      vectors := AppendPageVectors(vectors, texts[t]);
    }
    assert texts[..|texts|] == texts;
  }

  /** A chunk id names its page and its position: the page number and the
      chunk index can be read back from it. */
  lemma ChunkIdInjective(a: nat, i: nat, b: nat, j: nat)
    requires ChunkId(PageId(a), i) == ChunkId(PageId(b), j)
    ensures a == b && i == j
  {
    var da, ni := NatToString(a), NatToString(i);
    var db, nj := NatToString(b), NatToString(j);
    var sep := "_chunk_";
    ChunkIdParts(da, ni);
    ChunkIdParts(db, nj);
    CancelPrefix("page_", da + (sep + ni), db + (sep + nj));
    DigitsThenRest(da, sep + ni, db, sep + nj);
    CancelPrefix(sep, ni, nj);
    NatToStringInjective(a, b);
    NatToStringInjective(i, j);
  }

  /** A chunk id is `page_`, the page number, `_chunk_` and the index. */
  lemma ChunkIdParts(page: string, index: string)
    ensures ("page_" + page) + "_chunk_" + index == "page_" + (page + ("_chunk_" + index))
  {
    AppendAssoc("page_", page, "_chunk_");
    AppendAssoc("page_", page + "_chunk_", index);
    AppendAssoc(page, "_chunk_", index);
  }

  /** Every vector names a page of the list and a chunk position. */
  lemma {:induction false} VectorsNamed(texts: seq<PageText>, x: nat)
    requires x < |VectorsOf(texts)|
    ensures exists k, i :: (0 <= k < |texts| && VectorsOf(texts)[x].page == texts[k].id
      && VectorsOf(texts)[x].id == ChunkId(texts[k].id, i))
    decreases |texts|
  {
    var n := |texts|;
    var prev := VectorsOf(texts[..n - 1]);
    assert VectorsOf(texts) == prev + PageVectors(texts[n - 1]);
    var v := VectorsOf(texts)[x];
    if x < |prev| {
      VectorsNamed(texts[..n - 1], x);
      var k, i :| 0 <= k < n - 1 && prev[x].page == texts[..n - 1][k].id
        && prev[x].id == ChunkId(texts[..n - 1][k].id, i);
      assert v == prev[x];
      assert texts[..n - 1][k] == texts[k];
    } else {
      var i := x - |prev|;
      assert v == PageVectors(texts[n - 1])[i];
      assert v.page == texts[n - 1].id && v.id == ChunkId(texts[n - 1].id, i);
    }
  }

  /** No two vectors share an id. */
  predicate DistinctIds(vs: seq<Vector>)
  {
    forall x, y :: 0 <= x < y < |vs| ==> vs[x].id != vs[y].id
  }

  lemma DistinctIdsAppend(a: seq<Vector>, b: seq<Vector>)
    requires DistinctIds(a) && DistinctIds(b)
    requires forall x, y :: 0 <= x < |a| && 0 <= y < |b| ==> a[x].id != b[y].id
    ensures DistinctIds(a + b)
  {
    var ab := a + b;
    forall x, y | 0 <= x < y < |ab| ensures ab[x].id != ab[y].id {
      if y < |a| {
        assert ab[x] == a[x] && ab[y] == a[y];
      } else if x >= |a| {
        assert ab[x] == b[x - |a|] && ab[y] == b[y - |a|];
      } else {
        assert ab[x] == a[x] && ab[y] == b[y - |a|];
      }
    }
  }

  /** The vectors of one page have distinct ids. */
  lemma PageVectorIdsDistinct(p: PageText, number: nat)
    requires p.id == PageId(number)
    ensures DistinctIds(PageVectors(p))
  {
    var pv := PageVectors(p);
    forall i, j | 0 <= i < j < |pv| ensures pv[i].id != pv[j].id {
      if pv[i].id == pv[j].id {
        ChunkIdInjective(number, i, number, j);
      }
    }
  }

  /** A vector of an earlier page and one of a later page have different
      ids. */
  lemma EarlierPageIdsDiffer(texts: seq<PageText>, numbers: seq<nat>, last: PageText, lastNumber: nat)
    requires |numbers| == |texts|
    requires forall k :: 0 <= k < |texts| ==> texts[k].id == PageId(numbers[k]) && numbers[k] < lastNumber
    requires last.id == PageId(lastNumber)
    ensures forall x, j :: 0 <= x < |VectorsOf(texts)| && 0 <= j < |PageVectors(last)| ==>
      VectorsOf(texts)[x].id != PageVectors(last)[j].id
  {
    var vs := VectorsOf(texts);
    var pv := PageVectors(last);
    forall x, j | 0 <= x < |vs| && 0 <= j < |pv| ensures vs[x].id != pv[j].id {
      VectorsNamed(texts, x);
      var k, i :| 0 <= k < |texts| && vs[x].page == texts[k].id && vs[x].id == ChunkId(texts[k].id, i);
      if vs[x].id == pv[j].id {
        ChunkIdInjective(numbers[k], i, lastNumber, j);
      }
    }
  }

  /** With pages numbered by strictly increasing numbers, no two vectors
      share an id. */
  lemma {:induction false} VectorIdsDistinct(texts: seq<PageText>, numbers: seq<nat>)
    requires |numbers| == |texts|
    requires forall k :: 0 <= k < |texts| ==> texts[k].id == PageId(numbers[k])
    requires forall k, l :: 0 <= k < l < |numbers| ==> numbers[k] < numbers[l]
    ensures DistinctIds(VectorsOf(texts))
    decreases |texts|
  {
    if texts != [] {
      var n := |texts|;
      var prevTexts := texts[..n - 1];
      var prevNumbers := numbers[..n - 1];
      VectorIdsDistinct(prevTexts, prevNumbers);
      forall k | 0 <= k < n - 1
        ensures prevTexts[k].id == PageId(prevNumbers[k]) && prevNumbers[k] < numbers[n - 1]
      {
        assert prevTexts[k] == texts[k] && prevNumbers[k] == numbers[k];
      }
      NextPageIdsDistinct(prevTexts, prevNumbers, texts[n - 1], numbers[n - 1]);
    }
  }

  /** The vectors of one more page, numbered above every earlier page, keep
      the ids distinct. */
  lemma NextPageIdsDistinct(texts: seq<PageText>, numbers: seq<nat>, last: PageText, lastNumber: nat)
    requires DistinctIds(VectorsOf(texts))
    requires |numbers| == |texts|
    requires forall k :: 0 <= k < |texts| ==> texts[k].id == PageId(numbers[k]) && numbers[k] < lastNumber
    requires last.id == PageId(lastNumber)
    ensures DistinctIds(VectorsOf(texts + [last]))
  {
    ButLastOfAppend(texts, last);
    assert VectorsOf(texts + [last]) == VectorsOf(texts) + PageVectors(last);
    PageVectorIdsDistinct(last, lastNumber);
    EarlierPageIdsDiffer(texts, numbers, last, lastNumber);
    DistinctIdsAppend(VectorsOf(texts), PageVectors(last));
  }

  /** The vectors of a document have distinct ids. */
  lemma DocumentVectorIdsDistinct(pages: seq<string>)
    ensures DistinctIds(VectorsOf(PageTexts(pages)))
  {
    PageTextsAreKeptPages(pages);
    VectorIdsDistinct(PageTexts(pages), DocumentPages(pages));
  }

  // ----- batches -----

  /** The batch loop: `vectors[i:i+BATCH_SIZE]` for `i` in
      `range(0, len(vectors), BATCH_SIZE)`, each handed to the index. */
  method UpsertBatches(vectors: seq<Vector>) returns (batches: seq<seq<Vector>>)
    ensures batches == Windows(vectors, 0, BatchSize, BatchSize)
  {
    batches := [];
    var i := 0;
    while i < |vectors|
      invariant batches + Windows(vectors, i, BatchSize, BatchSize) == Windows(vectors, 0, BatchSize, BatchSize)
      decreases |vectors| - i
    {
      batches := batches + [vectors[i..Min(i + BatchSize, |vectors|)]];
      i := i + BatchSize;
    }
  }

  /** The batches partition the vectors in order; each holds between one
      and 100 vectors, and all but the last hold exactly 100. */
  lemma BatchesPartition(vectors: seq<Vector>)
    ensures var batches := Windows(vectors, 0, BatchSize, BatchSize);
      && Flatten(batches) == vectors
      && (forall k :: 0 <= k < |batches| ==> 0 < |batches[k]| <= BatchSize)
      && (forall k :: 0 <= k < |batches| - 1 ==> |batches[k]| == BatchSize)
  {
    WindowsPartition(vectors, 0, BatchSize);
    var batches := Windows(vectors, 0, BatchSize, BatchSize);
    forall k | 0 <= k < |batches| ensures 0 < |batches[k]| <= BatchSize {
      WindowsBounded(vectors, 0, BatchSize, BatchSize, k);
    }
    forall k | 0 <= k < |batches| - 1 ensures |batches[k]| == BatchSize {
      WindowsFullButLast(vectors, 0, BatchSize, k);
    }
  }
}
