/** The corpus builder of rag/ingest.py: PDF files become pages, non-blank
    pages become chunks, and every chunk becomes one entry of three parallel
    lists (texts, metadata, ids) with ids drawn from one global counter. */
module Corpus {
  import opened Results
  import opened Seqs
  import opened Text
  import opened Config
  import opened Chunker

  /** What the PDF reader yields for one file: its name, the text of each
      page in order, and, when reading raises, the index of the page at
      which it did (0 when the file cannot be opened at all). */
  datatype PdfFile = PdfFile(name: string, pageTexts: seq<string>, failsAt: Option<nat>)

  /** A page kept for chunking; `num` counts from 1 over all pages of the file. */
  datatype Page = Page(num: nat, text: string)

  /** The metadata stored beside each chunk. */
  datatype Metadata = Metadata(source: string, page: nat, chunkIndex: nat)

  /** One chunk with its metadata, before it is given an id. */
  datatype Entry = Entry(text: string, meta: Metadata)

  /** How many pages are read before the reader stops. */
  function PagesRead(f: PdfFile): nat
  {
    match f.failsAt
    case None => |f.pageTexts|
    case Some(k) => Min(k, |f.pageTexts|)
  }

  /** The pages among `texts`, numbered from `first`, whose text is not blank. */
  function NonBlankPages(texts: seq<string>, first: nat): seq<Page>
    decreases |texts|
  {
    if |texts| == 0 then []
    else if IsBlank(texts[0]) then NonBlankPages(texts[1..], first + 1)
    else [Page(first, texts[0])] + NonBlankPages(texts[1..], first + 1)
  }

  /** `p` is the page numbered `p.num` of `texts` (numbered from `first`),
      and it is not blank. */
  ghost predicate KeptFrom(texts: seq<string>, first: nat, p: Page)
  {
    first <= p.num < first + |texts| && p.text == texts[p.num - first] && !IsBlank(p.text)
  }

  /** Every kept page is a non-blank page of `texts` under its own number. */
  lemma {:induction false} NonBlankPagesSound(texts: seq<string>, first: nat)
    ensures forall p :: p in NonBlankPages(texts, first) ==> KeptFrom(texts, first, p)
    decreases |texts|
  {
    if |texts| > 0 {
      var tail := texts[1..];
      NonBlankPagesSound(tail, first + 1);
      forall p | KeptFrom(tail, first + 1, p)
        ensures KeptFrom(texts, first, p)
      {
        assert tail[p.num - (first + 1)] == texts[p.num - first];
      }
    }
  }

  /** Every non-blank page of `texts` is kept. */
  lemma {:induction false} NonBlankPagesComplete(texts: seq<string>, first: nat)
    ensures forall i :: 0 <= i < |texts| && !IsBlank(texts[i]) ==> Page(first + i, texts[i]) in NonBlankPages(texts, first)
    decreases |texts|
  {
    if |texts| > 0 {
      var tail := texts[1..];
      NonBlankPagesComplete(tail, first + 1);
      forall i | 1 <= i < |texts| && !IsBlank(texts[i])
        ensures Page(first + i, texts[i]) in NonBlankPages(texts, first)
      {
        assert tail[i - 1] == texts[i];
      }
    }
  }

  /** Strictly increasing page numbers. */
  ghost predicate PageOrder(pages: seq<Page>)
  {
    forall i, j :: 0 <= i < j < |pages| ==> pages[i].num < pages[j].num
  }

  /** Kept pages are in increasing page order. */
  lemma {:induction false} NonBlankPagesOrdered(texts: seq<string>, first: nat)
    ensures PageOrder(NonBlankPages(texts, first))
    decreases |texts|
  {
    if |texts| > 0 {
      var rest := NonBlankPages(texts[1..], first + 1);
      NonBlankPagesOrdered(texts[1..], first + 1);
      NonBlankPagesSound(texts[1..], first + 1);
      assert forall i :: 0 <= i < |rest| ==> KeptFrom(texts[1..], first + 1, rest[i]);
      if IsBlank(texts[0]) {
        assert NonBlankPages(texts, first) == rest;
      } else {
        var pages := [Page(first, texts[0])] + rest;
        assert NonBlankPages(texts, first) == pages;
        assert PageOrder(rest);
        forall i, j | 0 <= i < j < |pages|
          ensures pages[i].num < pages[j].num
        {
          assert pages[j] == rest[j - 1];
          if i > 0 {
            assert pages[i] == rest[i - 1];
          }
        }
      }
    }
  }

  /** `extract_text_from_pdf`: the non-blank pages read before any error,
      numbered from 1. A reading error keeps the pages read so far. */
  function ExtractPages(f: PdfFile): (pages: seq<Page>)
    ensures forall i :: 0 <= i < |pages| ==>
      && 1 <= pages[i].num <= PagesRead(f)
      && pages[i].text == f.pageTexts[pages[i].num - 1]
      && !IsBlank(pages[i].text)
    ensures forall n :: 0 <= n < PagesRead(f) && !IsBlank(f.pageTexts[n]) ==> Page(n + 1, f.pageTexts[n]) in pages
    ensures PageOrder(pages)
  {
    ExtractFacts(f.pageTexts[..PagesRead(f)], f);
    NonBlankPages(f.pageTexts[..PagesRead(f)], 1)
  }

  /** The facts `ExtractPages` promises, about the pages read from `f`. */
  lemma ExtractFacts(read: seq<string>, f: PdfFile)
    requires read == f.pageTexts[..PagesRead(f)]
    ensures forall i :: 0 <= i < |NonBlankPages(read, 1)| ==>
      && 1 <= NonBlankPages(read, 1)[i].num <= PagesRead(f)
      && NonBlankPages(read, 1)[i].text == f.pageTexts[NonBlankPages(read, 1)[i].num - 1]
      && !IsBlank(NonBlankPages(read, 1)[i].text)
    ensures forall n :: 0 <= n < PagesRead(f) && !IsBlank(f.pageTexts[n]) ==> Page(n + 1, f.pageTexts[n]) in NonBlankPages(read, 1)
    ensures PageOrder(NonBlankPages(read, 1))
  {
    NonBlankPagesSound(read, 1);
    forall i | 0 <= i < |NonBlankPages(read, 1)|
      ensures KeptFrom(read, 1, NonBlankPages(read, 1)[i])
    {
      assert NonBlankPages(read, 1)[i] in NonBlankPages(read, 1);
    }
    NonBlankPagesComplete(read, 1);
    NonBlankPagesOrdered(read, 1);
  }

  /** The chunks of one page, each tagged with its file, page and position
      within the page. */
  function PageEntries(source: string, page: Page): seq<Entry>
  {
    var cs := Chunks(page.text, ChunkSize, ChunkOverlap);
    seq(|cs|, i requires 0 <= i < |cs| => Entry(cs[i], Metadata(source, page.num, i)))
  }

  /** The entries of the pages of one file, page after page. */
  function FileEntries(source: string, pages: seq<Page>): seq<Entry>
  {
    if |pages| == 0 then []
    else FileEntries(source, pages[..|pages| - 1]) + PageEntries(source, pages[|pages| - 1])
  }

  /** Reference definition of the flattening: the entries of all files in
      the order given. */
  function CorpusEntries(files: seq<PdfFile>): seq<Entry>
  {
    if |files| == 0 then []
    else
      var f := files[|files| - 1];
      CorpusEntries(files[..|files| - 1]) + FileEntries(f.name, ExtractPages(f))
  }

  /** `e` is the chunk at position `e.meta.chunkIndex` of the chunk list of
      `page` in file `source`. */
  ghost predicate FromPage(e: Entry, source: string, page: Page)
  {
    var cs := Chunks(page.text, ChunkSize, ChunkOverlap);
    && e.meta.source == source
    && e.meta.page == page.num
    && e.meta.chunkIndex < |cs|
    && e.text == cs[e.meta.chunkIndex]
  }

  lemma {:induction false} FileEntriesProvenance(source: string, pages: seq<Page>, k: nat)
    requires k < |FileEntries(source, pages)|
    ensures exists j :: 0 <= j < |pages| && FromPage(FileEntries(source, pages)[k], source, pages[j])
    decreases |pages|
  {
    var init := pages[..|pages| - 1];
    var head := FileEntries(source, init);
    var last := PageEntries(source, pages[|pages| - 1]);
    if k < |head| {
      FileEntriesProvenance(source, init, k);
      var j :| 0 <= j < |init| && FromPage(head[k], source, init[j]);
      assert init[j] == pages[j];
    } else {
      assert FileEntries(source, pages)[k] == last[k - |head|];
      assert FromPage(last[k - |head|], source, pages[|pages| - 1]);
    }
  }

  lemma {:induction false} CorpusEntriesProvenance(files: seq<PdfFile>, k: nat)
    requires k < |CorpusEntries(files)|
    ensures exists i, j ::
      && 0 <= i < |files| && 0 <= j < |ExtractPages(files[i])|
      && FromPage(CorpusEntries(files)[k], files[i].name, ExtractPages(files[i])[j])
    decreases |files|
  {
    var init := files[..|files| - 1];
    var f := files[|files| - 1];
    var head := CorpusEntries(init);
    var last := FileEntries(f.name, ExtractPages(f));
    if k < |head| {
      CorpusEntriesProvenance(init, k);
      var i, j :| 0 <= i < |init| && 0 <= j < |ExtractPages(init[i])| && FromPage(head[k], init[i].name, ExtractPages(init[i])[j]);
      assert init[i] == files[i];
    } else {
      assert CorpusEntries(files)[k] == last[k - |head|];
      FileEntriesProvenance(f.name, ExtractPages(f), k - |head|);
      var j :| 0 <= j < |ExtractPages(f)| && FromPage(last[k - |head|], f.name, ExtractPages(f)[j]);
      assert FromPage(CorpusEntries(files)[k], files[|files| - 1].name, ExtractPages(files[|files| - 1])[j]);
    }
  }

  /** Every chunk of every page appears among the entries of its file. */
  lemma {:induction false} FileEntriesComplete(source: string, pages: seq<Page>, j: nat, c: nat)
    requires j < |pages| && c < |PageEntries(source, pages[j])|
    ensures PageEntries(source, pages[j])[c] in FileEntries(source, pages)
    decreases |pages|
  {
    var init := pages[..|pages| - 1];
    var e := PageEntries(source, pages[j])[c];
    if j < |pages| - 1 {
      assert init[j] == pages[j];
      FileEntriesComplete(source, init, j, c);
      assert e in FileEntries(source, init) + PageEntries(source, pages[|pages| - 1]);
    } else {
      assert e in FileEntries(source, init) + PageEntries(source, pages[j]);
    }
  }

  /** Nothing is lost in the flattening: chunk `c` of the `j`-th extracted
      page of file `i` appears in the corpus, tagged with that file's name,
      the page number and `chunk_index` `c`. */
  lemma {:induction false} CorpusEntriesComplete(files: seq<PdfFile>, i: nat, j: nat, c: nat)
    requires i < |files| && j < |ExtractPages(files[i])|
    requires c < |Chunks(ExtractPages(files[i])[j].text, ChunkSize, ChunkOverlap)|
    ensures Entry(Chunks(ExtractPages(files[i])[j].text, ChunkSize, ChunkOverlap)[c],
                  Metadata(files[i].name, ExtractPages(files[i])[j].num, c)) in CorpusEntries(files)
    decreases |files|
  {
    var init := files[..|files| - 1];
    var f := files[|files| - 1];
    var page := ExtractPages(files[i])[j];
    var e := PageEntries(files[i].name, page)[c];
    if i < |files| - 1 {
      assert init[i] == files[i];
      CorpusEntriesComplete(init, i, j, c);
      assert e in CorpusEntries(init) + FileEntries(f.name, ExtractPages(f));
    } else {
      FileEntriesComplete(f.name, ExtractPages(f), j, c);
      assert e in CorpusEntries(init) + FileEntries(f.name, ExtractPages(f));
    }
  }

  /** `chunk_index` runs 0, 1, 2, … within each page: an entry with a
      non-zero index directly follows the entry of the same file and page
      with the index one lower. */
  ghost predicate IndexRuns(es: seq<Entry>)
  {
    forall k :: 0 <= k < |es| && es[k].meta.chunkIndex > 0 ==>
      0 < k && es[k - 1].meta == Metadata(es[k].meta.source, es[k].meta.page, es[k].meta.chunkIndex - 1)
  }

  lemma IndexRunsAppend(a: seq<Entry>, b: seq<Entry>)
    requires IndexRuns(a) && IndexRuns(b)
    ensures IndexRuns(a + b)
  {
    var ab := a + b;
    forall k | 0 <= k < |ab| && ab[k].meta.chunkIndex > 0
      ensures 0 < k && ab[k - 1].meta == Metadata(ab[k].meta.source, ab[k].meta.page, ab[k].meta.chunkIndex - 1)
    {
      if k < |a| {
        assert ab[k] == a[k];
        assert ab[k - 1] == a[k - 1];
      } else {
        assert ab[k] == b[k - |a|];
        assert ab[k - 1] == b[k - |a| - 1];
      }
    }
  }

  lemma {:induction false} FileIndexRuns(source: string, pages: seq<Page>)
    ensures IndexRuns(FileEntries(source, pages))
    decreases |pages|
  {
    if |pages| > 0 {
      FileIndexRuns(source, pages[..|pages| - 1]);
      IndexRunsAppend(FileEntries(source, pages[..|pages| - 1]), PageEntries(source, pages[|pages| - 1]));
    }
  }

  lemma {:induction false} CorpusIndexRuns(files: seq<PdfFile>)
    ensures IndexRuns(CorpusEntries(files))
    decreases |files|
  {
    if |files| > 0 {
      var f := files[|files| - 1];
      CorpusIndexRuns(files[..|files| - 1]);
      FileIndexRuns(f.name, ExtractPages(f));
      IndexRunsAppend(CorpusEntries(files[..|files| - 1]), FileEntries(f.name, ExtractPages(f)));
    }
  }

  /** `chunk_index` restarts at 0 on every page: an entry whose index is not
      0 directly follows the entry of the same file and page whose index is
      one lower, so the first entry of each page has index 0. */
  lemma ChunkIndexRestarts(files: seq<PdfFile>)
    ensures forall k :: 0 <= k < |CorpusEntries(files)| && CorpusEntries(files)[k].meta.chunkIndex > 0 ==>
      && 0 < k
      && CorpusEntries(files)[k - 1].meta.source == CorpusEntries(files)[k].meta.source
      && CorpusEntries(files)[k - 1].meta.page == CorpusEntries(files)[k].meta.page
      && CorpusEntries(files)[k - 1].meta.chunkIndex == CorpusEntries(files)[k].meta.chunkIndex - 1
  {
    CorpusIndexRuns(files);
  }

  /** Every entry of the corpus is the chunk at position `chunkIndex` of the
      chunk list of a non-blank page `page` (counted from 1, before any
      reading error) of the file named `source`; its text is non-blank and at
      most one window long. */
  lemma CorpusEntryOrigin(files: seq<PdfFile>, k: nat)
    requires k < |CorpusEntries(files)|
    ensures var e := CorpusEntries(files)[k];
      && 0 < |e.text| <= ChunkSize && !IsBlank(e.text)
      && exists i :: 0 <= i < |files| && FromFile(e, files[i])
  {
    var e := CorpusEntries(files)[k];
    CorpusEntriesProvenance(files, k);
    var i, j :| 0 <= i < |files| && 0 <= j < |ExtractPages(files[i])| && FromPage(e, files[i].name, ExtractPages(files[i])[j]);
    EntryFromPage(files[i], j, e);
  }

  /** An entry cut from an extracted page of `f` is a chunk of a non-blank
      page read from `f`, and is itself non-blank and at most one window. */
  lemma EntryFromPage(f: PdfFile, j: nat, e: Entry)
    requires j < |ExtractPages(f)| && FromPage(e, f.name, ExtractPages(f)[j])
    ensures 0 < |e.text| <= ChunkSize && !IsBlank(e.text) && FromFile(e, f)
  {
    var page := ExtractPages(f)[j];
    assert 1 <= page.num <= PagesRead(f) && page.text == f.pageTexts[page.num - 1];
    ChunkBounds(page.text, ChunkSize, ChunkOverlap);
  }

  /** `e` is the chunk at position `e.meta.chunkIndex` of the chunks of the
      page numbered `e.meta.page` of `f`, a non-blank page read before any
      error. */
  ghost predicate FromFile(e: Entry, f: PdfFile)
  {
    && e.meta.source == f.name
    && 1 <= e.meta.page <= PagesRead(f)
    && !IsBlank(f.pageTexts[e.meta.page - 1])
    && e.meta.chunkIndex < |Chunks(f.pageTexts[e.meta.page - 1], ChunkSize, ChunkOverlap)|
    && e.text == Chunks(f.pageTexts[e.meta.page - 1], ChunkSize, ChunkOverlap)[e.meta.chunkIndex]
  }

  /** The id of the n-th chunk, `f"doc_{n}"`. */
  function DocId(n: nat): string
  {
    "doc_" + Decimal(n)
  }

  /** Reads the counter back from an id. */
  function ParseDocId(id: string): Option<nat>
  {
    if |id| >= 4 && id[..4] == "doc_" then ParseDecimal(id[4..]) else None
  }

  /** Every id reads back as its counter value. */
  lemma DocIdRoundTrip(n: nat)
    ensures ParseDocId(DocId(n)) == Some(n)
  {
    DecimalRoundTrip(n);
    assert DocId(n)[4..] == Decimal(n);
  }

  /** Distinct counter values give distinct ids, so ids never collide. */
  lemma DocIdInjective(a: nat, b: nat)
    requires a != b
    ensures DocId(a) != DocId(b)
  {
    DocIdRoundTrip(a);
    DocIdRoundTrip(b);
  }

  /** The state of the flattening loop: the three parallel lists and the
      global counter `doc_id`. */
  datatype Accumulator = Accumulator(documents: seq<string>, metadatas: seq<Metadata>, ids: seq<string>, nextId: nat)

  /** The lists hold, position by position, the text, metadata and
      counter-derived id of `entries`, and the counter equals their length. */
  ghost predicate Holds(acc: Accumulator, entries: seq<Entry>)
  {
    && |acc.documents| == |entries| && |acc.metadatas| == |entries| && |acc.ids| == |entries|
    && acc.nextId == |entries|
    && forall k :: 0 <= k < |entries| ==>
         acc.documents[k] == entries[k].text && acc.metadatas[k] == entries[k].meta && acc.ids[k] == DocId(k)
  }

  lemma HoldsSnoc(acc: Accumulator, entries: seq<Entry>, e: Entry)
    requires Holds(acc, entries)
    ensures Holds(Accumulator(acc.documents + [e.text], acc.metadatas + [e.meta], acc.ids + [DocId(acc.nextId)], acc.nextId + 1),
                  entries + [e])
  {
  }

  /** The innermost loop: every chunk of one page is appended with its
      position in the page and the next global id. */
  method AddPage(acc: Accumulator, ghost entries: seq<Entry>, source: string, page: Page) returns (next: Accumulator)
    requires Holds(acc, entries)
    ensures Holds(next, entries + PageEntries(source, page))
  {
    var chunks := ChunkText(page.text, ChunkSize, ChunkOverlap);
    ghost var pe := PageEntries(source, page);
    next := acc;
    var c := 0;
    while c < |chunks|
      invariant 0 <= c <= |chunks|
      invariant Holds(next, entries + pe[..c])
    {
      assert (entries + pe[..c]) + [pe[c]] == entries + pe[..c + 1];
      HoldsSnoc(next, entries + pe[..c], pe[c]);
      next := Accumulator(next.documents + [chunks[c]], next.metadatas + [Metadata(source, page.num, c)],
                          next.ids + [DocId(next.nextId)], next.nextId + 1);
      c := c + 1;
    }
    assert pe[..c] == pe;
  }

  /** The loop over the pages extracted from one file. */
  method AddFile(acc: Accumulator, ghost entries: seq<Entry>, source: string, pages: seq<Page>) returns (next: Accumulator)
    requires Holds(acc, entries)
    ensures Holds(next, entries + FileEntries(source, pages))
  {
    next := acc;
    var j := 0;
    while j < |pages|
      invariant 0 <= j <= |pages|
      invariant Holds(next, entries + FileEntries(source, pages[..j]))
    {
      ghost var done := entries + FileEntries(source, pages[..j]);
      next := AddPage(next, done, source, pages[j]);
      FileEntriesSnoc(entries, source, pages, j);
      j := j + 1;
    }
    assert pages[..j] == pages;
  }

  lemma FileEntriesSnoc(entries: seq<Entry>, source: string, pages: seq<Page>, j: nat)
    requires j < |pages|
    ensures entries + FileEntries(source, pages[..j + 1])
         == (entries + FileEntries(source, pages[..j])) + PageEntries(source, pages[j])
  {
    assert pages[..j + 1][..j] == pages[..j];
  }

  /** The flattening in `ingest_documents`: files in the order given, pages in
      order, chunks in order, ids from one counter starting at 0. */
  method BuildCorpus(files: seq<PdfFile>) returns (documents: seq<string>, metadatas: seq<Metadata>, ids: seq<string>)
    ensures var e := CorpusEntries(files);
      && |documents| == |e| && |metadatas| == |e| && |ids| == |e|
      && forall k :: 0 <= k < |e| ==>
           documents[k] == e[k].text && metadatas[k] == e[k].meta && ids[k] == DocId(k)
  {
    var acc := Accumulator([], [], [], 0);
    var i := 0;
    while i < |files|
      invariant 0 <= i <= |files|
      invariant Holds(acc, CorpusEntries(files[..i]))
    {
      assert files[..i + 1][..i] == files[..i];
      var pages := ExtractPages(files[i]);
      acc := AddFile(acc, CorpusEntries(files[..i]), files[i].name, pages);
      i := i + 1;
    }
    assert files[..i] == files;
    documents, metadatas, ids := acc.documents, acc.metadatas, acc.ids;
  }
}
