/** `ingest_documents` of rag/ingest.py: when there are PDF files, drop and
    recreate the collection, build the corpus, and submit it in batches of
    100. The store is modelled by the calls made to it and by what those
    calls leave behind in a map from collection names to contents. */
module Ingest {
  import opened Config
  import opened Corpus
  import opened Batcher

  /** A call made to the vector store client. */
  datatype StoreCall =
    | DeleteCollection(name: string)
    | CreateCollection(name: string)
    | Add(name: string, batch: Columns)

  /** The persisted collections, by name. */
  type Store = map<string, Columns>

  /** What the run reports at the end. */
  datatype Report =
    | NoPdfFiles
    | NoTextContent
    | Ingested(chunks: nat, files: nat)

  /** The effect of one call. Deleting an absent collection is not an error
      (the exception is swallowed); adding appends to the named collection. */
  function Exec(store: Store, call: StoreCall): Store
  {
    match call
    case DeleteCollection(name) => store - {name}
    case CreateCollection(name) => store[name := NoColumns]
    case Add(name, batch) => if name in store then store[name := Append(store[name], batch)] else store
  }

  /** The effect of a sequence of calls, in order. */
  function Apply(store: Store, calls: seq<StoreCall>): Store
  {
    if |calls| == 0 then store else Exec(Apply(store, calls[..|calls| - 1]), calls[|calls| - 1])
  }

  /** The three lists the flattening loop produces for `files`. */
  function CorpusColumns(files: seq<PdfFile>): (c: Columns)
    ensures Aligned(c)
  {
    var e := CorpusEntries(files);
    Columns(seq(|e|, k requires 0 <= k < |e| => e[k].text),
            seq(|e|, k requires 0 <= k < |e| => e[k].meta),
            seq(|e|, k requires 0 <= k < |e| => DocId(k)))
  }

  /** One `add` call per batch, in order. */
  function Adds(name: string, batches: seq<Columns>): (calls: seq<StoreCall>)
    ensures |calls| == |batches|
    ensures forall k :: 0 <= k < |batches| ==> calls[k] == Add(name, batches[k])
  {
    seq(|batches|, k requires 0 <= k < |batches| => Add(name, batches[k]))
  }

  lemma {:induction false} ApplyConcat(store: Store, a: seq<StoreCall>, b: seq<StoreCall>)
    ensures Apply(store, a + b) == Apply(Apply(store, a), b)
    decreases |b|
  {
    if |b| > 0 {
      assert (a + b)[..|a + b| - 1] == a + b[..|b| - 1];
      ApplyConcat(store, a, b[..|b| - 1]);
    } else {
      assert a + b == a;
    }
  }

  /** Adding the batches to an existing collection appends their
      concatenation to it. */
  lemma {:induction false} ApplyAdds(store: Store, name: string, batches: seq<Columns>)
    requires name in store
    ensures name in Apply(store, Adds(name, batches))
    ensures Apply(store, Adds(name, batches))[name] == Append(store[name], Concat(batches))
    decreases |batches|
  {
    if |batches| > 0 {
      var init := batches[..|batches| - 1];
      var calls := Adds(name, batches);
      assert calls[..|calls| - 1] == Adds(name, init);
      ApplyAdds(store, name, init);
      AppendAssoc(store[name], Concat(init), batches[|batches| - 1]);
    }
  }

  lemma AppendAssoc(a: Columns, b: Columns, c: Columns)
    ensures Append(Append(a, b), c) == Append(a, Append(b, c))
  {
    assert (a.documents + b.documents) + c.documents == a.documents + (b.documents + c.documents);
    assert (a.metadatas + b.metadatas) + c.metadatas == a.metadatas + (b.metadatas + c.metadatas);
    assert (a.ids + b.ids) + c.ids == a.ids + (b.ids + c.ids);
  }

  /** Dropping, recreating and filling a collection leaves exactly the added
      batches in it, whatever was stored before. */
  lemma Replaces(store: Store, name: string, batches: seq<Columns>)
    ensures name in Apply(store, [DeleteCollection(name), CreateCollection(name)] + Adds(name, batches))
    ensures Apply(store, [DeleteCollection(name), CreateCollection(name)] + Adds(name, batches))[name] == Concat(batches)
  {
    var reset := [DeleteCollection(name), CreateCollection(name)];
    ApplyConcat(store, reset, Adds(name, batches));
    assert reset[..1] == [DeleteCollection(name)];
    assert [DeleteCollection(name)][..0] == [];
    var emptied := Apply(store, reset);
    assert emptied[name] == NoColumns;
    ApplyAdds(emptied, name, batches);
    assert Append(NoColumns, Concat(batches)) == Concat(batches);
  }

  /** Running the same reset-and-fill calls a second time leaves the
      collection as the first run left it. */
  lemma ReplaceIdempotent(store: Store, name: string, batches: seq<Columns>)
    ensures var calls := [DeleteCollection(name), CreateCollection(name)] + Adds(name, batches);
      var once := Apply(store, calls);
      var twice := Apply(once, calls);
      name in once && name in twice && twice[name] == once[name]
  {
    var calls := [DeleteCollection(name), CreateCollection(name)] + Adds(name, batches);
    Replaces(store, name, batches);
    Replaces(Apply(store, calls), name, batches);
  }

  /** `ingest_documents`. With no PDF files it returns before touching the
      store. Otherwise it drops and recreates the collection, builds the
      corpus, and submits it in batches of `BatchSize`; afterwards the
      collection holds exactly the corpus, whatever the store held before. */
  method IngestDocuments(files: seq<PdfFile>) returns (report: Report, calls: seq<StoreCall>)
    ensures |files| == 0 ==> report == NoPdfFiles && calls == []
    ensures 0 < |files| ==>
      && 2 <= |calls|
      && calls[0] == DeleteCollection(CollectionName)
      && calls[1] == CreateCollection(CollectionName)
      && (forall k :: 2 <= k < |calls| ==>
            && calls[k].Add? && calls[k].name == CollectionName
            && Aligned(calls[k].batch)
            && 0 < |calls[k].batch.documents| <= BatchSize)
    ensures 0 < |files| ==>
      |calls| == 2 + (|CorpusEntries(files)| + BatchSize - 1) / BatchSize
    ensures 0 < |files| ==> forall prior: Store {:trigger Apply(prior, calls)} ::
      CollectionName in Apply(prior, calls) && Apply(prior, calls)[CollectionName] == CorpusColumns(files)
    ensures 0 < |files| && |CorpusEntries(files)| == 0 ==> report == NoTextContent
    ensures 0 < |files| && 0 < |CorpusEntries(files)| ==> report == Ingested(|CorpusEntries(files)|, |files|)
  {
    if |files| == 0 {
      return NoPdfFiles, [];
    }
    var documents, metadatas, ids := BuildCorpus(files);
    var all := Columns(documents, metadatas, ids);
    CollectedCorpus(files, all);
    var batches: seq<Columns> := [];
    if |documents| > 0 {
      var progress;
      batches, progress := SubmitBatches(all, BatchSize);
      BatchesPartition(all, BatchSize, batches);
      report := Ingested(|documents|, |files|);
    } else {
      report := NoTextContent;
    }
    calls := [DeleteCollection(CollectionName), CreateCollection(CollectionName)] + Adds(CollectionName, batches);
    ResetAndFill(all, batches, calls);
  }

  /** The lists the flattening loop returns are the corpus columns. */
  lemma CollectedCorpus(files: seq<PdfFile>, all: Columns)
    requires var e := CorpusEntries(files);
      && |all.documents| == |e| && |all.metadatas| == |e| && |all.ids| == |e|
      && forall k :: 0 <= k < |e| ==>
           all.documents[k] == e[k].text && all.metadatas[k] == e[k].meta && all.ids[k] == DocId(k)
    ensures all == CorpusColumns(files)
  {
  }

  /** The calls of a run with at least one file: reset, then one `add` per
      batch; they leave exactly the submitted records in the collection. */
  lemma ResetAndFill(all: Columns, batches: seq<Columns>, calls: seq<StoreCall>)
    requires |batches| == (|all.documents| + BatchSize - 1) / BatchSize
    requires forall k :: 0 <= k < |batches| ==>
      Aligned(batches[k]) && 0 < |batches[k].documents| <= BatchSize
    requires Concat(batches) == all
    requires calls == [DeleteCollection(CollectionName), CreateCollection(CollectionName)] + Adds(CollectionName, batches)
    ensures 2 <= |calls|
    ensures calls[0] == DeleteCollection(CollectionName) && calls[1] == CreateCollection(CollectionName)
    ensures forall k :: 2 <= k < |calls| ==>
      && calls[k].Add? && calls[k].name == CollectionName
      && Aligned(calls[k].batch)
      && 0 < |calls[k].batch.documents| <= BatchSize
    ensures |calls| == 2 + (|all.documents| + BatchSize - 1) / BatchSize
    ensures forall prior: Store {:trigger Apply(prior, calls)} ::
      CollectionName in Apply(prior, calls) && Apply(prior, calls)[CollectionName] == all
  {
    forall k | 2 <= k < |calls|
      ensures calls[k] == Add(CollectionName, batches[k - 2])
    {
    }
    forall prior: Store
      ensures CollectionName in Apply(prior, calls) && Apply(prior, calls)[CollectionName] == all
    {
      Replaces(prior, CollectionName, batches);
    }
  }
}
