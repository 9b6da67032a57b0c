/** `display_results` of rag/query.py: the store's answer to one question is
    three lists (documents, metadata, distances) aligned by position and
    ordered by the store; each position becomes one result card. */
module Display {
  import opened Results
  import opened Config
  import opened Seqs

  /** A metadata value as it comes back from the store. */
  datatype Value = Str(s: string) | Int(i: int)

  /** The metadata mapping of one match. */
  type Meta = map<string, Value>

  /** The answer of `collection.query` for a single question: each key holds
      one list per question asked, or is missing. */
  datatype QueryResponse = QueryResponse(
    documents: Option<seq<seq<string>>>,
    metadatas: Option<seq<seq<Meta>>>,
    distances: Option<seq<seq<real>>>)

  /** Raised when a key is present but holds no list at all
      (`[][0]` raises `IndexError`). */
  datatype DisplayError = NoListFor(key: string)

  /** One rendered result. */
  datatype Card = Card(rank: nat, source: Value, page: Value, similarity: real, text: string)

  /** What is printed: a "no results" notice, or a header with the number of
      documents followed by the cards. */
  datatype Shown = NoResults | Found(announced: nat, cards: seq<Card>)

  /** `results.get(key, [[]])[0]`. */
  function FirstList<T>(key: string, lists: Option<seq<seq<T>>>): Result<seq<T>, DisplayError>
  {
    match lists
    case None => Ok([])
    case Some(outer) => if |outer| == 0 then Err(NoListFor(key)) else Ok(outer[0])
  }

  /** `meta.get(key, default)`: the stored value when the key is present,
      the default otherwise. */
  function MetaGet(meta: Meta, key: string, default: Value): Value
  {
    if key in meta then meta[key] else default
  }

  /** The source shown on a card. */
  function SourceOf(meta: Meta): Value
  {
    MetaGet(meta, "source", Str("Unknown"))
  }

  /** The page shown on a card. */
  function PageOf(meta: Meta): Value
  {
    MetaGet(meta, "page", Str("?"))
  }

  /** The displayed score: `1 - dist`, unclamped. */
  function Similarity(dist: real): real
  {
    1.0 - dist
  }

  /** A closer match never shows a lower score, and the score determines
      the distance back. */
  lemma SimilarityOrder(d1: real, d2: real)
    ensures d1 <= d2 <==> Similarity(d2) <= Similarity(d1)
    ensures Similarity(d1) == Similarity(d2) ==> d1 == d2
    ensures 1.0 - Similarity(d1) == d1
  {
  }

  /** `doc[:500] + "..." if len(doc) > 500 else doc`. */
  function Truncate(doc: string): (r: string)
    ensures |r| <= DisplayLimit + 3
    ensures |doc| <= DisplayLimit ==> r == doc
    ensures |doc| > DisplayLimit ==>
      |r| == DisplayLimit + 3 && r[..DisplayLimit] == doc[..DisplayLimit] && r[DisplayLimit..] == "..."
  {
    if |doc| > DisplayLimit then doc[..DisplayLimit] + "..." else doc
  }

  /** The card for one (document, metadata, distance) triple. */
  function CardFor(rank: nat, doc: string, meta: Meta, dist: real): Card
  {
    Card(rank, SourceOf(meta), PageOf(meta), Similarity(dist), Truncate(doc))
  }

  /** `enumerate(zip(documents, metadatas, distances), start=first)`, one card
      per triple, stopping at the end of the shortest list. */
  function Cards(docs: seq<string>, metas: seq<Meta>, dists: seq<real>, first: nat): seq<Card>
    decreases |docs|
  {
    if |docs| == 0 || |metas| == 0 || |dists| == 0 then []
    else [CardFor(first, docs[0], metas[0], dists[0])] + Cards(docs[1..], metas[1..], dists[1..], first + 1)
  }

  /** `zip` stops at the shortest list, and `enumerate` numbers the i-th
      triple `first + i`. */
  lemma {:induction false} CardsShape(docs: seq<string>, metas: seq<Meta>, dists: seq<real>, first: nat)
    ensures |Cards(docs, metas, dists, first)| == Min(|docs|, Min(|metas|, |dists|))
    ensures forall i :: 0 <= i < |Cards(docs, metas, dists, first)| ==>
      Cards(docs, metas, dists, first)[i] == CardFor(first + i, docs[i], metas[i], dists[i])
    decreases |docs|
  {
    if |docs| > 0 && |metas| > 0 && |dists| > 0 {
      var rest := Cards(docs[1..], metas[1..], dists[1..], first + 1);
      CardsShape(docs[1..], metas[1..], dists[1..], first + 1);
      var cards := Cards(docs, metas, dists, first);
      forall i | 1 <= i < |cards|
        ensures cards[i] == CardFor(first + i, docs[i], metas[i], dists[i])
      {
        assert cards[i] == rest[i - 1];
      }
    }
  }

  /** `display_results`: the three lists are read first (an empty outer
      list raises); no documents means the "no results" notice; otherwise the
      header counts the documents and one card follows per zipped triple,
      ranked from 1 in the store's order. */
  function DisplayResults(response: QueryResponse): Result<Shown, DisplayError>
  {
    match FirstList("documents", response.documents)
    case Err(e) => Err(e)
    case Ok(docs) =>
      match FirstList("metadatas", response.metadatas)
      case Err(e) => Err(e)
      case Ok(metas) =>
        match FirstList("distances", response.distances)
        case Err(e) => Err(e)
        case Ok(dists) =>
          if |docs| == 0 then Ok(NoResults)
          else Ok(Found(|docs|, Cards(docs, metas, dists, 1)))
  }

  /** The store's own answer lists, all present and non-empty. */
  function Answer(docs: seq<string>, metas: seq<Meta>, dists: seq<real>): QueryResponse
  {
    QueryResponse(Some([docs]), Some([metas]), Some([dists]))
  }

  /** For a well-formed answer: no documents gives the "no results" notice;
      otherwise the header counts the documents, ranks are exactly
      `1..m` with `m` the length of the shortest list, and the card of rank
      `i` shows the i-th document, metadata and distance, unsorted. */
  lemma DisplayRanks(docs: seq<string>, metas: seq<Meta>, dists: seq<real>)
    ensures |docs| == 0 ==> DisplayResults(Answer(docs, metas, dists)) == Ok(NoResults)
    ensures 0 < |docs| ==>
      && DisplayResults(Answer(docs, metas, dists)).Ok?
      && DisplayResults(Answer(docs, metas, dists)).value.Found?
      && var shown := DisplayResults(Answer(docs, metas, dists)).value;
      && shown.announced == |docs|
      && |shown.cards| == Min(|docs|, Min(|metas|, |dists|))
      && forall i :: 0 <= i < |shown.cards| ==>
           && shown.cards[i].rank == i + 1
           && shown.cards[i].source == SourceOf(metas[i])
           && shown.cards[i].page == PageOf(metas[i])
           && shown.cards[i].similarity == 1.0 - dists[i]
           && shown.cards[i].text == Truncate(docs[i])
  {
    CardsShape(docs, metas, dists, 1);
  }

  /** The cards fill in missing metadata: the source shows as `"Unknown"`
      and the page as `"?"` when the match's metadata lacks them, and as
      the stored values otherwise. */
  lemma CardDefaults(docs: seq<string>, metas: seq<Meta>, dists: seq<real>)
    ensures 0 < |docs| ==>
      && DisplayResults(Answer(docs, metas, dists)).Ok?
      && DisplayResults(Answer(docs, metas, dists)).value.Found?
      && var cards := DisplayResults(Answer(docs, metas, dists)).value.cards;
      && |cards| == Min(|docs|, Min(|metas|, |dists|))
      && forall i :: 0 <= i < |cards| ==>
           && ("source" in metas[i] ==> cards[i].source == metas[i]["source"])
           && ("source" !in metas[i] ==> cards[i].source == Str("Unknown"))
           && ("page" in metas[i] ==> cards[i].page == metas[i]["page"])
           && ("page" !in metas[i] ==> cards[i].page == Str("?"))
  {
    CardsShape(docs, metas, dists, 1);
  }

  /** A key that holds an empty outer list raises, and the keys are read in
      the order documents, metadatas, distances. */
  lemma DisplayMalformed(response: QueryResponse)
    ensures response.documents == Some([]) ==>
      DisplayResults(response) == Err(NoListFor("documents"))
    ensures response.documents != Some([]) && response.metadatas == Some([]) ==>
      DisplayResults(response) == Err(NoListFor("metadatas"))
    ensures response.documents != Some([]) && response.metadatas != Some([]) && response.distances == Some([]) ==>
      DisplayResults(response) == Err(NoListFor("distances"))
  {
  }

  /** The list `display_results` reads for a key that does not raise: the
      first inner list, or the empty list when the key is missing. */
  function ReadList<T>(lists: Option<seq<seq<T>>>): seq<T>
  {
    if lists.None? || |lists.value| == 0 then [] else lists.value[0]
  }

  /** For any answer whose keys do not raise, a missing key reads as an
      empty list. Without documents the notice says there are no results.
      Otherwise the header counts the documents and there are as many cards
      as the shortest list read, so a missing metadata or distance key
      leaves a header with no card after it. */
  lemma DisplayCounts(response: QueryResponse)
    ensures response.documents != Some([]) && response.metadatas != Some([]) && response.distances != Some([]) ==>
      && DisplayResults(response).Ok?
      && (|ReadList(response.documents)| == 0 ==> DisplayResults(response).value == NoResults)
      && (0 < |ReadList(response.documents)| ==>
            && DisplayResults(response).value.Found?
            && DisplayResults(response).value.announced == |ReadList(response.documents)|
            && |DisplayResults(response).value.cards|
               == Min(|ReadList(response.documents)|, Min(|ReadList(response.metadatas)|, |ReadList(response.distances)|)))
  {
    CardsShape(ReadList(response.documents), ReadList(response.metadatas), ReadList(response.distances), 1);
  }

  /** When the store returns distances in ascending order the cards show
      non-increasing similarities: ranking by store order agrees with
      ranking by score. */
  lemma {:induction false} CardsOrdered(docs: seq<string>, metas: seq<Meta>, dists: seq<real>, first: nat)
    requires forall i, j :: 0 <= i < j < |dists| ==> dists[i] <= dists[j]
    ensures var cards := Cards(docs, metas, dists, first);
      forall i, j :: 0 <= i < j < |cards| ==> cards[j].similarity <= cards[i].similarity
  {
    var cards := Cards(docs, metas, dists, first);
    CardsShape(docs, metas, dists, first);
    forall i, j | 0 <= i < j < |cards|
      ensures cards[j].similarity <= cards[i].similarity
    {
      SimilarityOrder(dists[i], dists[j]);
    }
  }
}
