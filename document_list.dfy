/** The document list (src/components/Dashboard/DocumentList.js): the fetched list and its
    optimistic delete, which removes the document at once and puts the saved copy of the
    list back when the DELETE fails. */
module DocumentList {
  import opened JsValues
  import opened Lists

  /** A row of the table. */
  datatype DocumentSummary = DocumentSummary(id: string, title: string, ownerName: string, updatedAt: int)

  function DocId(d: DocumentSummary): string {
    d.id
  }

  /** `documents.filter(doc => doc._id !== id)`: every document with that id goes, the
      others stay. */
  function Optimistic(docs: seq<DocumentSummary>, id: string): (r: seq<DocumentSummary>)
    ensures forall d :: d in r <==> d in docs && d.id != id
    ensures |r| == |docs| - CountKey(docs, DocId, id)
  {
    Without(docs, DocId, id)
  }

  /** A delete whose request has not come back: the id and the copy of the list taken
      before the filter (`previousDocuments`). */
  datatype PendingDelete = PendingDelete(id: string, snapshot: seq<DocumentSummary>)

  /** The list once the DELETE has come back: kept on success, the snapshot on failure. */
  function Settled(current: seq<DocumentSummary>, p: PendingDelete, ok: bool): (r: seq<DocumentSummary>)
    ensures ok ==> r == current
    ensures !ok ==> r == p.snapshot
  {
    if ok then current else p.snapshot
  }

  /** A failed delete gives back exactly the list shown before it. */
  lemma FailedDeleteRestores(docs: seq<DocumentSummary>, id: string)
    ensures Settled(Optimistic(docs, id), PendingDelete(id, docs), false) == docs
  {
  }

  /** Deleting an id that is already gone changes nothing. */
  lemma DeleteTwiceIsDeleteOnce(docs: seq<DocumentSummary>, id: string)
    ensures Optimistic(Optimistic(docs, id), id) == Optimistic(docs, id)
  {
    WithoutIdempotent(docs, DocId, id);
  }

  /** Two deletes in flight: the second succeeds, then the first fails, and its snapshot
      brings back the document the second one removed on the server. */
  lemma OverlappingRollbackRevives(a: DocumentSummary, b: DocumentSummary)
    requires a.id != b.id
    ensures var docs := [a, b];
            var afterA := Optimistic(docs, a.id);
            var afterB := Optimistic(afterA, b.id);
            var settledB := Settled(afterB, PendingDelete(b.id, afterA), true);
            var shown := Settled(settledB, PendingDelete(a.id, docs), false);
            shown == docs && b in shown
  {
  }

  class DocumentListState {
    var documents: seq<DocumentSummary>
    var loading: bool

    constructor()
      ensures documents == [] && loading
    {
      documents := [];
      loading := true;
    }

    /** `fetchDocuments`, with the body of the GET as `response` (`None` when it fails).
        Loading ends either way. */
    method FetchDocuments(response: Option<seq<DocumentSummary>>)
      modifies this
      ensures documents == if response.Some? then response.value else old(documents)
      ensures !loading
    {
      if response.Some? {
        documents := response.value;
      }
      loading := false;
    }

    /** The first half of `handleDelete`: nothing when the confirmation is cancelled,
        otherwise the copy is taken and the list filtered before the request goes out. */
    method BeginDelete(id: string, confirmed: bool) returns (pending: Option<PendingDelete>)
      modifies this
      ensures !confirmed ==> pending == None && documents == old(documents)
      ensures confirmed ==> pending == Some(PendingDelete(id, old(documents)))
                            && documents == Optimistic(old(documents), id)
      ensures loading == old(loading)
    {
      if !confirmed {
        return None;
      }
      var previousDocuments := documents;
      documents := Optimistic(documents, id);
      pending := Some(PendingDelete(id, previousDocuments));
    }

    /** The second half: the DELETE came back with `ok`. */
    method FinishDelete(p: PendingDelete, ok: bool)
      modifies this
      ensures documents == Settled(old(documents), p, ok)
      ensures loading == old(loading)
    {
      if !ok {
        documents := p.snapshot;
      }
    }
  }
}
