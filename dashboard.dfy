/**
 * The dashboard of the front end: the list of stored PDFs as cards, fetched
 * from `/api/list/`, a delete button per card behind a confirmation dialog,
 * and the button that opens the upload dialog.
 */
module Dashboard {
  import opened Wrappers

  /** One entry of the listing as the page uses it. */
  datatype PdfCard = PdfCard(id: int, title: string, filename: string, uploaded: string)

  /** How the list request ended: with a JSON body, or with `fetch` or `res.json()` throwing. */
  datatype ListReply = Listed(data: seq<PdfCard>) | FetchFailed

  /** The requests the page sends to the backend, oldest first. */
  datatype Request = ListRequested | DeleteRequested(id: int)

  /** What the documents section shows. */
  datatype Section = LoadingNotice | EmptyNotice | CardGrid(cards: seq<PdfCard>)

  const FetchError: string := "Failed to fetch PDFs. Please try again."

  const DeleteError: string := "Failed to delete PDF. Please try again."

  function Ids(cards: seq<PdfCard>): set<int> {
    set i | 0 <= i < |cards| :: cards[i].id
  }

  /** `pdfs.filter(pdf => pdf.id !== id)`: exactly the cards with another id are kept. */
  function WithoutId(cards: seq<PdfCard>, id: int): (out: seq<PdfCard>)
    ensures |out| <= |cards|
    ensures forall c :: c in out <==> c in cards && c.id != id
  {
    if cards == [] then []
    else (if cards[0].id == id then [] else [cards[0]]) + WithoutId(cards[1..], id)
  }

  /** Filtering a concatenation filters each part: the kept cards keep their order. */
  lemma {:induction false} WithoutIdAppend(a: seq<PdfCard>, b: seq<PdfCard>, id: int)
    ensures WithoutId(a + b, id) == WithoutId(a, id) + WithoutId(b, id)
  {
    if a != [] {
      assert (a + b)[0] == a[0];
      assert (a + b)[1..] == a[1..] + b;
      WithoutIdAppend(a[1..], b, id);
    } else {
      assert a + b == b;
    }
  }

  /** Filtering out an id no card has changes nothing. */
  lemma {:induction false} WithoutIdAbsent(cards: seq<PdfCard>, id: int)
    requires id !in Ids(cards)
    ensures WithoutId(cards, id) == cards
  {
    if cards != [] {
      assert cards[0].id in Ids(cards);
      assert Ids(cards[1..]) <= Ids(cards) by {
        forall x | x in Ids(cards[1..]) ensures x in Ids(cards) {
          var i :| 0 <= i < |cards[1..]| && cards[1..][i].id == x;
          assert cards[i + 1].id == x;
        }
      }
      WithoutIdAbsent(cards[1..], id);
      assert cards == [cards[0]] + cards[1..];
    }
  }

  /**
   * Deleting the card at one place of a list whose ids are distinct leaves the
   * cards before it and the cards after it, in their order.
   */
  lemma WithoutIdOfOne(before: seq<PdfCard>, c: PdfCard, after: seq<PdfCard>)
    requires c.id !in Ids(before) && c.id !in Ids(after)
    ensures WithoutId(before + [c] + after, c.id) == before + after
  {
    var id := c.id;
    assert WithoutId([c], id) == [] by {
      assert [c][1..] == [];
    }
    WithoutIdAppend(before, [c], id);
    WithoutIdAbsent(before, id);
    assert WithoutId(before + [c], id) == before;
    WithoutIdAppend(before + [c], after, id);
    WithoutIdAbsent(after, id);
  }

  /** Filtering twice by the same id is filtering once. */
  lemma WithoutIdIdempotent(cards: seq<PdfCard>, id: int)
    ensures WithoutId(WithoutId(cards, id), id) == WithoutId(cards, id)
  {
    var out := WithoutId(cards, id);
    forall i | 0 <= i < |out| ensures out[i].id != id {
      assert out[i] in out;
    }
    WithoutIdAbsent(out, id);
  }

  class DashboardPage {
    var pdfs: seq<PdfCard>
    var loading: bool
    var error: string
    var showModal: bool
    /** The card whose deletion waits for confirmation, if any. */
    var deleteConfirmId: Option<int>
    var deleting: bool
    var requests: seq<Request>

    /** Between two handlers no deletion is in progress. */
    ghost predicate Valid()
      reads this
    {
      !deleting
    }

    /** The first render: loading, with nothing listed, before the mount effect fetches. */
    constructor ()
      ensures Valid()
      ensures pdfs == [] && loading && error == "" && !showModal && deleteConfirmId == None
        && requests == []
    {
      pdfs := [];
      loading := true;
      error := "";
      showModal := false;
      deleteConfirmId := None;
      deleting := false;
      requests := [];
    }

    /**
     * The documents section: the loading notice while loading, the "No
     * documents yet" notice exactly when not loading and the list is empty,
     * and otherwise one card per listed PDF in the listed order.
     */
    function DocumentsSection(): (s: Section)
      reads this
      ensures s == LoadingNotice <==> loading
      ensures s == EmptyNotice <==> !loading && pdfs == []
      ensures s.CardGrid? ==> s.cards == pdfs && pdfs != []
    {
      if loading then LoadingNotice else if |pdfs| == 0 then EmptyNotice else CardGrid(pdfs)
    }

    /** The confirmation dialog is shown while `deleteConfirmId` is truthy: set and not `0`. */
    function ShowsConfirmDialog(): (shown: bool)
      reads this
      ensures shown ==> deleteConfirmId.Some?
      ensures deleteConfirmId.Some? && deleteConfirmId.value != 0 ==> shown
      ensures deleteConfirmId == Some(0) ==> !shown
    {
      deleteConfirmId.Some? && deleteConfirmId.value != 0
    }

    /**
     * `fetchPDFs`. A reply replaces the list with what came back and clears
     * the error; a failure keeps the list and sets the fetch error. Loading is
     * over afterwards on every path.
     */
    method FetchPdfs(reply: ListReply)
      requires Valid()
      modifies this
      ensures Valid()
      ensures !loading && requests == old(requests) + [ListRequested]
      ensures reply.Listed? ==> pdfs == reply.data && error == ""
      ensures reply.FetchFailed? ==> pdfs == old(pdfs) && error == FetchError
      ensures showModal == old(showModal) && deleteConfirmId == old(deleteConfirmId)
    {
      loading := true;
      requests := requests + [ListRequested];
      if reply.Listed? {
        pdfs := reply.data;
        error := "";
      } else {
        error := FetchError;
      }
      loading := false;
    }

    /**
     * `handleDelete(id)`, with `completed` telling whether the `DELETE`
     * request came back at all: any status, an error status too, counts. A
     * completed request removes every card with that id, keeps the others in
     * order and closes the dialog. A thrown request keeps the list and the
     * dialog and sets the delete error. No deletion is in progress afterwards
     * on every path.
     */
    method HandleDelete(id: int, completed: bool)
      requires Valid()
      modifies this
      ensures Valid()
      ensures requests == old(requests) + [DeleteRequested(id)]
      ensures completed ==>
        pdfs == WithoutId(old(pdfs), id) && deleteConfirmId == None && error == old(error)
        && id !in Ids(pdfs)
      ensures !completed ==>
        pdfs == old(pdfs) && deleteConfirmId == old(deleteConfirmId) && error == DeleteError
      ensures loading == old(loading) && showModal == old(showModal)
    {
      deleting := true;
      requests := requests + [DeleteRequested(id)];
      if completed {
        pdfs := WithoutId(pdfs, id);
        deleteConfirmId := None;
        forall i | 0 <= i < |pdfs| ensures pdfs[i].id != id {
          assert pdfs[i] in pdfs;
        }
      } else {
        error := DeleteError;
      }
      deleting := false;
    }

    /** A card's delete button asks for confirmation of that card and changes nothing else. */
    method RequestDelete(id: int)
      requires Valid()
      modifies this
      ensures Valid()
      ensures deleteConfirmId == Some(id)
      ensures pdfs == old(pdfs) && loading == old(loading) && error == old(error)
        && showModal == old(showModal) && requests == old(requests)
    {
      deleteConfirmId := Some(id);
    }

    /** The dialog's cancel button drops the pending deletion; the dialog is then hidden. */
    method CancelDelete()
      requires Valid()
      modifies this
      ensures Valid()
      ensures deleteConfirmId == None && !ShowsConfirmDialog()
      ensures pdfs == old(pdfs) && loading == old(loading) && error == old(error)
        && showModal == old(showModal) && requests == old(requests)
    {
      deleteConfirmId := None;
    }

    /** "Upload PDF" opens the upload dialog. */
    method OpenUpload()
      requires Valid()
      modifies this
      ensures Valid()
      ensures showModal
      ensures pdfs == old(pdfs) && loading == old(loading) && error == old(error)
        && deleteConfirmId == old(deleteConfirmId) && requests == old(requests)
    {
      showModal := true;
    }

    /** The upload dialog's `onClose`: hide it, then fetch the list again. */
    method CloseUpload(reply: ListReply)
      requires Valid()
      modifies this
      ensures Valid()
      ensures !showModal && !loading && requests == old(requests) + [ListRequested]
      ensures reply.Listed? ==> pdfs == reply.data && error == ""
      ensures reply.FetchFailed? ==> pdfs == old(pdfs) && error == FetchError
      ensures deleteConfirmId == old(deleteConfirmId)
    {
      showModal := false;
      FetchPdfs(reply);
    }
  }
}
