/** The bookmarks page: the list of bookmarked generations, from which a removed
    bookmark leaves once the request to the store has been sent. */
module Bookmarks {
  import opened Generations

  /** Every entry shown is bookmarked. */
  predicate AllBookmarked(gs: seq<Generation>) {
    forall k :: 0 <= k < |gs| ==> gs[k].isBookmarked
  }

  class BookmarksPage {
    var bookmarks: seq<Generation>
    var loading: bool

    constructor ()
      ensures bookmarks == [] && loading
    {
      bookmarks := [];
      loading := true;
    }

    /** `fetchBookmarks`: asks for the bookmarked rows only; they replace the list when
        they arrive, and loading ends either way. */
    method FetchBookmarks(reply: ListReply) returns (request: StoreRequest)
      modifies this
      ensures request == List(true)
      ensures bookmarks == if reply.Rows? then reply.rows else old(bookmarks)
      ensures !loading
    {
      request := List(true);
      if reply.Rows? {
        bookmarks := reply.rows;
      }
      loading := false;
    }

    /** `removeBookmark`: always sends the flag `false`, and unless `fetch` rejects every
        entry with the id leaves the list, the others staying in order. */
    method RemoveBookmark(id: string, reply: Delivery) returns (request: StoreRequest)
      modifies this
      ensures request == Patch(id, false)
      ensures bookmarks == if reply.Rejected? then old(bookmarks) else WithoutId(old(bookmarks), id)
      ensures loading == old(loading)
    {
      request := Patch(id, false);
      if reply.Resolved? {
        bookmarks := WithoutId(bookmarks, id);
      }
    }
  }

  /** Removing a bookmark keeps a list of bookmarked entries bookmarked. */
  lemma RemovePreservesAllBookmarked(gs: seq<Generation>, id: string)
    requires AllBookmarked(gs)
    ensures AllBookmarked(WithoutId(gs, id))
  {
    var r := WithoutId(gs, id);
    forall k | 0 <= k < |r| ensures r[k].isBookmarked {
      assert r[k] in gs;
      var j :| 0 <= j < |gs| && gs[j] == r[k];
    }
  }
}
