/** The history page: the list of every stored generation, with delete and bookmark
    toggling applied to the list once the request to the store has been sent. */
module History {
  import opened Generations

  class HistoryPage {
    var generations: seq<Generation>
    var loading: bool

    constructor ()
      ensures generations == [] && loading
    {
      generations := [];
      loading := true;
    }

    /** `fetchGenerations`: the rows replace the list when they arrive; loading ends
        either way. */
    method FetchGenerations(reply: ListReply) returns (request: StoreRequest)
      modifies this
      ensures request == List(false)
      ensures generations == if reply.Rows? then reply.rows else old(generations)
      ensures !loading
    {
      request := List(false);
      if reply.Rows? {
        generations := reply.rows;
      }
      loading := false;
    }

    /** `deleteGeneration`: unless `fetch` rejects, every entry with the id leaves the
        list and the others stay in order. The response status is not looked at. */
    method DeleteGeneration(id: string, reply: Delivery) returns (request: StoreRequest)
      modifies this
      ensures request == Delete(id)
      ensures generations == if reply.Rejected? then old(generations) else WithoutId(old(generations), id)
      ensures loading == old(loading)
    {
      request := Delete(id);
      if reply.Resolved? {
        generations := WithoutId(generations, id);
      }
    }

    /** `toggleBookmark`: sends the flipped flag and, unless `fetch` rejects, shows it on
        every entry with the id. */
    method ToggleBookmark(id: string, isBookmarked: bool, reply: Delivery) returns (request: StoreRequest)
      modifies this
      ensures request == Patch(id, !isBookmarked)
      ensures generations == if reply.Rejected? then old(generations) else SetBookmark(old(generations), id, !isBookmarked)
      ensures loading == old(loading)
    {
      request := Patch(id, !isBookmarked);
      if reply.Resolved? {
        generations := SetBookmark(generations, id, !isBookmarked);
      }
    }
  }

  /** Deleting leaves no entry with the id, shortens the list by the entries it had, and
      deleting again changes nothing. */
  lemma DeleteRemovesId(gs: seq<Generation>, id: string)
    ensures forall k :: 0 <= k < |WithoutId(gs, id)| ==> WithoutId(gs, id)[k].id != id
    ensures |WithoutId(gs, id)| == |gs| - CountId(gs, id)
    ensures WithoutId(WithoutId(gs, id), id) == WithoutId(gs, id)
  {
    var r := WithoutId(gs, id);
    forall k | 0 <= k < |r| ensures r[k].id != id {
      assert r[k] in r;
    }
    WithoutIdIdempotent(gs, id);
  }
}
