/** The generation record of the `generations` table, the requests the pages send to
    the record store, and the list updates the history and bookmarks pages apply. */
module Generations {
  import opened JsStrings

  /** A row of the `generations` table. */
  datatype Generation = Generation(
    id: string, createdAt: string, mode: string, prompt: string, output: string,
    tokensUsed: int, isBookmarked: bool)

  /** The requests sent to the record store. */
  datatype StoreRequest =
    | Insert(mode: string, prompt: string, output: string, tokensUsed: int)
    | List(bookmarkedOnly: bool)
    | Patch(id: string, isBookmarked: bool)
    | Delete(id: string)

  /** How an awaited `fetch` ends: it rejects (network failure) or resolves with a
      status. The pages never look at the status. */
  datatype Delivery = Rejected | Resolved(status: int)

  /** How loading a list ends: a failure (of the fetch or of `response.json()`) or rows. */
  datatype ListReply = ListFailed | Rows(rows: seq<Generation>)

  function CountId(gs: seq<Generation>, id: string): (r: nat)
    ensures r <= |gs|
  {
    if gs == [] then 0 else (if gs[0].id == id then 1 else 0) + CountId(gs[1..], id)
  }

  /** The list filtered on the id: every entry with that id goes, the rest stay. */
  function WithoutId(gs: seq<Generation>, id: string): (r: seq<Generation>)
    ensures |r| == |gs| - CountId(gs, id)
    ensures forall g :: g in r <==> g in gs && g.id != id
  {
    if gs == [] then []
    else (if gs[0].id == id then [] else [gs[0]]) + WithoutId(gs[1..], id)
  }

  /** The filter works piecewise, so the entries that stay keep their relative order. */
  lemma {:induction false} WithoutIdAppend(a: seq<Generation>, b: seq<Generation>, id: string)
    ensures WithoutId(a + b, id) == WithoutId(a, id) + WithoutId(b, id)
  {
    if a == [] {
      assert a + b == b;
    } else {
      assert (a + b)[0] == a[0];
      assert (a + b)[1..] == a[1..] + b;
      WithoutIdAppend(a[1..], b, id);
    }
  }

  /** Nothing changes when no entry has the id. */
  lemma {:induction false} WithoutAbsentId(gs: seq<Generation>, id: string)
    requires forall k :: 0 <= k < |gs| ==> gs[k].id != id
    ensures WithoutId(gs, id) == gs
  {
    if gs != [] {
      WithoutAbsentId(gs[1..], id);
    }
  }

  /** Removing twice removes no more than removing once. */
  lemma WithoutIdIdempotent(gs: seq<Generation>, id: string)
    ensures WithoutId(WithoutId(gs, id), id) == WithoutId(gs, id)
  {
    var r := WithoutId(gs, id);
    forall k | 0 <= k < |r| ensures r[k].id != id {
      assert r[k] in r;
    }
    WithoutAbsentId(r, id);
  }

  /** The list with the bookmark flag of every entry with the id set to `flag`. */
  function SetBookmark(gs: seq<Generation>, id: string, flag: bool): (r: seq<Generation>)
    ensures |r| == |gs|
    ensures forall k :: 0 <= k < |gs| ==> r[k] == if gs[k].id == id then gs[k].(isBookmarked := flag) else gs[k]
  {
    if gs == [] then []
    else [if gs[0].id == id then gs[0].(isBookmarked := flag) else gs[0]] + SetBookmark(gs[1..], id, flag)
  }

  /** Toggling twice, each time passing the flag the entry shows, restores the list when
      the entries with that id all showed the flag passed first. */
  lemma ToggleTwiceRestores(gs: seq<Generation>, id: string, shown: bool)
    requires forall k :: 0 <= k < |gs| && gs[k].id == id ==> gs[k].isBookmarked == shown
    ensures SetBookmark(SetBookmark(gs, id, !shown), id, !!shown) == gs
  {
    var once := SetBookmark(gs, id, !shown);
    var twice := SetBookmark(once, id, !!shown);
    forall k | 0 <= k < |gs| ensures twice[k] == gs[k] {
      if gs[k].id == id {
        assert once[k] == gs[k].(isBookmarked := !shown);
      }
    }
  }

  /** The label shown for a mode: its first hyphen becomes a space; a mode without a
      hyphen is shown as it is. */
  function ModeLabel(mode: string): (r: string)
    ensures |r| == |mode|
    ensures '-' !in mode ==> r == mode
    ensures '-' in mode ==>
      var i := IndexOf(mode, '-');
      r == mode[..i] + " " + mode[i + 1..] && '-' !in mode[..i]
  {
    ReplaceFirst(mode, '-', ' ')
  }

  /** A mode written `pre-post` with no hyphen in `pre` is shown as `pre post`; hyphens
      inside `post` stay, so "a-b-c" is shown as "a b-c". */
  lemma HyphenatedLabel(pre: string, post: string)
    requires '-' !in pre
    ensures ModeLabel(pre + "-" + post) == pre + " " + post
  {
    var m := pre + "-" + post;
    assert m[|pre|] == '-';
    var i := IndexOf(m, '-');
    assert m[..i] == pre;
    assert m[i + 1..] == post;
  }

  /** A mode without a hyphen, such as "email", is its own label. */
  lemma EmailLabel(mode: string)
    requires mode == "email"
    ensures ModeLabel(mode) == "email"
  {
  }

  /** "blog-post" is shown as "blog post". */
  lemma BlogPostLabel(mode: string)
    requires mode == "blog-post"
    ensures ModeLabel(mode) == "blog post"
  {
    var pre, post := mode[..4], mode[5..];
    assert mode == pre + "-" + post;
    HyphenatedLabel(pre, post);
    assert pre + " " + post == "blog post";
  }
}
