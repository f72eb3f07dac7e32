/** The paginated message listing of `Divider._get_messages`, as functions of the
    pages the API hands back. */
module Listing {
  import opened Wrappers

  type Id = string

  /** The two mailboxes: `home_service` and `work_service`. */
  datatype Account = Home | Work

  /** One entry of a listing response: a message id and its thread id. */
  datatype MessageRef = MessageRef(id: Id, threadId: Id)

  /** One listing response: the optional `messages` key and the optional `nextPageToken`. */
  datatype Page = Page(messages: Option<seq<MessageRef>>, nextPageToken: Option<string>)

  /** What a page contributes; a page without a `messages` key contributes nothing. */
  function Entries(p: Page): seq<MessageRef> {
    if p.messages.Some? then p.messages.value else []
  }

  /** The responses to one query, in the order the loop receives them: the first from
      the account asked, the follow-on pages in answer to each `nextPageToken`. The API
      eventually answers a page without a token. */
  predicate ListingEnds(pages: seq<Page>) {
    |pages| > 0 && pages[|pages| - 1].nextPageToken.None?
  }

  /** The entries of `pages`, in page order. */
  function Collected(pages: seq<Page>): seq<MessageRef> {
    if pages == [] then []
    else Collected(pages[..|pages| - 1]) + Entries(pages[|pages| - 1])
  }

  /** Python truthiness of `self.limit`: neither `None` nor `0`. */
  predicate LimitSet(limit: Option<int>) {
    limit.Some? && limit.value != 0
  }

  /** Whether the loop ends once it has read the first `k` pages: the last page read
      has no `nextPageToken`, or, after a follow-on page, the limit is set, obeyed and
      reached. */
  predicate StopsAfter(pages: seq<Page>, k: nat, limit: Option<int>, obeyLimit: bool)
    requires 1 <= k <= |pages|
  {
    || pages[k - 1].nextPageToken.None?
    || (k > 1 && LimitSet(limit) && obeyLimit && |Collected(pages[..k])| >= limit.value)
  }

  /** The first stopping point at or after `k`. */
  function ConsumedFrom(pages: seq<Page>, k: nat, limit: Option<int>, obeyLimit: bool): (n: nat)
    requires ListingEnds(pages) && 1 <= k <= |pages|
    ensures k <= n <= |pages|
    ensures StopsAfter(pages, n, limit, obeyLimit)
    ensures forall j | k <= j < n :: !StopsAfter(pages, j, limit, obeyLimit)
    decreases |pages| - k
  {
    if StopsAfter(pages, k, limit, obeyLimit) then k
    else ConsumedFrom(pages, k + 1, limit, obeyLimit)
  }

  /** How many pages `_get_messages` reads. */
  function PagesConsumed(pages: seq<Page>, limit: Option<int>, obeyLimit: bool): (n: nat)
    requires ListingEnds(pages)
  {
    ConsumedFrom(pages, 1, limit, obeyLimit)
  }

  /** What `_get_messages` returns. */
  function Listed(pages: seq<Page>, limit: Option<int>, obeyLimit: bool): seq<MessageRef>
    requires ListingEnds(pages)
  {
    Collected(pages[..PagesConsumed(pages, limit, obeyLimit)])
  }

  /** The listing reads pages up to the first point where it may stop, and no further. */
  lemma FirstStop(pages: seq<Page>, limit: Option<int>, obeyLimit: bool)
    requires ListingEnds(pages)
    ensures var n := PagesConsumed(pages, limit, obeyLimit);
      1 <= n <= |pages| && StopsAfter(pages, n, limit, obeyLimit) &&
      forall j | 1 <= j < n :: !StopsAfter(pages, j, limit, obeyLimit)
  {
  }

  /** An entry is collected exactly when one of the pages holds it. */
  lemma {:induction false} CollectedMembership(pages: seq<Page>, r: MessageRef)
    ensures r in Collected(pages) <==> exists j | 0 <= j < |pages| :: r in Entries(pages[j])
  {
    if pages != [] {
      var init := pages[..|pages| - 1];
      CollectedMembership(init, r);
      if r in Collected(init) {
        var j :| 0 <= j < |init| && r in Entries(init[j]);
        assert pages[j] == init[j];
      }
      if exists j | 0 <= j < |pages| :: r in Entries(pages[j]) {
        var j :| 0 <= j < |pages| && r in Entries(pages[j]);
        if j < |pages| - 1 {
          assert init[j] == pages[j];
        }
      }
    }
  }

  /** The first page alone never ends a listing that has a follow-on page, whatever
      the limit: the result can hold more than `limit` entries. */
  lemma FirstPageNeverStops(pages: seq<Page>, limit: Option<int>, obeyLimit: bool)
    requires ListingEnds(pages)
    requires pages[0].nextPageToken.Some?
    ensures PagesConsumed(pages, limit, obeyLimit) >= 2
  {
    FirstStop(pages, limit, obeyLimit);
  }

  /** Without a set and obeyed limit the listing runs to the first page without a token. */
  lemma NoLimitReadsToEnd(pages: seq<Page>, limit: Option<int>, obeyLimit: bool)
    requires ListingEnds(pages)
    requires !LimitSet(limit) || !obeyLimit
    ensures var n := PagesConsumed(pages, limit, obeyLimit);
      pages[n - 1].nextPageToken.None? &&
      forall j | 0 <= j < n - 1 :: pages[j].nextPageToken.Some?
  {
    var n := PagesConsumed(pages, limit, obeyLimit);
    FirstStop(pages, limit, obeyLimit);
    forall j | 0 <= j < n - 1
      ensures pages[j].nextPageToken.Some?
    {
      assert !StopsAfter(pages, j + 1, limit, obeyLimit);
    }
  }

  /** The overshoot is bounded: when three or more pages are read, the entries of all
      pages but the last number fewer than the limit. The first page alone may exceed
      it, since the limit is never checked after the first page. */
  lemma OvershootBound(pages: seq<Page>, limit: Option<int>)
    requires ListingEnds(pages)
    requires LimitSet(limit)
    ensures var n := PagesConsumed(pages, limit, true);
      n >= 3 ==> |Collected(pages[..n - 1])| < limit.value
  {
    var n := PagesConsumed(pages, limit, true);
    FirstStop(pages, limit, true);
    if n >= 3 {
      assert !StopsAfter(pages, n - 1, limit, true);
    }
  }

  /** A limit of 2 over a first page of three entries and a last page of two: the
      listing reads both pages and returns five entries. */
  lemma OvershootExample(a: MessageRef, b: MessageRef, c: MessageRef, d: MessageRef, e: MessageRef)
    ensures var pages := [Page(Some([a, b, c]), Some("t")), Page(Some([d, e]), None)];
      ListingEnds(pages) && |Listed(pages, Some(2), true)| == 5
  {
    var pages := [Page(Some([a, b, c]), Some("t")), Page(Some([d, e]), None)];
    assert pages[..1][..0] == [];
    assert pages[..2][..1] == pages[..1];
    assert pages[..2] == pages;
    FirstPageNeverStops(pages, Some(2), true);
    assert PagesConsumed(pages, Some(2), true) == 2;
    assert Collected(pages[..1]) == [a, b, c];
    assert Collected(pages) == [a, b, c] + [d, e];
  }
}
