/** A paginated walk: List, then List again from the continuation token, until a page is not truncated.
    The store may change arbitrarily between pages, so the j-th page is served from an arbitrary set of
    keys views[j]; every interleaving of inserts and deletes is some such sequence of views. */
module PagedWalk {
  import opened Lex
  import opened Pages
  import Sets

  /** pages is what a walker starting at `token` has seen so far.  Any page size is allowed: the client's
      pages are an instance (PageServes), and so are those of any server that answers in key order. */
  ghost predicate IsWalk(views: seq<set<Key>>, prefix: Key, delim: string, token: Key, pages: seq<Page>)
    decreases |pages|
  {
    && |pages| == |views|
    && (pages != [] ==> Serves(pages[0], FlatKeys(views[0], prefix, delim, token)))
    && (|pages| > 1 ==> pages[0].truncated && IsWalk(views[1..], prefix, delim, pages[0].next, pages[1..]))
  }

  /** The walk is over: its last page was not truncated. */
  ghost predicate Finished(pages: seq<Page>) {
    pages != [] && !pages[|pages| - 1].truncated
  }

  /** All keys returned by the walk, in the order the walker sees them. */
  ghost function Returned(pages: seq<Page>): seq<Key> {
    if pages == [] then [] else pages[0].keys + Returned(pages[1..])
  }

  /** One more page, asked for with the last page's continuation token. */
  lemma {:induction false} WalkExtends(views: seq<set<Key>>, prefix: Key, delim: string, token: Key, pages: seq<Page>,
                                       view: set<Key>, page: Page)
    requires IsWalk(views, prefix, delim, token, pages)
    requires pages != [] ==> pages[|pages| - 1].truncated
    requires Serves(page, FlatKeys(view, prefix, delim, if pages == [] then token else pages[|pages| - 1].next))
    ensures IsWalk(views + [view], prefix, delim, token, pages + [page])
    decreases |pages|
  {
    if pages != [] {
      if |pages| > 1 {
        WalkExtends(views[1..], prefix, delim, pages[0].next, pages[1..], view, page);
      } else {
        assert IsWalk([view], prefix, delim, pages[0].next, [page]);
      }
      assert (views + [view])[1..] == views[1..] + [view] && (pages + [page])[1..] == pages[1..] + [page];
    }
  }

  lemma {:induction false} WalkPage(views: seq<set<Key>>, prefix: Key, delim: string, token: Key, pages: seq<Page>, j: nat)
    requires IsWalk(views, prefix, delim, token, pages) && j < |pages|
    ensures Serves(pages[j], FlatKeys(views[j], prefix, delim, if j == 0 then token else pages[j - 1].next))
    ensures j < |pages| - 1 ==> pages[j].truncated
    decreases |pages|
  {
    if j > 0 {
      WalkPage(views[1..], prefix, delim, pages[0].next, pages[1..], j - 1);
    }
  }

  /** No key is ever returned twice, whatever the store does: the whole walk is strictly increasing,
      and it returns only flat keys under the prefix, from the token on. */
  lemma {:induction false} WalkStrictlyIncreasing(views: seq<set<Key>>, prefix: Key, delim: string, token: Key, pages: seq<Page>)
    requires IsWalk(views, prefix, delim, token, pages)
    ensures StrictlySorted(Returned(pages))
    ensures forall k :: k in Returned(pages) ==> Eligible(k, prefix, token) && IsFlat(k, prefix, delim)
    decreases |pages|
  {
    if |pages| == 1 {
      assert Returned(pages) == pages[0].keys;
    } else if pages != [] {
      var page, rest := pages[0], pages[1..];
      WalkStrictlyIncreasing(views[1..], prefix, delim, page.next, rest);
      assert page.keys[0] in page.keys;
      TokensIncrease(token, page.keys[0], page.next);
      ConcatSorted(page.keys, Returned(rest), page.next);
    }
  }

  lemma TokensIncrease(token: Key, k: Key, next: Key)
    requires token == "" || AtMost(token, k)
    requires Less(k, next)
    ensures next != "" && forall k' :: AtMost(next, k') ==> Less(k, k') && AtMost(token, k')
  {
    forall k' | AtMost(next, k') ensures Less(k, k') && AtMost(token, k') {
      LessAtMost(k, next, k');
      if token == "" {
        PrefixAtMost(token, k');
      } else {
        LessAtMost(token, k, k');
        Trichotomy(token, k');
      }
    }
  }

  lemma ConcatSorted(s: seq<Key>, t: seq<Key>, next: Key)
    requires StrictlySorted(s) && StrictlySorted(t)
    requires (forall k :: k in s ==> Less(k, next)) && (forall k :: k in t ==> AtMost(next, k))
    ensures StrictlySorted(s + t)
  {
    forall i, j | 0 <= i < |s| && 0 <= j < |t| ensures Less(s[i], t[j]) {
      assert s[i] in s && t[j] in t;
      LessAtMost(s[i], next, t[j]);
    }
  }

  /** The page whose range of keys includes k. */
  ghost function PageFor(pages: seq<Page>, k: Key): (j: nat)
    requires Finished(pages)
    ensures j < |pages|
    decreases |pages|
  {
    if |pages| == 1 || !pages[0].truncated || Less(k, pages[0].next) then 0
    else 1 + PageFor(pages[1..], k)
  }

  /** The covering page is the one page at whose token k has come up and before whose continuation token it sorts. */
  lemma {:induction false} PageForCovers(pages: seq<Page>, k: Key)
    requires Finished(pages)
    ensures var j := PageFor(pages, k);
            && (forall i :: 0 <= i < j ==> pages[i].truncated && AtMost(pages[i].next, k))
            && (j < |pages| - 1 ==> !pages[j].truncated || Less(k, pages[j].next))
    decreases |pages|
  {
    if !(|pages| == 1 || !pages[0].truncated || Less(k, pages[0].next)) {
      PageForCovers(pages[1..], k);
      var j := PageFor(pages, k);
      forall i | 0 <= i < j ensures pages[i].truncated && AtMost(pages[i].next, k) {
        assert i > 0 ==> pages[i] == pages[1..][i - 1];
      }
    }
  }

  /** Exactly which keys a finished walk returns: k is returned if and only if it was in the store when the one
      page covering it was served.  Insertions and deletions at any other time, even of a token key, do not matter. */
  lemma {:induction false} ReturnedIffPresent(views: seq<set<Key>>, prefix: Key, delim: string, token: Key,
                                              pages: seq<Page>, k: Key)
    requires IsWalk(views, prefix, delim, token, pages) && Finished(pages)
    requires Eligible(k, prefix, token) && IsFlat(k, prefix, delim)
    ensures k in Returned(pages) <==> k in views[PageFor(pages, k)]
    ensures k in Returned(pages) <==> k in pages[PageFor(pages, k)].keys
    decreases |pages|
  {
    var page := pages[0];
    if |pages| == 1 {
      assert Returned(pages) == page.keys;
    } else {
      var rest := pages[1..];
      assert page.keys[0] in page.keys;
      TokensIncrease(token, page.keys[0], page.next);
      WalkStrictlyIncreasing(views[1..], prefix, delim, page.next, rest);
      if AtMost(page.next, k) {
        ReturnedIffPresent(views[1..], prefix, delim, page.next, rest, k);
      }
    }
  }

  /** The two corollaries a user of the listing asks for. */
  lemma WalkComplete(views: seq<set<Key>>, prefix: Key, delim: string, pages: seq<Page>)
    requires IsWalk(views, prefix, delim, "", pages) && Finished(pages)
    ensures forall k :: prefix <= k && IsFlat(k, prefix, delim) && (forall j :: 0 <= j < |views| ==> k in views[j])
              ==> k in Returned(pages)
    ensures forall k :: k in Returned(pages) ==> exists j :: 0 <= j < |views| && k in views[j] && k in pages[j].keys
  {
    forall k | prefix <= k && IsFlat(k, prefix, delim) && (forall j :: 0 <= j < |views| ==> k in views[j])
      ensures k in Returned(pages)
    {
      ReturnedIffPresent(views, prefix, delim, "", pages, k);
    }
    WalkStrictlyIncreasing(views, prefix, delim, "", pages);
    forall k | k in Returned(pages) ensures exists j :: 0 <= j < |views| && k in views[j] && k in pages[j].keys {
      ReturnedIffPresent(views, prefix, delim, "", pages, k);
      assert k in views[PageFor(pages, k)];
    }
  }

  lemma FlatKeysShrink(all: set<Key>, prefix: Key, delim: string, token: Key, k: Key, next: Key)
    requires k in FlatKeys(all, prefix, delim, token) && Less(k, next)
    ensures FlatKeys(all, prefix, delim, next) < FlatKeys(all, prefix, delim, token)
  {
    TokensIncrease(token, k, next);
    LessIrreflexive(k);
  }

  /** A walk ends: if every key that ever appears comes from a finite set, there is at most one page
      more than that set has flat keys, in every interleaving. */
  lemma {:induction false} WalkBounded(views: seq<set<Key>>, prefix: Key, delim: string, token: Key,
                                       pages: seq<Page>, all: set<Key>)
    requires IsWalk(views, prefix, delim, token, pages)
    requires forall j :: 0 <= j < |views| ==> views[j] <= all
    ensures |pages| <= |FlatKeys(all, prefix, delim, token)| + 1
    decreases |pages|
  {
    if |pages| > 1 {
      var page := pages[0];
      assert page.keys[0] in page.keys;
      assert page.keys[0] in FlatKeys(all, prefix, delim, token);
      WalkBounded(views[1..], prefix, delim, page.next, pages[1..], all);
      FlatKeysShrink(all, prefix, delim, token, page.keys[0], page.next);
      Sets.SubsetSmaller(FlatKeys(all, prefix, delim, page.next), FlatKeys(all, prefix, delim, token));
    }
  }

  /** On a store that does not change, the pages concatenate to the full sorted listing. */
  lemma StaticWalk(ks: set<Key>, views: seq<set<Key>>, prefix: Key, delim: string, pages: seq<Page>)
    requires IsWalk(views, prefix, delim, "", pages) && Finished(pages)
    requires forall j :: 0 <= j < |views| ==> views[j] == ks
    ensures Returned(pages) == Listing(FlatKeys(ks, prefix, delim, ""))
  {
    WalkStrictlyIncreasing(views, prefix, delim, "", pages);
    forall k ensures k in Returned(pages) <==> k in FlatKeys(ks, prefix, delim, "") {
      if prefix <= k && IsFlat(k, prefix, delim) {
        ReturnedIffPresent(views, prefix, delim, "", pages, k);
      }
    }
    ListingUnique(Returned(pages), Listing(FlatKeys(ks, prefix, delim, "")), FlatKeys(ks, prefix, delim, ""));
  }

  /** The client's own pages: page j is what it answers request j with, asked for maxKeys keys. */
  ghost predicate PagesOf(views: seq<set<Key>>, prefix: Key, delim: string, maxKeys: int, pages: seq<Page>) {
    |pages| == |views| && forall j :: 0 <= j < |pages| ==> ServedPage(views, prefix, delim, maxKeys, pages, j)
  }

  ghost predicate ServedPage(views: seq<set<Key>>, prefix: Key, delim: string, maxKeys: int, pages: seq<Page>, j: nat)
    requires |pages| == |views| && j < |pages|
  {
    pages[j] == PageOf(views[j], prefix, delim, TokenAt(pages, j), maxKeys)
  }

  lemma PagesOfSnoc(views: seq<set<Key>>, prefix: Key, delim: string, maxKeys: int, pages: seq<Page>, view: set<Key>, page: Page)
    requires PagesOf(views, prefix, delim, maxKeys, pages)
    requires page == PageOf(view, prefix, delim, TokenAt(pages, |pages|), maxKeys)
    ensures PagesOf(views + [view], prefix, delim, maxKeys, pages + [page])
  {
    hide PageOf;
    forall j | 0 <= j < |pages| + 1 ensures ServedPage(views + [view], prefix, delim, maxKeys, pages + [page], j) {
      if j < |pages| {
        assert ServedPage(views, prefix, delim, maxKeys, pages, j);
      }
    }
  }

  /** Every page is full except the last. */
  ghost predicate FullPages(pages: seq<Page>, m: nat) {
    forall j :: 0 <= j < |pages| ==> if pages[j].truncated then |pages[j].keys| == m else |pages[j].keys| <= m
  }

  /** The client's pages are full, with fewer than 2^31 flat keys in each view. */
  lemma PagesFull(views: seq<set<Key>>, prefix: Key, delim: string, maxKeys: int, pages: seq<Page>)
    requires PagesOf(views, prefix, delim, maxKeys, pages)
    requires forall j :: 0 <= j < |views| ==> |FlatKeys(views[j], prefix, delim, "")| < 0x8000_0000
    ensures FullPages(pages, PageSize(maxKeys))
  {
    hide FlatKeys, PageOf;
    forall j | 0 <= j < |pages|
      ensures if pages[j].truncated then |pages[j].keys| == PageSize(maxKeys) else |pages[j].keys| <= PageSize(maxKeys)
    {
      assert ServedPage(views, prefix, delim, maxKeys, pages, j);
      FullPage(views[j], prefix, delim, TokenAt(pages, j), maxKeys);
    }
  }

  lemma FullPage(ks: set<Key>, prefix: Key, delim: string, token: Key, maxKeys: int)
    requires |FlatKeys(ks, prefix, delim, "")| < 0x8000_0000
    ensures var p := PageOf(ks, prefix, delim, token, maxKeys);
            if p.truncated then |p.keys| == PageSize(maxKeys) else |p.keys| <= PageSize(maxKeys)
  {
    var flat, cps := Listing(FlatKeys(ks, prefix, delim, token)), Listing(Groups(ks, prefix, delim, token));
    Sets.SubsetAtMost(FlatKeys(ks, prefix, delim, token), FlatKeys(ks, prefix, delim, ""));
    hide FlatKeys, Groups, Cut;
    CutCases(flat, cps, maxKeys);
  }

  lemma {:induction false} ReturnedSize(views: seq<set<Key>>, prefix: Key, delim: string, token: Key, pages: seq<Page>, m: nat)
    requires IsWalk(views, prefix, delim, token, pages) && Finished(pages) && FullPages(pages, m)
    ensures |Returned(pages)| == (|pages| - 1) * m + |pages[|pages| - 1].keys|
    decreases |pages|
  {
    if |pages| == 1 {
      assert Returned(pages) == pages[0].keys;
    } else {
      var rest := pages[1..];
      assert forall j :: 0 <= j < |rest| ==> rest[j] == pages[j + 1];
      ReturnedSize(views[1..], prefix, delim, pages[0].next, rest, m);
      assert (|pages| - 1) * m == (|rest| - 1) * m + m;
    }
  }

  /** Full pages of size m walk an unchanging store of n flat keys in ceil(n / m) of them (one if n = 0). */
  lemma FullPageCount(ks: set<Key>, views: seq<set<Key>>, prefix: Key, delim: string, pages: seq<Page>, m: nat)
    requires IsWalk(views, prefix, delim, "", pages) && Finished(pages) && FullPages(pages, m)
    requires forall j :: 0 <= j < |views| ==> views[j] == ks
    ensures var n := |FlatKeys(ks, prefix, delim, "")|;
            (|pages| - 1) * m < n <= |pages| * m || (n == 0 && |pages| == 1)
  {
    var n := StaticSize(ks, views, prefix, delim, pages, m);
    CeilingBounds(|pages|, m, |pages[|pages| - 1].keys|, n);
  }

  /** The client walks an unchanging store of n < 2^31 flat keys in ceil(n / m) pages of its page size m (one if n = 0). */
  lemma StaticPageCount(ks: set<Key>, views: seq<set<Key>>, prefix: Key, delim: string, maxKeys: int, pages: seq<Page>)
    requires IsWalk(views, prefix, delim, "", pages) && Finished(pages) && PagesOf(views, prefix, delim, maxKeys, pages)
    requires forall j :: 0 <= j < |views| ==> views[j] == ks
    requires |FlatKeys(ks, prefix, delim, "")| < 0x8000_0000
    ensures var n, m := |FlatKeys(ks, prefix, delim, "")|, PageSize(maxKeys);
            (|pages| - 1) * m < n <= |pages| * m || (n == 0 && |pages| == 1)
  {
    hide IsWalk, PagesOf, FlatKeys, FullPages;
    PagesFull(views, prefix, delim, maxKeys, pages);
    FullPageCount(ks, views, prefix, delim, pages, PageSize(maxKeys));
  }

  lemma StaticSize(ks: set<Key>, views: seq<set<Key>>, prefix: Key, delim: string, pages: seq<Page>, m: nat) returns (n: nat)
    requires IsWalk(views, prefix, delim, "", pages) && Finished(pages) && FullPages(pages, m)
    requires forall j :: 0 <= j < |views| ==> views[j] == ks
    ensures n == |FlatKeys(ks, prefix, delim, "")|
    ensures n == (|pages| - 1) * m + |pages[|pages| - 1].keys|
    ensures |pages[|pages| - 1].keys| <= m
    ensures |pages| > 1 ==> |pages[|pages| - 1].keys| > 0
  {
    n := |Returned(pages)|;
    StaticWalk(ks, views, prefix, delim, pages);
    ReturnedSize(views, prefix, delim, "", pages, m);
    if |pages| > 1 {
      LaterPageNotEmpty(ks, views, prefix, delim, pages);
    }
  }

  lemma CeilingBounds(pages: nat, m: nat, last: nat, n: nat)
    requires n == (pages - 1) * m + last && last <= m
    requires pages == 1 || (pages > 1 && last > 0)
    ensures (pages - 1) * m < n <= pages * m || (n == 0 && pages == 1)
  {
    assert pages * m == (pages - 1) * m + m;
  }

  lemma LaterPageNotEmpty(ks: set<Key>, views: seq<set<Key>>, prefix: Key, delim: string, pages: seq<Page>)
    requires IsWalk(views, prefix, delim, "", pages) && Finished(pages) && |pages| > 1
    requires forall j :: 0 <= j < |views| ==> views[j] == ks
    ensures pages[|pages| - 1].keys != []
  {
    var last := |pages| - 1;
    WalkPage(views, prefix, delim, "", pages, last - 1);
    WalkPage(views, prefix, delim, "", pages, last);
    var next := pages[last - 1].next;
    LessIrreflexive(next);
    assert next in FlatKeys(ks, prefix, delim, next);
    assert next in pages[last].keys;
  }
}
