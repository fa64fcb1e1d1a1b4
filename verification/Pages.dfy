/** What one List request of the in-memory S3 client means: a page of a sorted,
    prefix-filtered listing with delimiter roll-up.  The client's own loops are in
    Store.dfy; this module is the specification they are proved against. */
module Pages {
  import opened Lex

  datatype Page = Page(keys: seq<Key>, commonPrefixes: seq<Key>, next: Key, truncated: bool)

  /** Go's int32(n) conversion: the low 32 bits, read as a signed number. */
  function Int32(n: int): int {
    (n + 0x8000_0000) % 0x1_0000_0000 - 0x8000_0000
  }

  /** The conversion keeps the number modulo 2^32 and yields a signed 32-bit number. */
  lemma Int32Is(n: int)
    ensures -0x8000_0000 <= Int32(n) < 0x8000_0000 && exists q :: n == Int32(n) + q * 0x1_0000_0000
  {
    var q := (n + 0x8000_0000) / 0x1_0000_0000;
    assert n == Int32(n) + q * 0x1_0000_0000;
  }

  lemma Int32AtMost(n: nat)
    ensures Int32(n) <= n
    ensures n < 0x8000_0000 ==> Int32(n) == n
  {
  }

  /** strings.Index: where d first occurs in s, or -1. */
  function IndexOf(s: string, d: string): (r: int)
    requires d != []
    ensures -1 <= r && (r >= 0 ==> r + |d| <= |s|)
  {
    if d <= s then 0
    else if s == [] then -1
    else
      var r := IndexOf(s[1..], d);
      if r < 0 then -1 else r + 1
  }

  predicate OccursAt(s: string, d: string, i: int) {
    0 <= i && i + |d| <= |s| && s[i..i + |d|] == d
  }

  lemma {:induction false} IndexOfFirst(s: string, d: string)
    requires d != []
    ensures var r := IndexOf(s, d);
            (r >= 0 ==> OccursAt(s, d, r)) && forall j :: OccursAt(s, d, j) ==> 0 <= r <= j
  {
    OccursAtHead(s, d);
    if s != [] && !(d <= s) {
      IndexOfFirst(s[1..], d);
      forall j | j >= 1 ensures OccursAt(s, d, j) <==> OccursAt(s[1..], d, j - 1) {
        OccursInTail(s, d, j);
      }
      hide OccursAt;
    }
  }

  lemma OccursAtHead(s: string, d: string)
    ensures OccursAt(s, d, 0) <==> d <= s
  {
    if |d| <= |s| {
      assert s[0..|d|] == s[..|d|];
    }
  }

  lemma OccursInTail(s: string, d: string, j: int)
    requires s != [] && j >= 1
    ensures OccursAt(s, d, j) <==> OccursAt(s[1..], d, j - 1)
  {
    if j + |d| <= |s| {
      assert s[1..][j - 1..j - 1 + |d|] == s[j..j + |d|];
    }
  }

  /** The key contains no delimiter after the prefix, so it is reported as itself. */
  predicate IsFlat(k: Key, prefix: Key, delim: string)
    requires prefix <= k
  {
    delim == "" || IndexOf(k[|prefix|..], delim) < 0
  }

  /** The common prefix a rolled-up key belongs to: everything up to its first delimiter after the prefix. */
  function GroupOf(k: Key, prefix: Key, delim: string): (cp: Key)
    requires prefix <= k && !IsFlat(k, prefix, delim)
    ensures prefix <= cp <= k
  {
    prefix + k[|prefix|..][..IndexOf(k[|prefix|..], delim) + |delim|]
  }

  predicate Eligible(k: Key, prefix: Key, token: Key) {
    prefix <= k && (token == "" || AtMost(token, k))
  }

  ghost function FlatKeys(ks: set<Key>, prefix: Key, delim: string, token: Key): set<Key> {
    set k | k in ks && Eligible(k, prefix, token) && IsFlat(k, prefix, delim)
  }

  ghost function Groups(ks: set<Key>, prefix: Key, delim: string, token: Key): set<Key> {
    set k | k in ks && Eligible(k, prefix, token) && !IsFlat(k, prefix, delim) :: GroupOf(k, prefix, delim)
  }

  function PageSize(maxKeys: int): (m: int)
    ensures m >= 1
  {
    if maxKeys <= 0 then 1000 else maxKeys
  }

  /** Truncation: the conversion of the length to int32 comes before the comparison. */
  function Cut(flat: seq<Key>, cps: seq<Key>, maxKeys: int): (p: Page)
    ensures p.truncated ==> PageSize(maxKeys) < |flat|
  {
    var m := PageSize(maxKeys);
    Int32AtMost(|flat|);
    if Int32(|flat|) > m then Page(flat[..m], cps, flat[m], true)
    else Page(flat, cps, "", false)
  }

  lemma CutCases(flat: seq<Key>, cps: seq<Key>, maxKeys: int)
    ensures var p := Cut(flat, cps, maxKeys);
            var m := PageSize(maxKeys);
            || p == Page(flat, cps, "", false)
            || (m < |flat| && p == Page(flat[..m], cps, flat[m], true))
    ensures |flat| < 0x8000_0000 ==> (Cut(flat, cps, maxKeys).truncated <==> PageSize(maxKeys) < |flat|)
  {
  }

  /** A page is no longer than the page size exactly when there are no more keys than that or the converted number
      of keys still exceeds it: only a conversion that wraps lets an over-long page through. */
  lemma WithinPageSizeIff(flat: seq<Key>, cps: seq<Key>, maxKeys: int)
    ensures |Cut(flat, cps, maxKeys).keys| <= PageSize(maxKeys)
       <==> |flat| <= PageSize(maxKeys) || Int32(|flat|) > PageSize(maxKeys)
  {
  }

  /** 2^31 keys: the conversion gives -2^31, so all of them are returned in one page that claims to be the last. */
  lemma NotTruncated(flat: seq<Key>, cps: seq<Key>, maxKeys: int)
    requires |flat| == 0x8000_0000
    ensures Int32(|flat|) == -0x8000_0000
    ensures Cut(flat, cps, maxKeys) == Page(flat, cps, "", false)
  {
  }

  /** The page a bucket holding the keys ks answers with. */
  ghost function PageOf(ks: set<Key>, prefix: Key, delim: string, token: Key, maxKeys: int): Page {
    Cut(Listing(FlatKeys(ks, prefix, delim, token)), Listing(Groups(ks, prefix, delim, token)), maxKeys)
  }

  /** The token request j is made with. */
  function TokenAt(pages: seq<Page>, j: nat): Key
    requires j <= |pages|
  {
    if j == 0 then "" else pages[j - 1].next
  }

  lemma SplitAt(flat: seq<Key>, ks: set<Key>, m: nat, k: Key)
    requires Lists(flat, ks) && m < |flat|
    ensures k in flat[..m] <==> k in ks && Less(k, flat[m])
  {
    if k in flat[..m] {
      var i :| 0 <= i < m && flat[i] == k;
      assert flat[i] in flat;
    }
    if k in ks && Less(k, flat[m]) {
      var i :| 0 <= i < |flat| && flat[i] == k;
      Trichotomy(flat[m], flat[i]);
      assert i < m;
      assert k == flat[..m][i];
    }
  }

  /** What a walker relies on: the page's keys are, in order, the members of ks that sort before `next`
      (all of them when the page is not truncated). */
  ghost predicate Serves(p: Page, ks: set<Key>) {
    && StrictlySorted(p.keys)
    && (forall k :: k in p.keys <==> k in ks && (p.truncated ==> Less(k, p.next)))
    && (p.truncated ==> p.keys != [] && Less(p.keys[0], p.next) && p.next in ks)
  }

  lemma CutServes(flat: seq<Key>, ks: set<Key>, cps: seq<Key>, m: nat, p: Page)
    requires Lists(flat, ks) && 0 < m
    requires p == Page(flat, cps, "", false) || (m < |flat| && p == Page(flat[..m], cps, flat[m], true))
    ensures Serves(p, ks)
  {
    if p.truncated {
      assert flat[m] in flat;
      forall k ensures k in p.keys <==> k in ks && Less(k, p.next) {
        SplitAt(flat, ks, m, k);
      }
    }
  }

  lemma PageServes(ks: set<Key>, prefix: Key, delim: string, token: Key, maxKeys: int)
    ensures var p := PageOf(ks, prefix, delim, token, maxKeys);
            Serves(p, FlatKeys(ks, prefix, delim, token)) && (p.truncated ==> |p.keys| == PageSize(maxKeys))
  {
    var flat := Listing(FlatKeys(ks, prefix, delim, token));
    var cps := Listing(Groups(ks, prefix, delim, token));
    CutCases(flat, cps, maxKeys);
    CutServes(flat, FlatKeys(ks, prefix, delim, token), cps, PageSize(maxKeys), Cut(flat, cps, maxKeys));
  }

  // ----- delimiter roll-up -----

  lemma SliceOfTake(s: string, e: nat, i: nat, j: nat)
    requires i <= j <= e <= |s|
    ensures s[i..j] == s[..e][i..j]
  {
  }

  /** The delimiter does not occur. */
  ghost predicate Without(s: string, d: string) {
    forall j :: !OccursAt(s, d, j)
  }

  /** j is where the delimiter first occurs. */
  ghost predicate FirstAt(s: string, d: string, j: nat) {
    OccursAt(s, d, j) && forall i: nat :: i < j ==> !OccursAt(s, d, i)
  }

  lemma FlatIff(k: Key, prefix: Key, delim: string)
    requires prefix <= k
    ensures IsFlat(k, prefix, delim) <==> delim == "" || Without(k[|prefix|..], delim)
  {
    if delim != "" {
      IndexOfFirst(k[|prefix|..], delim);
    }
  }

  lemma GroupIs(k: Key, prefix: Key, delim: string, j: nat)
    requires prefix <= k && !IsFlat(k, prefix, delim)
    ensures FirstAt(k[|prefix|..], delim, j) <==> j == IndexOf(k[|prefix|..], delim)
    ensures FirstAt(k[|prefix|..], delim, j) ==> GroupOf(k, prefix, delim) == k[..|prefix| + j + |delim|]
  {
    var rest := k[|prefix|..];
    IndexOfFirst(rest, delim);
    if FirstAt(rest, delim, j) {
      assert k == prefix + rest;
      assert k[..|prefix| + j + |delim|] == prefix + rest[..j + |delim|];
    }
  }

  /** Which keys a page holds: those of the bucket under the prefix, from the token to the continuation token, in which the
      delimiter is nowhere after the prefix.  A truncated page holds the first maxKeys of them, 1000 by default. */
  lemma PageKeysAre(ks: set<Key>, prefix: Key, delim: string, token: Key, maxKeys: int)
    ensures var p := PageOf(ks, prefix, delim, token, maxKeys);
            && StrictlySorted(p.keys)
            && (forall k :: k in p.keys <==>
                  && k in ks && prefix <= k && (token == "" || AtMost(token, k)) && (p.truncated ==> Less(k, p.next))
                  && (delim == "" || Without(k[|prefix|..], delim)))
            && (p.truncated ==> |p.keys| == if maxKeys <= 0 then 1000 else maxKeys)
  {
    PageServes(ks, prefix, delim, token, maxKeys);
    forall k: Key | prefix <= k ensures IsFlat(k, prefix, delim) <==> delim == "" || Without(k[|prefix|..], delim) {
      FlatIff(k, prefix, delim);
    }
    hide IsFlat, Without;
  }

  /** Which common prefixes it reports: what the other keys of the bucket from the token on start with, up to and with the
      first delimiter after the prefix.  Every such key lies under one of them, whether the page is truncated or not. */
  lemma CommonPrefixesAre(ks: set<Key>, prefix: Key, delim: string, token: Key, maxKeys: int)
    ensures var p := PageOf(ks, prefix, delim, token, maxKeys);
            && StrictlySorted(p.commonPrefixes)
            && (delim == "" ==> p.commonPrefixes == [])
            && (delim != "" ==>
                  && (forall g :: g in p.commonPrefixes ==> exists k, j :: IsGroup(ks, prefix, delim, token, k, j, g))
                  && (forall k, j: nat ::
                        k in ks && prefix <= k && (token == "" || AtMost(token, k)) && FirstAt(k[|prefix|..], delim, j)
                        ==> k[..|prefix| + j + |delim|] in p.commonPrefixes))
  {
    var groups := Groups(ks, prefix, delim, token);
    if delim != "" {
      hide IndexOf;
      forall k: Key, j: nat
        | k in ks && prefix <= k && (token == "" || AtMost(token, k)) && FirstAt(k[|prefix|..], delim, j)
        ensures k[..|prefix| + j + |delim|] in groups
      {
        FlatIff(k, prefix, delim);
        GroupIs(k, prefix, delim, j);
      }
      forall g | g in groups ensures exists k, j :: IsGroup(ks, prefix, delim, token, k, j, g) {
        var k :| k in ks && Eligible(k, prefix, token) && !IsFlat(k, prefix, delim) && g == GroupOf(k, prefix, delim);
        var j := IndexOf(k[|prefix|..], delim);
        GroupIs(k, prefix, delim, j);
        assert IsGroup(ks, prefix, delim, token, k, j, g);
      }
    }
  }

  /** k is a key from the token on whose first delimiter after the prefix is at j, and g is what it starts with. */
  ghost predicate IsGroup(ks: set<Key>, prefix: Key, delim: string, token: Key, k: Key, j: nat, g: Key) {
    && k in ks && prefix <= k && (token == "" || AtMost(token, k))
    && FirstAt(k[|prefix|..], delim, j) && g == k[..|prefix| + j + |delim|]
  }

  /** A key with the delimiter anywhere after the prefix is not reported itself but lies under a reported common prefix. */
  lemma RolledUp(ks: set<Key>, prefix: Key, delim: string, token: Key, maxKeys: int, k: Key, j: nat)
    requires delim != "" && k in ks && prefix <= k && (token == "" || AtMost(token, k)) && OccursAt(k[|prefix|..], delim, j)
    ensures var p := PageOf(ks, prefix, delim, token, maxKeys);
            k !in p.keys && exists g :: g in p.commonPrefixes && g <= k
  {
    hide PageOf, OccursAt, IndexOf;
    PageKeysAre(ks, prefix, delim, token, maxKeys);
    CommonPrefixesAre(ks, prefix, delim, token, maxKeys);
    FlatIff(k, prefix, delim);
    var i := FirstOf(k[|prefix|..], delim, j);
    assert k[..|prefix| + i + |delim|] in PageOf(ks, prefix, delim, token, maxKeys).commonPrefixes;
  }

  lemma FirstOf(s: string, d: string, j: nat) returns (i: nat)
    requires d != "" && OccursAt(s, d, j)
    ensures FirstAt(s, d, i) && i + |d| <= |s|
  {
    IndexOfFirst(s, d);
    i := IndexOf(s, d);
  }

  /** A common prefix determines its members: any listed key that starts with it is rolled up into it. */
  lemma GroupDetermines(k: Key, k': Key, prefix: Key, delim: string)
    requires prefix <= k && !IsFlat(k, prefix, delim)
    requires GroupOf(k, prefix, delim) <= k'
    ensures prefix <= k' && !IsFlat(k', prefix, delim) && GroupOf(k', prefix, delim) == GroupOf(k, prefix, delim)
  {
    hide IndexOf;
    var cp := GroupOf(k, prefix, delim);
    var rest, rest' := k[|prefix|..], k'[|prefix|..];
    var i := IndexOf(rest, delim);
    var e := i + |delim|;
    assert rest[..e] == rest'[..e] by {
      assert cp[|prefix|..] == rest[..e];
      assert cp == k'[..|cp|];
      assert k'[..|cp|][|prefix|..] == rest'[..e];
    }
    IndexOfFirst(rest, delim);
    IndexOfFirst(rest', delim);
    forall j | 0 <= j <= i ensures OccursAt(rest, delim, j) <==> OccursAt(rest', delim, j) {
      SliceOfTake(rest, e, j, j + |delim|);
      SliceOfTake(rest', e, j, j + |delim|);
    }
    var i' := IndexOf(rest', delim);
    assert OccursAt(rest', delim, i);
    assert i' == i;
  }

  /** Roll-up keeps the order: later keys fall into the same or a later common prefix. */
  lemma GroupsOrdered(k: Key, k': Key, prefix: Key, delim: string)
    requires prefix <= k && !IsFlat(k, prefix, delim)
    requires prefix <= k' && !IsFlat(k', prefix, delim)
    requires Less(k, k')
    ensures GroupOf(k, prefix, delim) == GroupOf(k', prefix, delim)
         || Less(GroupOf(k, prefix, delim), GroupOf(k', prefix, delim))
  {
    var g, g' := GroupOf(k, prefix, delim), GroupOf(k', prefix, delim);
    if g <= g' {
      GroupDetermines(k, k', prefix, delim);
    } else if g' <= g {
      GroupDetermines(k', k, prefix, delim);
    } else {
      LessByHeads(g, g', k, k');
    }
  }

  /** Every key under the prefix is either flat, because the delimiter is nowhere after the prefix, and starts with no
      common prefix, or starts with exactly one. */
  lemma RollUpPartitions(ks: set<Key>, prefix: Key, delim: string, k: Key)
    requires k in ks && prefix <= k
    ensures var groups := Groups(ks, prefix, delim, "");
            if delim == "" || Without(k[|prefix|..], delim) then
              k in FlatKeys(ks, prefix, delim, "") && forall g :: g in groups ==> !(g <= k)
            else
              && k !in FlatKeys(ks, prefix, delim, "")
              && (exists g :: g in groups && g <= k)
              && (forall g, h :: g in groups && g <= k && h in groups && h <= k ==> g == h)
  {
    FlatIff(k, prefix, delim);
    if !IsFlat(k, prefix, delim) {
      assert GroupOf(k, prefix, delim) in Groups(ks, prefix, delim, "");
    }
    forall g | g in Groups(ks, prefix, delim, "") && g <= k
      ensures !IsFlat(k, prefix, delim) && g == GroupOf(k, prefix, delim)
    {
      var k' :| k' in ks && Eligible(k', prefix, "") && !IsFlat(k', prefix, delim) && g == GroupOf(k', prefix, delim);
      GroupDetermines(k', k, prefix, delim);
    }
  }

  /** A first page reports every common prefix, strictly increasing; a page with a token reports a subset. */
  lemma CommonPrefixesOfPage(ks: set<Key>, prefix: Key, delim: string, token: Key, maxKeys: int)
    ensures var cps := PageOf(ks, prefix, delim, token, maxKeys).commonPrefixes;
            && StrictlySorted(cps)
            && (forall g :: g in cps ==> g in Groups(ks, prefix, delim, ""))
            && (token == "" ==> forall g :: g in Groups(ks, prefix, delim, "") ==> g in cps)
  {
  }
}
