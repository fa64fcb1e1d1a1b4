/** The metadata workload: a tree of nested prefixes filled with objects, LIST walks over it,
    and COPY destinations taken from a counter. */
module Metadata {
  import opened Wrappers
  import opened Lex
  import opened Pages
  import opened PagedWalk
  import opened Store
  import Keys
  import SafetyCleanup
  import ClaimCounter
  import Sets

  // ----- the prefix tree -----

  function Child(base: string, i: int): string {
    Keys.Padded(base + "/p", i, 2)
  }

  /** The leaf paths below `base`, in the order they are generated. */
  function Prefixes(base: string, fanout: int, depth: int): seq<string>
    decreases if depth < 0 then 0 else depth, 1, 0
  {
    if depth <= 0 then [base] else Branches(base, fanout, depth, 0)
  }

  function Branches(base: string, fanout: int, depth: int, i: nat): seq<string>
    requires depth > 0
    decreases depth, 0, fanout - i
  {
    if i >= fanout then [] else Prefixes(Child(base, i), fanout, depth - 1) + Branches(base, fanout, depth, i + 1)
  }

  method BuildPrefixes(base: string, fanout: int, depth: int) returns (out: seq<string>)
    ensures out == Prefixes(base, fanout, depth)
    decreases if depth < 0 then 0 else depth
  {
    hide Child, Prefixes, Branches;
    PrefixesUnfold(base, fanout, depth);
    if depth <= 0 {
      return [base];
    }
    out := [];
    var i := 0;
    while i < fanout
      invariant 0 <= i && (i <= fanout || i == 0)
      invariant out + Branches(base, fanout, depth, i) == Branches(base, fanout, depth, 0)
    {
      var child := Child(base, i);
      var below := BuildPrefixes(child, fanout, depth - 1);
      BranchesUnfold(base, fanout, depth, i);
      Regroup(out, below, Branches(base, fanout, depth, i + 1));
      out := out + below;
      i := i + 1;
    }
    BranchesUnfold(base, fanout, depth, i);
    Regroup(out, [], []);
  }

  lemma Regroup<T>(a: seq<T>, b: seq<T>, c: seq<T>)
    ensures a + (b + c) == (a + b) + c && a + [] == a
  {
  }

  lemma PrefixesUnfold(base: string, fanout: int, depth: int)
    ensures Prefixes(base, fanout, depth) == if depth <= 0 then [base] else Branches(base, fanout, depth, 0)
  {
    hide Child, Branches;
  }

  lemma BranchesUnfold(base: string, fanout: int, depth: int, i: nat)
    requires depth > 0
    ensures Branches(base, fanout, depth, i)
         == if i >= fanout then [] else Prefixes(Child(base, i), fanout, depth - 1) + Branches(base, fanout, depth, i + 1)
  {
    hide Child, Prefixes;
  }

  function Power(b: nat, e: nat): nat {
    if e == 0 then 1 else b * Power(b, e - 1)
  }

  /** There are fanout^depth leaf paths. */
  lemma {:induction false} PrefixCount(base: string, fanout: nat, depth: nat)
    ensures |Prefixes(base, fanout, depth)| == Power(fanout, depth)
    decreases depth, 1, 0
  {
    if depth > 0 {
      BranchCount(base, fanout, depth, 0);
    }
  }

  lemma {:induction false} BranchCount(base: string, fanout: nat, depth: nat, i: nat)
    requires depth > 0 && i <= fanout
    ensures |Branches(base, fanout, depth, i)| == (fanout - i) * Power(fanout, depth - 1)
    decreases depth, 0, fanout - i
  {
    if i < fanout {
      PrefixCount(Child(base, i), fanout, depth - 1);
      BranchCount(base, fanout, depth, i + 1);
      assert (fanout - i) * Power(fanout, depth - 1)
          == (fanout - i - 1) * Power(fanout, depth - 1) + Power(fanout, depth - 1);
    }
  }

  /** p is the path from base through the children numbered ds: "/p" and at least two digits for each. */
  ghost predicate IsPath(base: string, ds: seq<nat>, p: string)
    decreases |ds|
  {
    if ds == [] then p == base
    else exists digits :: Keys.IsDecimal(digits, ds[0], 2) && IsPath(base + "/p" + digits, ds[1..], p)
  }

  /** The number the children's numbers write in base fanout. */
  function Number(ds: seq<nat>, fanout: nat): nat {
    if ds == [] then 0 else InBlock(ds[0], Power(fanout, |ds| - 1), Number(ds[1..], fanout))
  }

  /** Which path comes when: the paths are in the order of their children's numbers. */
  lemma {:induction false} PathAt(base: string, fanout: nat, depth: nat, ds: seq<nat>)
    requires |ds| == depth && forall d :: d in ds ==> d < fanout
    ensures Number(ds, fanout) < |Prefixes(base, fanout, depth)|
    ensures IsPath(base, ds, Prefixes(base, fanout, depth)[Number(ds, fanout)])
    decreases depth
  {
    hide Child, Branches, Prefixes, IsPath, Keys.IsDecimal;
    PrefixesUnfold(base, fanout, depth);
    if depth == 0 {
      PathEnd(base, ds);
    } else {
      var rest, child := ds[1..], Child(base, ds[0]);
      assert ds[0] in ds && forall d :: d in rest ==> d in ds;
      PathAt(child, fanout, depth - 1, rest);
      PrefixCount(child, fanout, depth - 1);
      BranchAt(base, fanout, depth, 0, ds[0], Number(rest, fanout), Power(fanout, depth - 1));
      PathStep(base, ds, Prefixes(child, fanout, depth - 1)[Number(rest, fanout)]);
    }
  }

  lemma PathEnd(base: string, ds: seq<nat>)
    requires ds == []
    ensures IsPath(base, ds, base)
  {
  }

  lemma PathStep(base: string, ds: seq<nat>, p: string)
    requires ds != [] && IsPath(Child(base, ds[0]), ds[1..], p)
    ensures IsPath(base, ds, p)
  {
    hide Child, Keys.IsDecimal;
    var digits := ChildDigits(base, ds[0]);
    assert IsPath(base + "/p" + digits, ds[1..], p);
  }

  lemma ChildDigits(base: string, i: nat) returns (digits: string)
    ensures Child(base, i) == base + "/p" + digits && Keys.IsDecimal(digits, i, 2)
  {
    digits := Keys.PaddedText(base + "/p", i, 2);
  }

  /** Position r of block n, all blocks having the given size. */
  function InBlock(n: nat, size: nat, r: nat): nat {
    n * size + r
  }

  lemma {:induction false} BranchAt(base: string, fanout: nat, depth: nat, i: nat, c: nat, r: nat, size: nat)
    requires depth > 0 && i <= c < fanout && size == Power(fanout, depth - 1) && r < size
    ensures InBlock(c - i, size, r) < |Branches(base, fanout, depth, i)| && r < |Prefixes(Child(base, c), fanout, depth - 1)|
    ensures Branches(base, fanout, depth, i)[InBlock(c - i, size, r)] == Prefixes(Child(base, c), fanout, depth - 1)[r]
    decreases c - i
  {
    hide Child, Prefixes, Branches, Power, InBlock;
    PrefixCount(Child(base, c), fanout, depth - 1);
    PrefixCount(Child(base, i), fanout, depth - 1);
    BranchesUnfold(base, fanout, depth, i);
    if i < c {
      BranchAt(base, fanout, depth, i + 1, c, r, size);
      Beyond(Prefixes(Child(base, i), fanout, depth - 1), Branches(base, fanout, depth, i + 1), c - i, size, r);
    } else {
      FirstBlock(size, r);
    }
  }

  lemma FirstBlock(size: nat, r: nat)
    ensures InBlock(0, size, r) == r
  {
  }

  /** What comes after a first block. */
  lemma Beyond<T>(s: seq<T>, t: seq<T>, n: nat, size: nat, r: nat)
    requires |s| == size && n > 0 && InBlock(n - 1, size, r) < |t|
    ensures InBlock(n, size, r) < |s + t| && (s + t)[InBlock(n, size, r)] == t[InBlock(n - 1, size, r)]
  {
    OneBlock(n, size);
  }

  lemma OneBlock(n: nat, size: nat)
    requires n > 0
    ensures n * size == size + (n - 1) * size
  {
  }

  /** Every position is the number of some children's numbers, so PathAt gives all the paths. */
  lemma {:induction false} DigitsOf(n: nat, fanout: nat, depth: nat) returns (ds: seq<nat>)
    requires n < Power(fanout, depth)
    ensures |ds| == depth && (forall d :: d in ds ==> d < fanout) && Number(ds, fanout) == n
  {
    if depth == 0 {
      ds := [];
    } else {
      var size := Power(fanout, depth - 1);
      NotZeroTimes(fanout, size, n);
      var rest := DigitsOf(n % size, fanout, depth - 1);
      ds := [n / size] + rest;
      assert ds[1..] == rest;
    }
  }

  lemma NotZeroTimes(fanout: nat, size: nat, n: nat)
    requires n < fanout * size
    ensures size > 0 && n / size < fanout && n == n / size * size + n % size
  {
    if size > 0 && fanout <= n / size {
      Keys.TimesMonotone(fanout, n / size, size);
    }
  }

  predicate NoSlash(s: string) {
    forall i :: 0 <= i < |s| ==> s[i] != '/'
  }

  /** A path at or below base: base itself, or base followed by a slash and more. */
  predicate Below(base: string, p: string) {
    base <= p && (|p| > |base| ==> p[|base|] == '/')
  }

  lemma {:induction false} PrefixesBelow(base: string, fanout: int, depth: int, p: string)
    requires p in Prefixes(base, fanout, depth)
    ensures Below(base, p)
    decreases if depth < 0 then 0 else depth, 1, 0
  {
    if depth > 0 {
      var _ := BranchOf(base, fanout, depth, 0, p);
    }
  }

  lemma BelowChild(base: string, i: int, p: string)
    requires Below(Child(base, i), p)
    ensures base + "/p" <= p && Below(base, p)
  {
    var stem := base + "/p";
    assert stem <= Child(base, i) <= p;
    assert p[|base|] == stem[|base|];
  }

  /** A path of a later branch runs through some later child. */
  lemma {:induction false} BranchOf(base: string, fanout: int, depth: int, i: nat, p: string) returns (j: nat)
    requires depth > 0 && p in Branches(base, fanout, depth, i)
    ensures i <= j < fanout && p in Prefixes(Child(base, j), fanout, depth - 1)
    ensures Below(Child(base, j), p) && Below(base, p)
    decreases depth, 0, fanout - i
  {
    hide Child;
    if p in Prefixes(Child(base, i), fanout, depth - 1) {
      j := i;
      PrefixesBelow(Child(base, i), fanout, depth - 1, p);
      BelowChild(base, i, p);
    } else {
      assert Branches(base, fanout, depth, i)
          == Prefixes(Child(base, i), fanout, depth - 1) + Branches(base, fanout, depth, i + 1);
      j := BranchOf(base, fanout, depth, i + 1, p);
    }
  }

  lemma DigitsNoSlash(n: nat, width: int)
    ensures NoSlash(Keys.Padded("", n, width))
  {
    var text := Keys.Zeros(width - |Keys.Itoa(n)|) + Keys.Itoa(n);
    assert Keys.Padded("", n, width) == text;
  }

  function UpToSlash(s: string): string {
    if s == [] || s[0] == '/' then [] else [s[0]] + UpToSlash(s[1..])
  }

  /** A segment ends at the first slash, so it is determined by any path through it. */
  lemma {:induction false} SegmentIs(a: string, s: string)
    requires NoSlash(a) && Below(a, s)
    ensures UpToSlash(s) == a
  {
    if a != [] {
      SegmentIs(a[1..], s[1..]);
    }
  }

  /** A path goes through only one child, however wide the index is printed. */
  lemma ChildUnique(base: string, i: nat, j: nat, p: string)
    requires Below(Child(base, i), p) && Below(Child(base, j), p)
    ensures i == j
  {
    ChildSegment(base, i, p);
    ChildSegment(base, j, p);
    Keys.PaddedInjective("", i, j, 2);
  }

  lemma ChildText(base: string, i: nat)
    ensures Child(base, i) == base + "/p" + Keys.Padded("", i, 2)
    ensures NoSlash(Keys.Padded("", i, 2))
  {
    DigitsNoSlash(i, 2);
  }

  lemma ChildSegment(base: string, i: nat, p: string)
    requires Below(Child(base, i), p)
    ensures UpToSlash(p[|base| + 2..]) == Keys.Padded("", i, 2)
  {
    hide Child;
    hide Keys.Padded;
    ChildText(base, i);
    var a := Keys.Padded("", i, 2);
    assert a == p[..|base| + 2 + |a|][|base| + 2..] == p[|base| + 2..][..|a|];
    SegmentIs(a, p[|base| + 2..]);
  }

  lemma DistinctConcat(s: seq<Key>, t: seq<Key>)
    requires Distinct(s) && Distinct(t) && forall x :: x in s ==> x !in t
    ensures Distinct(s + t)
  {
    assert forall i :: 0 <= i < |s| ==> s[i] in s;
    assert forall j :: 0 <= j < |t| ==> t[j] in t;
  }

  /** All leaf paths are different, for every fanout and depth. */
  lemma {:induction false} PrefixesDistinct(base: string, fanout: int, depth: int)
    ensures Distinct(Prefixes(base, fanout, depth))
    decreases if depth < 0 then 0 else depth, 1, 0
  {
    if depth > 0 {
      BranchesDistinct(base, fanout, depth, 0);
    }
  }

  lemma {:induction false} BranchesDistinct(base: string, fanout: int, depth: int, i: nat)
    requires depth > 0
    ensures Distinct(Branches(base, fanout, depth, i))
    decreases depth, 0, fanout - i
  {
    if i < fanout {
      var first, rest := Prefixes(Child(base, i), fanout, depth - 1), Branches(base, fanout, depth, i + 1);
      PrefixesDistinct(Child(base, i), fanout, depth - 1);
      BranchesDistinct(base, fanout, depth, i + 1);
      forall p | p in first ensures p !in rest {
        BranchesApart(base, fanout, depth, i, p);
      }
      DistinctConcat(first, rest);
    }
  }

  lemma BranchesApart(base: string, fanout: int, depth: int, i: nat, p: string)
    requires depth > 0 && p in Prefixes(Child(base, i), fanout, depth - 1)
    ensures p !in Branches(base, fanout, depth, i + 1)
  {
    PrefixesBelow(Child(base, i), fanout, depth - 1, p);
    if p in Branches(base, fanout, depth, i + 1) {
      var j := BranchOf(base, fanout, depth, i + 1, p);
      ChildUnique(base, i, j, p);
    }
  }

  // ----- the base keys -----

  function BaseKey(p: string, i: int): Key {
    Keys.Padded(p + "/obj-", i, 4)
  }

  function KeysBelow(p: string, n: nat): (ks: seq<Key>)
    ensures |ks| == n
  {
    if n == 0 then [] else KeysBelow(p, n - 1) + [BaseKey(p, n - 1)]
  }

  lemma {:induction false} KeysBelowPrefix(p: string, m: nat, n: nat)
    requires m <= n
    ensures KeysBelow(p, m) <= KeysBelow(p, n)
    decreases n - m
  {
    if m < n {
      KeysBelowPrefix(p, m + 1, n);
    }
  }

  lemma KeysBelowNone(p: string)
    ensures KeysBelow(p, 0) == []
  {
  }

  lemma KeysBelowNext(p: string, i: nat, n: nat)
    requires i < n
    ensures KeysBelow(p, i + 1) == KeysBelow(p, i) + [BaseKey(p, i)]
    ensures KeysBelow(p, i + 1) <= KeysBelow(p, n)
  {
    KeysBelowPrefix(p, i + 1, n);
  }

  lemma {:induction false} KeyFromBelow(p: string, n: nat, k: Key) returns (i: nat)
    requires k in KeysBelow(p, n)
    ensures i < n && k == BaseKey(p, i)
  {
    if k == BaseKey(p, n - 1) {
      i := n - 1;
    } else {
      i := KeyFromBelow(p, n - 1, k);
    }
  }

  function BaseKeys(paths: seq<string>, perPrefix: nat): (ks: seq<Key>) {
    if paths == [] then [] else KeysBelow(paths[0], perPrefix) + BaseKeys(paths[1..], perPrefix)
  }

  lemma {:induction false} BaseKeyAt(paths: seq<string>, perPrefix: nat, j: nat, i: nat)
    requires j < |paths| && i < perPrefix
    ensures InBlock(j, perPrefix, i) < |BaseKeys(paths, perPrefix)|
    ensures BaseKeys(paths, perPrefix)[InBlock(j, perPrefix, i)] == BaseKey(paths[j], i)
  {
    hide BaseKey, InBlock;
    if j == 0 {
      KeyBelowAt(paths[0], perPrefix, i);
      FirstBlock(perPrefix, i);
    } else {
      BaseKeyAt(paths[1..], perPrefix, j - 1, i);
      Beyond(KeysBelow(paths[0], perPrefix), BaseKeys(paths[1..], perPrefix), j, perPrefix, i);
    }
  }

  lemma {:induction false} KeyBelowAt(p: string, n: nat, i: nat)
    requires i < n
    ensures KeysBelow(p, n)[i] == BaseKey(p, i)
  {
    if i < n - 1 {
      KeyBelowAt(p, n - 1, i);
    }
  }

  /** Which key comes when in the data set, and its text: path after path, and below each object after object. */
  lemma DataSetAt(name: string, fanout: nat, depth: nat, perPrefix: nat, ds: seq<nat>, i: nat) returns (p: string, digits: string)
    requires |ds| == depth && (forall d :: d in ds ==> d < fanout) && i < perPrefix
    ensures var keys, n := BaseKeys(Prefixes(name, fanout, depth), perPrefix), Number(ds, fanout) * perPrefix + i;
            n < |keys| && keys[n] == p + "/obj-" + digits
    ensures IsPath(name, ds, p) && Keys.IsDecimal(digits, i, 4)
  {
    hide Prefixes, IsPath, BaseKeys, Number;
    PathAt(name, fanout, depth, ds);
    p := Prefixes(name, fanout, depth)[Number(ds, fanout)];
    BaseKeyAt(Prefixes(name, fanout, depth), perPrefix, Number(ds, fanout), i);
    digits := Keys.PaddedText(p + "/obj-", i, 4);
  }

  function AfterSlash(s: string): string {
    if s == [] || s[|s| - 1] == '/' then [] else AfterSlash(s[..|s| - 1]) + [s[|s| - 1]]
  }

  lemma {:induction false} LastSegmentIs(p: string, a: string)
    requires NoSlash(a)
    ensures AfterSlash(p + "/" + a) == a
  {
    var s := p + "/" + a;
    if a == [] {
      assert s[|s| - 1] == '/';
    } else {
      var b := a[..|a| - 1];
      LastSegmentIs(p, b);
      assert s[..|s| - 1] == p + "/" + b && a == b + [a[|a| - 1]];
    }
  }

  lemma BaseKeySplits(p: string, i: nat)
    ensures var a := "obj-" + Keys.Padded("", i, 4);
            BaseKey(p, i) == p + "/" + a && AfterSlash(BaseKey(p, i)) == a
  {
    var a := "obj-" + Keys.Padded("", i, 4);
    DigitsNoSlash(i, 4);
    assert NoSlash(a);
    assert BaseKey(p, i) == p + "/" + a;
    LastSegmentIs(p, a);
  }

  /** A base key determines its path and its index, since the text after the last slash is the object's name. */
  lemma BaseKeyInjective(p: string, i: nat, q: string, j: nat)
    requires BaseKey(p, i) == BaseKey(q, j)
    ensures p == q && i == j
  {
    hide BaseKey;
    hide Keys.Padded;
    BaseKeySplits(p, i);
    BaseKeySplits(q, j);
    var k, a, b := BaseKey(p, i), "obj-" + Keys.Padded("", i, 4), "obj-" + Keys.Padded("", j, 4);
    assert a == b;
    assert Keys.Padded("", i, 4) == a[4..] && Keys.Padded("", j, 4) == b[4..];
    Keys.PaddedInjective("", i, j, 4);
    assert p == k[..|k| - |a| - 1] && q == k[..|k| - |b| - 1];
  }

  lemma {:induction false} BaseKeyFrom(paths: seq<string>, perPrefix: nat, k: Key) returns (p: string, i: nat)
    requires k in BaseKeys(paths, perPrefix)
    ensures p in paths && i < perPrefix && k == BaseKey(p, i)
  {
    if k in KeysBelow(paths[0], perPrefix) {
      p := paths[0];
      i := KeyFromBelow(p, perPrefix, k);
    } else {
      p, i := BaseKeyFrom(paths[1..], perPrefix, k);
    }
  }

  lemma BaseKeyNotBelow(p: string, q: string, i: nat, n: nat)
    requires p != q || i >= n
    ensures BaseKey(q, i) !in KeysBelow(p, n)
  {
    if BaseKey(q, i) in KeysBelow(p, n) {
      var j := KeyFromBelow(p, n, BaseKey(q, i));
      BaseKeyInjective(p, j, q, i);
    }
  }

  lemma {:induction false} KeysBelowDistinct(p: string, n: nat)
    ensures Distinct(KeysBelow(p, n))
  {
    hide BaseKey;
    if n > 0 {
      KeysBelowDistinct(p, n - 1);
      BaseKeyNotBelow(p, p, n - 1, n - 1);
      DistinctConcat(KeysBelow(p, n - 1), [BaseKey(p, n - 1)]);
    }
  }

  lemma {:induction false} BaseKeysDistinct(paths: seq<string>, perPrefix: nat)
    requires Distinct(paths)
    ensures Distinct(BaseKeys(paths, perPrefix))
  {
    if paths != [] {
      var first, rest := KeysBelow(paths[0], perPrefix), BaseKeys(paths[1..], perPrefix);
      BaseKeysDistinct(paths[1..], perPrefix);
      KeysBelowDistinct(paths[0], perPrefix);
      forall k | k in first ensures k !in rest {
        BaseKeysApart(paths[0], paths[1..], perPrefix, k);
      }
      DistinctConcat(first, rest);
    }
  }

  lemma BaseKeysApart(p: string, paths: seq<string>, perPrefix: nat, k: Key)
    requires p !in paths && k in KeysBelow(p, perPrefix)
    ensures k !in BaseKeys(paths, perPrefix)
  {
    if k in BaseKeys(paths, perPrefix) {
      var q, i := BaseKeyFrom(paths, perPrefix, k);
      BaseKeyNotBelow(p, q, i, perPrefix);
    }
  }

  lemma {:induction false} BaseKeysSize(paths: seq<string>, perPrefix: nat)
    ensures |BaseKeys(paths, perPrefix)| == |paths| * perPrefix
  {
    if paths != [] {
      BaseKeysSize(paths[1..], perPrefix);
      Keys.TimesMonotone(|paths|, |paths|, perPrefix);
    }
  }

  /** Prepopulate's data set: fanout^depth * perPrefix keys, all different. */
  lemma DataSet(name: string, fanout: nat, depth: nat, perPrefix: nat)
    ensures var ks := BaseKeys(Prefixes(name, fanout, depth), perPrefix);
            |ks| == Power(fanout, depth) * perPrefix && Distinct(ks)
  {
    PrefixCount(name, fanout, depth);
    PrefixesDistinct(name, fanout, depth);
    BaseKeysDistinct(Prefixes(name, fanout, depth), perPrefix);
    BaseKeysSize(Prefixes(name, fanout, depth), perPrefix);
  }

  /** No base key is a COPY destination. */
  lemma BaseKeysAreNotCopies(name: string, fanout: nat, depth: nat, perPrefix: nat, k: Key)
    requires k in BaseKeys(Prefixes(name, fanout, depth), perPrefix)
    ensures !ClaimCounter.Owns(ClaimCounter.CopyTarget(name), k)
  {
    hide BaseKey;
    hide ClaimCounter.KeyFor;
    var p, i := BaseKeyFrom(Prefixes(name, fanout, depth), perPrefix, k);
    BaseKeyMark(name, fanout, depth, p, i);
    forall n: nat ensures ClaimCounter.KeyFor(ClaimCounter.CopyTarget(name), n) != k {
      ClaimCounter.KeyHasStem(ClaimCounter.CopyTarget(name), n);
    }
  }

  /** After the workload's name, a base key goes on with "/p" or "/obj-", a COPY destination with "/copy". */
  lemma BaseKeyMark(name: string, fanout: nat, depth: nat, p: string, i: nat)
    requires p in Prefixes(name, fanout, depth)
    ensures |name| + 1 < |BaseKey(p, i)| && BaseKey(p, i)[|name| + 1] != 'c'
  {
    var k := BaseKey(p, i);
    assert p + "/obj-" <= k;
    if depth == 0 {
      assert k[|name| + 1] == (name + "/obj-")[|name| + 1];
    } else {
      var j := BranchOf(name, fanout, depth, 0, p);
      BelowChild(name, j, p);
      assert k[|name| + 1] == p[|name| + 1] == (name + "/p")[|name| + 1];
    }
  }

  // ----- the workload object -----

  /** buckets[j] is the bucket that served request j: the one before, changed by what the others did in between. */
  ghost predicate Evolves(b: Bucket, others: Schedule, buckets: seq<Bucket>) {
    forall j :: 0 <= j < |buckets| ==> Served(b, others, buckets, j)
  }

  ghost predicate Served(b: Bucket, others: Schedule, buckets: seq<Bucket>, j: nat)
    requires j < |buckets|
  {
    buckets[j] == AfterAll(Previous(b, buckets, j), Batch(others, j))
  }

  ghost function Previous(b: Bucket, buckets: seq<Bucket>, j: nat): Bucket
    requires j <= |buckets|
  {
    if j == 0 then b else buckets[j - 1]
  }

  function KeySets(buckets: seq<Bucket>): (views: seq<set<Key>>)
    ensures |views| == |buckets|
  {
    if buckets == [] then [] else KeySets(buckets[..|buckets| - 1]) + [buckets[|buckets| - 1].objects.Keys]
  }

  function Counts(pages: seq<Page>): (counts: seq<Option<nat>>)
    ensures |counts| == |pages|
    ensures forall j :: 0 <= j < |pages| ==> counts[j] == Some(|pages[j].keys| + |pages[j].commonPrefixes|)
  {
    if pages == [] then []
    else Counts(pages[..|pages| - 1]) + [Some(|pages[|pages| - 1].keys| + |pages[|pages| - 1].commonPrefixes|)]
  }

  function StoreAll(o: map<Key, Bytes>, keys: seq<Key>, data: Bytes): map<Key, Bytes> {
    if keys == [] then o else StoreAll(o, keys[..|keys| - 1], data)[keys[|keys| - 1] := data]
  }

  lemma EvolvesFurther(b: Bucket, others: Schedule, buckets: seq<Bucket>, next: Bucket)
    requires Evolves(b, others, buckets)
    requires next == AfterAll(Previous(b, buckets, |buckets|), Batch(others, |buckets|))
    ensures Evolves(b, others, buckets + [next])
  {
    hide AfterAll;
    var more := buckets + [next];
    forall j | 0 <= j < |more| ensures Served(b, others, more, j) {
      assert Previous(b, more, j) == Previous(b, buckets, j);
      assert j < |buckets| ==> Served(b, others, buckets, j);
    }
  }

  lemma KeySetsSnoc(buckets: seq<Bucket>, next: Bucket)
    ensures KeySets(buckets + [next]) == KeySets(buckets) + [next.objects.Keys]
  {
    assert (buckets + [next])[..|buckets|] == buckets;
  }

  lemma CountsSnoc(pages: seq<Page>, page: Page)
    ensures Counts(pages + [page]) == Counts(pages) + [Some(|page.keys| + |page.commonPrefixes|)]
  {
    assert (pages + [page])[..|pages|] == pages;
  }

  /** The requests of a walk answered so far, and the token of the next. */
  ghost predicate ListedSoFar(start: Bucket, others: Schedule, prefix: Key, delim: string, buckets: seq<Bucket>, pages: seq<Page>,
                              recorded: seq<Option<nat>>, token: Key)
  {
    && Evolves(start, others, buckets) && IsWalk(KeySets(buckets), prefix, delim, "", pages)
    && PagesOf(KeySets(buckets), prefix, delim, 100, pages) && token == TokenAt(pages, |pages|)
    && recorded == Counts(pages) && |recorded| == |pages|
  }

  lemma ListedNothing(start: Bucket, others: Schedule, prefix: Key, delim: string)
    ensures ListedSoFar(start, others, prefix, delim, [], [], [], "")
  {
  }

  lemma ListedFacts(start: Bucket, others: Schedule, prefix: Key, delim: string, buckets: seq<Bucket>, pages: seq<Page>,
                    recorded: seq<Option<nat>>, token: Key)
    requires ListedSoFar(start, others, prefix, delim, buckets, pages, recorded, token)
    ensures Evolves(start, others, buckets) && IsWalk(KeySets(buckets), prefix, delim, "", pages)
    ensures PagesOf(KeySets(buckets), prefix, delim, 100, pages)
    ensures recorded == Counts(pages) && |recorded| == |pages| == |buckets|
  {
    hide IsWalk, Evolves, KeySets, Counts, PageOf;
  }

  lemma ListedMore(start: Bucket, others: Schedule, prefix: Key, delim: string, buckets: seq<Bucket>, pages: seq<Page>,
                   recorded: seq<Option<nat>>, token: Key, next: Bucket, page: Page)
    requires ListedSoFar(start, others, prefix, delim, buckets, pages, recorded, token) && !Finished(pages)
    requires next == AfterAll(Previous(start, buckets, |buckets|), Batch(others, |buckets|))
    requires page == PageOf(next.objects.Keys, prefix, delim, token, 100)
    ensures ListedSoFar(start, others, prefix, delim, buckets + [next], pages + [page],
                        recorded + [Some(|page.keys| + |page.commonPrefixes|)], page.next)
    ensures Finished(pages + [page]) <==> !page.truncated
  {
    hide IsWalk, Evolves, AfterAll, KeySets, Counts, FlatKeys, Serves, PageOf, PagesOf, Batch, Previous;
    PageServes(next.objects.Keys, prefix, delim, token, 100);
    WalkExtends(KeySets(buckets), prefix, delim, "", pages, next.objects.Keys, page);
    EvolvesFurther(start, others, buckets, next);
    KeySetsSnoc(buckets, next);
    CountsSnoc(pages, page);
    PagesOfSnoc(KeySets(buckets), prefix, delim, 100, pages, next.objects.Keys, page);
  }

  lemma StoreAllSnoc(o: map<Key, Bytes>, keys: seq<Key>, k: Key, data: Bytes)
    ensures StoreAll(o, keys + [k], data) == StoreAll(o, keys, data)[k := data]
  {
    assert (keys + [k])[..|keys|] == keys;
  }

  lemma NoneStored(paths: seq<string>, perPrefix: nat, o: map<Key, Bytes>, data: Bytes)
    ensures BaseKeys(paths[..0], perPrefix) == [] && StoreAll(o, [], data) == o
  {
  }

  lemma {:induction false} BaseKeysSnoc(paths: seq<string>, p: string, perPrefix: nat)
    ensures BaseKeys(paths + [p], perPrefix) == BaseKeys(paths, perPrefix) + KeysBelow(p, perPrefix)
  {
    if paths == [] {
      assert BaseKeys([p], perPrefix) == KeysBelow(p, perPrefix) + BaseKeys([], perPrefix);
    } else {
      assert (paths + [p])[1..] == paths[1..] + [p];
      BaseKeysSnoc(paths[1..], p, perPrefix);
    }
  }

  lemma {:induction false} BaseKeysPrefix(paths: seq<string>, n: nat, perPrefix: nat)
    requires n <= |paths|
    ensures BaseKeys(paths[..n], perPrefix) <= BaseKeys(paths, perPrefix)
    decreases |paths| - n
  {
    if n == |paths| {
      assert paths[..n] == paths;
    } else {
      assert paths[..n + 1] == paths[..n] + [paths[n]];
      BaseKeysSnoc(paths[..n], paths[n], perPrefix);
      BaseKeysPrefix(paths, n + 1, perPrefix);
    }
  }

  /** A body that yields the announced number of bytes. */
  predicate Sound(body: Body, size: int) {
    !body.fails && (size < 0 || |body.data| == size)
  }

  /** Uploading `all` in order stopped with this error after the keys stored: at the first upload
      that failed, if any. */
  ghost predicate StoppedAt(o: map<Key, Bytes>, fail: map<Op, Error>, all: seq<Key>, stored: seq<Key>, body: Body, size: int,
                            err: Option<Error>)
  {
    && stored <= all
    && if |stored| < |all| then err.Some? && err == WriteStep(Bucket(o, fail), PutOp, all[|stored|], body, size).1 else err.None?
  }

  lemma StoppedThere(o: map<Key, Bytes>, fail: map<Op, Error>, all: seq<Key>, stored: seq<Key>, k: Key, body: Body, size: int,
                     err: Option<Error>)
    requires stored + [k] <= all && err.Some? && err == WriteStep(Bucket(o, fail), PutOp, k, body, size).1
    ensures StoppedAt(o, fail, all, stored, body, size, err)
  {
    hide WriteStep;
    assert all[|stored|] == (stored + [k])[|stored|];
  }

  lemma AllStored(o: map<Key, Bytes>, fail: map<Op, Error>, all: seq<Key>, body: Body, size: int)
    ensures StoppedAt(o, fail, all, all, body, size, None)
  {
  }

  /** Stopping within a first part of the data set; without a fault and with a sound body nothing stops it. */
  lemma StoppedFurther(o: map<Key, Bytes>, fail: map<Op, Error>, part: seq<Key>, all: seq<Key>, stored: seq<Key>, body: Body,
                       size: int, err: Option<Error>)
    requires StoppedAt(o, fail, part, stored, body, size, err) && part <= all
    ensures if err.Some? then StoppedAt(o, fail, all, stored, body, size, err) else stored == part
    ensures PutOp !in fail && Sound(body, size) ==> err.None?
  {
  }

  /** A write that fails stores nothing, one that succeeds leaves the faults. */
  lemma PutAnswer(b: Bucket, op: Op, k: Key, body: Body, size: int)
    ensures var (b', err) := WriteStep(b, op, k, body, size);
            if err.Some? then b'.objects == b.objects else b' == Bucket(b.objects[k := body.data], b.fail)
  {
  }

  class Workload {
    const name: string
    const fanout: nat
    const depth: nat
    const perPrefix: nat
    const copies := ClaimCounter.CopyTarget(name)
    var baseKeys: seq<Key>
    var copyCount: nat

    constructor (name: string, fanout: nat, depth: nat, perPrefix: nat)
      ensures this.name == name && this.fanout == fanout && this.depth == depth && this.perPrefix == perPrefix
      ensures baseKeys == [] && copyCount == 0
    {
      this.name, this.fanout, this.depth, this.perPrefix := name, fanout, depth, perPrefix;
      baseKeys, copyCount := [], 0;
    }

    /** Uploads the data set in order and remembers each key once it is stored.  Wherever it stops,
        baseKeys is what was stored; it stops at the first upload that fails, or with the whole data set stored. */
    method Prepopulate(c: Client, body: Body, size: int) returns (err: Option<Error>)
      requires baseKeys == []
      modifies this`baseKeys, c
      ensures StoppedAt(c.objects, old(c.fail), BaseKeys(Prefixes(name, fanout, depth), perPrefix), baseKeys, body, size, err)
      ensures c.objects == StoreAll(old(c.objects), baseKeys, body.data)
      ensures PutOp !in old(c.fail) && Sound(body, size) ==> err.None?
    {
      hide Prefixes, BaseKeys, KeysBelow, StoreAll, StoppedAt;
      var paths := BuildPrefixes(name, fanout, depth);
      ghost var all := BaseKeys(paths, perPrefix);
      err := None;
      NoneStored(paths, perPrefix, c.objects, body.data);
      for n := 0 to |paths|
        invariant err == None && baseKeys == BaseKeys(paths[..n], perPrefix) && c.fail == old(c.fail)
        invariant c.objects == StoreAll(old(c.objects), baseKeys, body.data)
      {
        assert paths[..n + 1] == paths[..n] + [paths[n]];
        BaseKeysSnoc(paths[..n], paths[n], perPrefix);
        BaseKeysPrefix(paths, n + 1, perPrefix);
        err := PutBelow(c, paths[n], body, size, old(c.objects));
        StoppedFurther(c.objects, old(c.fail), BaseKeys(paths[..n + 1], perPrefix), all, baseKeys, body, size, err);
        if err.Some? {
          return;
        }
      }
      assert paths[..|paths|] == paths;
      AllStored(c.objects, old(c.fail), all, body, size);
    }

    /** The inner loop: the objects below one path. */
    method PutBelow(c: Client, p: string, body: Body, size: int, ghost o: map<Key, Bytes>) returns (err: Option<Error>)
      requires c.objects == StoreAll(o, baseKeys, body.data)
      modifies this`baseKeys, c
      ensures c.objects == StoreAll(o, baseKeys, body.data)
      ensures StoppedAt(c.objects, old(c.fail), old(baseKeys) + KeysBelow(p, perPrefix), baseKeys, body, size, err)
      ensures err.None? ==> c.fail == old(c.fail)
    {
      hide BaseKey, KeysBelow, StoreAll, StoppedAt, WriteStep;
      err := None;
      ghost var before, all := baseKeys, baseKeys + KeysBelow(p, perPrefix);
      KeysBelowNone(p);
      for i := 0 to perPrefix
        invariant err == None && baseKeys == before + KeysBelow(p, i) && c.fail == old(c.fail)
        invariant c.objects == StoreAll(o, baseKeys, body.data)
      {
        var k := BaseKey(p, i);
        ghost var objects := c.objects;
        KeysBelowNext(p, i, perPrefix);
        err := c.Put(k, body, size);
        PutAnswer(Bucket(objects, old(c.fail)), PutOp, k, body, size);
        if err.Some? {
          StoppedThere(c.objects, old(c.fail), all, baseKeys, k, body, size, err);
          return;
        }
        StoreAllSnoc(o, baseKeys, k, body.data);
        baseKeys := baseKeys + [k];
      }
      AllStored(c.objects, old(c.fail), all, body, size);
    }

    /** Walks the workload's own keys page by page while other workers change the store as `others` says.
        The pages are a walk in the sense of PagedWalk over the buckets as they evolve, each the page of 100 that the store
        serves at its token, one record of keys and common prefixes is made per request, and only an injected List fault
        can end the walk early. */
    method ListPrefix(c: Client, delim: string, others: Schedule)
      returns (recorded: seq<Option<nat>>, ghost buckets: seq<Bucket>, ghost pages: seq<Page>)
      modifies c
      ensures Evolves(old(c.View()), others, buckets)
      ensures IsWalk(KeySets(buckets), name + "/", delim, "", pages)
      ensures PagesOf(KeySets(buckets), name + "/", delim, 100, pages)
      ensures recorded == Counts(pages) + (if Finished(pages) then [] else [None])
      ensures |Counts(pages)| == |pages| && forall j :: 0 <= j < |pages| ==>
                recorded[j] == Some(|pages[j].keys| + |pages[j].commonPrefixes|)
      ensures !Finished(pages) ==>
                ListOp in AfterAll(Previous(old(c.View()), buckets, |buckets|), Batch(others, |buckets|)).fail
    {
      hide ListedSoFar, IsWalk, Evolves, AfterAll, KeySets, Counts, FlatKeys, Serves, PageOf, PagesOf;
      var prefix, token := name + "/", "";
      recorded, buckets, pages := [], [], [];
      ghost var start := c.View();
      ListedNothing(start, others, prefix, delim);
      while true
        invariant ListedSoFar(start, others, prefix, delim, buckets, pages, recorded, token)
        invariant c.View() == Previous(start, buckets, |buckets|) && !Finished(pages)
        decreases if |recorded| < |others| then |others| - |recorded| else 0, |FlatKeys(c.objects.Keys, prefix, delim, token)|
      {
        ListedFacts(start, others, prefix, delim, buckets, pages, recorded, token);
        var res := Request(c, prefix, delim, token, others, |recorded|);
        if res.Err? {
          recorded := recorded + [None];
          return;
        }
        var page := res.value;
        ListedMore(start, others, prefix, delim, buckets, pages, recorded, token, c.View(), page);
        recorded := recorded + [Some(|page.keys| + |page.commonPrefixes|)];
        buckets, pages := buckets + [c.View()], pages + [page];
        ListedFacts(start, others, prefix, delim, buckets, pages, recorded, page.next);
        if !page.truncated {
          assert recorded == recorded + [];
          return;
        }
        token := page.next;
      }
    }

    /** One COPY of worker w is the protocol's Claim and, after whatever the others do meanwhile, its Write of the
        source's bytes or its FailWrite. */
    method Copy(c: Client, src: Key, s: ClaimCounter.State, w: nat, others: seq<ClaimCounter.Step>, fail: map<Op, Error>)
      returns (err: Option<Error>)
      requires w < |s.workers| && s.workers[w].Idle? && s.count == copyCount && s.objects == c.objects
      requires ClaimCounter.ValidRun(copies, ClaimCounter.Next(copies, s, ClaimCounter.Claim(w)), others)
      requires forall j :: 0 <= j < |others| ==> ClaimCounter.NotBy(others[j], w)
      modifies this`copyCount, c
      ensures var t := ClaimCounter.Run(copies, ClaimCounter.Next(copies, s, ClaimCounter.Claim(w)), others);
              && err == CopyStep(Bucket(t.objects, fail), src, ClaimCounter.KeyFor(copies, s.count)).1
              && (err.None? <==> src in t.objects && CopyOp !in fail)
              && var step := if err.None? then ClaimCounter.Write(w, t.objects[src]) else ClaimCounter.FailWrite(w);
              && ClaimCounter.Enabled(copies, t, step)
              && ClaimCounter.Next(copies, t, step).count == copyCount
              && ClaimCounter.Next(copies, t, step).objects == c.objects
    {
      hide ClaimCounter.Run, ClaimCounter.ValidRun, ClaimCounter.KeyFor;
      var n := copyCount;
      copyCount := copyCount + 1;
      var claimed := ClaimCounter.Next(copies, s, ClaimCounter.Claim(w));
      ClaimCounter.OthersKeepPhase(copies, claimed, others, w);
      var claims := ClaimCounter.OthersAct(c, copies, claimed, others, fail);
      copyCount := copyCount + claims;
      err := c.Copy(src, ClaimCounter.KeyFor(copies, n));
    }

    /** The base keys, then every COPY destination ever claimed. */
    function CleanupKeys(): seq<Key>
      reads this
    {
      baseKeys + ClaimCounter.ClaimedKeys(copies, copyCount)
    }

    /** One loop after the other, whatever the others do meanwhile. */
    method Cleanup(c: Client, others: Schedule) returns (err: Option<Error>, ghost calls: seq<SafetyCleanup.Call>)
      modifies c
      ensures ClaimCounter.IsSweep(old(c.View()), CleanupKeys(), others, 0, calls, err) && c.View() == SafetyCleanup.End(old(c.View()), calls)
      ensures ClaimCounter.Swept(old(c.View()), c.View(), CleanupKeys(), others, err)
    {
      hide ClaimCounter.IsSweep, ClaimCounter.Swept, SafetyCleanup.End, ClaimCounter.ClaimedKeys, ClaimCounter.KeyFor;
      ghost var b, keys' := c.View(), ClaimCounter.ClaimedKeys(copies, copyCount);
      err, calls := ClaimCounter.DeleteKeys(c, baseKeys, others, 0);
      if err.Some? {
        ClaimCounter.SweepsConcat(b, baseKeys, keys', others, 0, calls, [], err);
      } else {
        ClaimCounter.SweepLength(b, baseKeys, others, 0, calls);
        ghost var more;
        err, more := ClaimCounter.DeleteClaimed(c, copies, copyCount, others, |baseKeys|);
        ClaimCounter.SweepsConcat(b, baseKeys, keys', others, 0, calls, more, err);
        calls := calls + more;
      }
      ClaimCounter.Sweeps(b, baseKeys + keys', others, 0, calls, err);
    }

    /** Prepopulate, whether or not it succeeds, then any run of any number of workers to its join, then Cleanup.  o is what
        was stored when the run began.  Without an error from Cleanup or a false NotFound no uploaded key and no COPY
        destination is left, whatever uploads and copies failed, and the run's own steps and the cleanup touched nothing else. */
    method WholeRun(c: Client, body: Body, size: int, workers: nat, steps: seq<ClaimCounter.Step>, fail: map<Op, Error>,
                    others: Schedule)
      returns (stored: Option<Error>, err: Option<Error>, ghost o: map<Key, Bytes>, ghost calls: seq<SafetyCleanup.Call>)
      requires baseKeys == [] && copyCount == 0
      requires forall i: nat :: ClaimCounter.KeyFor(copies, i) !in c.objects
      requires ClaimCounter.RunsToJoin(copies, 0, workers, steps)
      modifies this, c
      ensures StoppedAt(o, old(c.fail), BaseKeys(Prefixes(name, fanout, depth), perPrefix), baseKeys, body, size, stored)
      ensures o == StoreAll(old(c.objects), baseKeys, body.data)
      ensures ClaimCounter.ValidRun(copies, ClaimCounter.Initial(0, o, workers), steps)
      ensures var t := ClaimCounter.Run(copies, ClaimCounter.Initial(0, o, workers), steps);
              var b := Bucket(t.objects, fail);
              && t.count == copyCount
              && ClaimCounter.IsSweep(b, CleanupKeys(), others, 0, calls, err) && c.View() == SafetyCleanup.End(b, calls)
      ensures err.None? && (DeleteOp, NotFound) !in Faults(fail) + ScheduleEffects(others).arms ==>
                && (forall k :: k in baseKeys && k in c.objects ==> k in ScheduleEffects(others).writes)
                && ClaimCounter.NoneLeft(c.objects, copies, ScheduleEffects(others))
      ensures err.Some? ==> (DeleteOp, err.value) in Faults(fail) + ScheduleEffects(others).arms && err.value != NotFound
      ensures forall k :: k !in baseKeys && !ClaimCounter.Owns(copies, k) && ClaimCounter.Untouched(steps, k)
                          && k !in ScheduleEffects(others).touches
                ==> SameAt(old(c.objects), c.objects, k)
    {
      hide BaseKeys, Prefixes, StoreAll, StoppedAt, ClaimCounter.Run, ClaimCounter.ValidRun, ClaimCounter.KeyFor, ScheduleEffects,
           ClaimCounter.IsSweep, ClaimCounter.Swept, SafetyCleanup.End;
      ghost var o0, all := c.objects, BaseKeys(Prefixes(name, fanout, depth), perPrefix);
      stored := Prepopulate(c, body, size);
      o := c.objects;
      StoredAreBase(o, old(c.fail), all, baseKeys, body, size, stored);
      StoreAllFrame(o0, baseKeys, body.data);
      forall k: Key | k in baseKeys ensures !ClaimCounter.Owns(copies, k) {
        BaseKeysAreNotCopies(name, fanout, depth, perPrefix, k);
      }
      NoCopiesYet(o0, o, copies, baseKeys);
      var s := ClaimCounter.Initial(0, c.objects, workers);
      ghost var t := AfterRun(copies, s, steps);
      var claims := ClaimCounter.OthersAct(c, copies, s, steps, fail);
      copyCount := claims;
      ghost var b := c.View();
      err, calls := Cleanup(c, others);
      CopiesGone(b, c.View(), copies, copyCount, baseKeys, others, err);
    }
  }

  lemma StoredAreBase(o: map<Key, Bytes>, fail: map<Op, Error>, all: seq<Key>, stored: seq<Key>, body: Body, size: int, err: Option<Error>)
    requires StoppedAt(o, fail, all, stored, body, size, err)
    ensures forall k :: k in stored ==> k in all
  {
  }

  lemma {:induction false} StoreAllFrame(o: map<Key, Bytes>, keys: seq<Key>, data: Bytes)
    ensures forall k :: k !in keys ==> SameAt(o, StoreAll(o, keys, data), k)
    ensures forall k :: k in keys ==> k in StoreAll(o, keys, data) && StoreAll(o, keys, data)[k] == data
  {
    if keys == [] {
    } else {
      StoreAllFrame(o, keys[..|keys| - 1], data);
      assert forall k :: k in keys[..|keys| - 1] ==> k in keys;
      assert keys[|keys| - 1] in keys;
    }
  }

  lemma NoCopiesYet(o: map<Key, Bytes>, o': map<Key, Bytes>, copies: ClaimCounter.Scheme, all: seq<Key>)
    requires forall i: nat :: ClaimCounter.KeyFor(copies, i) !in o
    requires forall k :: k in all ==> !ClaimCounter.Owns(copies, k)
    requires forall k :: k !in all ==> SameAt(o, o', k)
    ensures forall i: nat :: ClaimCounter.KeyFor(copies, i) !in o'
  {
    forall i: nat ensures ClaimCounter.KeyFor(copies, i) !in o' {
      var k := ClaimCounter.KeyFor(copies, i);
      assert ClaimCounter.Owns(copies, k);
      hide ClaimCounter.KeyFor, ClaimCounter.Owns;
      assert SameAt(o, o', k);
    }
  }

  lemma AfterRun(copies: ClaimCounter.Scheme, s: ClaimCounter.State, steps: seq<ClaimCounter.Step>) returns (t: ClaimCounter.State)
    requires s == ClaimCounter.Initial(0, s.objects, |s.workers|)
    requires forall i: nat :: ClaimCounter.KeyFor(copies, i) !in s.objects
    requires ClaimCounter.RunsToJoin(copies, 0, |s.workers|, steps)
    ensures ClaimCounter.ValidRun(copies, s, steps) && t == ClaimCounter.Run(copies, s, steps)
    ensures forall i: nat :: ClaimCounter.KeyFor(copies, i) in t.objects ==> i < t.count
    ensures forall k :: !ClaimCounter.Owns(copies, k) && ClaimCounter.Untouched(steps, k) ==> SameAt(s.objects, t.objects, k)
  {
    ClaimCounter.RunShape(copies, ClaimCounter.Initial(0, map[], |s.workers|), s, steps);
    t := ClaimCounter.Run(copies, s, steps);
    hide ClaimCounter.Run, ClaimCounter.ValidRun, ClaimCounter.KeyFor;
    ClaimCounter.JoinedState(copies, s, steps, 0);
    forall k | !ClaimCounter.Owns(copies, k) && ClaimCounter.Untouched(steps, k) ensures SameAt(s.objects, t.objects, k) {
      ClaimCounter.RunKeepsOthers(copies, s, steps, k);
    }
  }

  lemma CopiesGone(b: Bucket, b': Bucket, copies: ClaimCounter.Scheme, count: nat, stored: seq<Key>, others: Schedule, err: Option<Error>)
    requires ClaimCounter.Swept(b, b', stored + ClaimCounter.ClaimedKeys(copies, count), others, err)
    requires forall i: nat :: ClaimCounter.KeyFor(copies, i) in b.objects ==> i < count
    requires forall k :: k in stored ==> !ClaimCounter.Owns(copies, k)
    ensures err.None? && (DeleteOp, NotFound) !in ClaimCounter.Armable(b, others) ==>
              && (forall k :: k in stored && k in b'.objects ==> k in ScheduleEffects(others).writes)
              && ClaimCounter.NoneLeft(b'.objects, copies, ScheduleEffects(others))
    ensures err.Some? ==> (DeleteOp, err.value) in ClaimCounter.Armable(b, others) && err.value != NotFound
    ensures forall k :: k !in stored && !ClaimCounter.Owns(copies, k) && k !in ScheduleEffects(others).touches
              ==> SameAt(b.objects, b'.objects, k)
  {
    hide ClaimCounter.KeyFor, ScheduleEffects, ClaimCounter.Armable;
    var keys := stored + ClaimCounter.ClaimedKeys(copies, count);
    ClaimCounter.ClaimedAreOwned(copies, count);
    forall i: nat ensures ClaimCounter.KeyFor(copies, i) in keys <==> i < count {
      assert ClaimCounter.Owns(copies, ClaimCounter.KeyFor(copies, i));
    }
    if err.None? && (DeleteOp, NotFound) !in ClaimCounter.Armable(b, others) {
      ClaimCounter.NoneLeftAfter(b, b', copies, count, keys, others);
      assert forall k :: k in stored ==> k in keys;
    }
  }

  /** One List request, after the others have acted. */
  method Request(c: Client, prefix: Key, delim: string, token: Key, others: Schedule, call: nat) returns (r: Result<Page, Error>)
    modifies c
    ensures r.Ok? ==> c.View() == AfterAll(old(c.View()), Batch(others, call))
    ensures r.Ok? ==> r.value == PageOf(c.objects.Keys, prefix, delim, token, 100)
    ensures r.Ok? ==> Serves(r.value, FlatKeys(c.objects.Keys, prefix, delim, token))
    ensures r.Ok? && r.value.truncated && call >= |others|
      ==> |FlatKeys(c.objects.Keys, prefix, delim, r.value.next)| < |FlatKeys(old(c.objects).Keys, prefix, delim, token)|
    ensures r.Err? ==> ListOp in AfterAll(old(c.View()), Batch(others, call)).fail
  {
    Perform(c, Batch(others, call));
    ghost var view := c.objects.Keys;
    r := c.List(prefix, delim, token, 100);
    PageServes(view, prefix, delim, token, 100);
    if r.Ok? && r.value.truncated {
      var page := r.value;
      assert page.keys[0] in page.keys;
      FlatKeysShrink(view, prefix, delim, token, page.keys[0], page.next);
      Sets.SubsetSmaller(FlatKeys(view, prefix, delim, page.next), FlatKeys(view, prefix, delim, token));
    }
  }
}
