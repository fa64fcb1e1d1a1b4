/** Byte strings in the order Go's sort.Strings uses.

    A Go string is a sequence of bytes and is compared byte by byte.  A byte is
    represented here by the char of the same code, so `Key` covers every Go string. */
module Lex {
  type Key = string

  /** Strict byte-lexicographic order.  (Dafny's own `<` on sequences is the proper-prefix order.) */
  predicate Less(a: Key, b: Key) {
    b != [] && (a == [] || a[0] < b[0] || (a[0] == b[0] && Less(a[1..], b[1..])))
  }

  predicate AtMost(a: Key, b: Key) {
    !Less(b, a)
  }

  /** a and b agree before position i, where a ends or has the smaller byte. */
  predicate LowerAt(a: Key, b: Key, i: nat) {
    i <= |a| && i < |b| && a[..i] == b[..i] && (i == |a| || a[i] < b[i])
  }

  /** Strings are compared at the first byte at which they differ; one that ends there comes first. */
  lemma {:induction false} LessIff(a: Key, b: Key)
    ensures Less(a, b) <==> exists i: nat :: LowerAt(a, b, i)
  {
    if a != [] && b != [] && a[0] == b[0] {
      LessIff(a[1..], b[1..]);
      if i: nat :| LowerAt(a[1..], b[1..], i) {
        assert a[..i + 1] == [a[0]] + a[1..][..i] && b[..i + 1] == [b[0]] + b[1..][..i];
        assert LowerAt(a, b, i + 1);
      }
      if i: nat :| LowerAt(a, b, i) {
        assert i > 0;
        assert a[1..][..i - 1] == a[..i][1..] && b[1..][..i - 1] == b[..i][1..];
        assert LowerAt(a[1..], b[1..], i - 1);
      }
    } else if Less(a, b) {
      assert LowerAt(a, b, 0);
    } else {
      forall i: nat | 0 < i <= |a| && i < |b| ensures a[..i] == b[..i] ==> a[0] == b[0] {
        assert a[..i][0] == a[0] && b[..i][0] == b[0];
      }
    }
  }

  lemma {:induction false} LessIrreflexive(a: Key)
    ensures !Less(a, a)
  {
    if a != [] {
      LessIrreflexive(a[1..]);
    }
  }

  lemma {:induction false} LessTransitive(a: Key, b: Key, c: Key)
    requires Less(a, b) && Less(b, c)
    ensures Less(a, c)
  {
    if a != [] && a[0] == b[0] == c[0] {
      LessTransitive(a[1..], b[1..], c[1..]);
    }
  }

  lemma {:induction false} LessTotal(a: Key, b: Key)
    ensures Less(a, b) || a == b || Less(b, a)
  {
    if a != [] && b != [] && a[0] == b[0] {
      LessTotal(a[1..], b[1..]);
      assert a == [a[0]] + a[1..] && b == [b[0]] + b[1..];
    }
  }

  /** The order is a strict total order: exactly one of the three relations holds. */
  lemma Trichotomy(a: Key, b: Key)
    ensures Less(a, b) || a == b || Less(b, a)
    ensures !(Less(a, b) && Less(b, a)) && !(Less(a, b) && a == b)
  {
  }

  lemma LessAtMost(a: Key, b: Key, c: Key)
    requires (Less(a, b) && AtMost(b, c)) || (AtMost(a, b) && Less(b, c))
    ensures Less(a, c)
  {
    Trichotomy(a, b);
    Trichotomy(b, c);
    if Less(a, b) && Less(b, c) {
      LessTransitive(a, b, c);
    }
  }

  /** A string never sorts before one of its prefixes. */
  lemma {:induction false} PrefixAtMost(p: Key, k: Key)
    requires p <= k
    ensures AtMost(p, k)
  {
    if p != [] {
      PrefixAtMost(p[1..], k[1..]);
    }
  }

  /** A shared prefix does not affect the order. */
  lemma {:induction false} LessSamePrefix(p: Key, a: Key, b: Key)
    ensures Less(p + a, p + b) <==> Less(a, b)
  {
    if p == [] {
      assert p + a == a && p + b == b;
    } else {
      LessSamePrefix(p[1..], a, b);
      assert (p + a)[1..] == p[1..] + a && (p + b)[1..] == p[1..] + b;
    }
  }

  /** When neither x nor y is a prefix of the other, the order of any extensions is the order of x and y. */
  lemma {:induction false} LessByHeads(x: Key, y: Key, a: Key, b: Key)
    requires x <= a && y <= b
    requires !(x <= y) && !(y <= x)
    ensures Less(a, b) <==> Less(x, y)
  {
    if x[0] == y[0] {
      assert x == [x[0]] + x[1..] && y == [y[0]] + y[1..];
      LessByHeads(x[1..], y[1..], a[1..], b[1..]);
    }
  }

  // ----- sorted listings of a set of keys -----

  ghost predicate StrictlySorted(s: seq<Key>) {
    forall i, j :: 0 <= i < j < |s| ==> Less(s[i], s[j])
  }

  /** s lists exactly the elements of ks, each once, in increasing order. */
  ghost predicate Lists(s: seq<Key>, ks: set<Key>) {
    StrictlySorted(s) && forall k :: k in s <==> k in ks
  }

  ghost function Least(ks: set<Key>): (m: Key)
    requires ks != {}
    ensures m in ks && forall k :: k in ks ==> AtMost(m, k)
  {
    var x :| x in ks;
    if ks == {x} then
      LessIrreflexive(x);
      x
    else
      var m := Least(ks - {x});
      assert forall k :: k in ks && AtMost(m, k) && Less(x, m) ==> AtMost(x, k) by {
        forall k | k in ks && AtMost(m, k) && Less(x, m) ensures AtMost(x, k) {
          LessAtMost(x, m, k);
          Trichotomy(x, k);
        }
      }
      LessIrreflexive(x);
      if Less(x, m) then x else m
  }

  /** The sorted listing of a finite set. */
  ghost function Listing(ks: set<Key>): (s: seq<Key>)
    ensures Lists(s, ks)
    ensures |s| == |ks|
  {
    if ks == {} then [] else
      var m := Least(ks);
      var rest := Listing(ks - {m});
      assert forall j :: 0 <= j < |rest| ==> Less(m, rest[j]) by {
        forall j | 0 <= j < |rest| ensures Less(m, rest[j]) {
          assert rest[j] in rest;
          Trichotomy(m, rest[j]);
        }
      }
      [m] + rest
  }

  /** A set has only one sorted listing, so sorting is deterministic. */
  lemma {:induction false} ListingUnique(s: seq<Key>, t: seq<Key>, ks: set<Key>)
    requires Lists(s, ks) && Lists(t, ks)
    ensures s == t
  {
    EmptyListing(s, ks);
    EmptyListing(t, ks);
    if s != [] {
      assert s[0] in s;
      assert t[0] in t && t[0] in s;
      HeadsAgree(s, t);
      var rest := ks - {s[0]};
      TailLists(s, ks);
      TailLists(t, ks);
      ListingUnique(s[1..], t[1..], rest);
      assert s == [s[0]] + s[1..] && t == [t[0]] + t[1..];
    }
  }

  lemma EmptyListing(s: seq<Key>, ks: set<Key>)
    requires Lists(s, ks)
    ensures s == [] <==> ks == {}
  {
    if s != [] {
      assert s[0] in s;
    }
  }

  lemma HeadsAgree(s: seq<Key>, t: seq<Key>)
    requires StrictlySorted(s) && StrictlySorted(t)
    requires s != [] && t != [] && s[0] in t && t[0] in s
    ensures s[0] == t[0]
  {
    if s[0] != t[0] {
      assert Less(t[0], s[0]);
      assert Less(s[0], t[0]);
      Trichotomy(s[0], t[0]);
    }
  }

  lemma TailLists(s: seq<Key>, ks: set<Key>)
    requires Lists(s, ks) && s != []
    ensures Lists(s[1..], ks - {s[0]})
  {
    forall k ensures k in s[1..] <==> k in ks - {s[0]} {
      if k in s[1..] {
        assert Less(s[0], k);
        LessIrreflexive(k);
        assert k in s;
      }
    }
  }

  // ----- sort.Strings -----

  ghost predicate Distinct<T>(s: seq<T>) {
    forall i, j :: 0 <= i < j < |s| ==> s[i] != s[j]
  }

  function Insert(k: Key, s: seq<Key>): seq<Key> {
    if s == [] || Less(k, s[0]) then [k] + s else [s[0]] + Insert(k, s[1..])
  }

  /** sort.Strings, as an insertion sort. */
  function Sort(s: seq<Key>): seq<Key> {
    if s == [] then [] else Insert(s[0], Sort(s[1..]))
  }

  lemma {:induction false} InsertLists(k: Key, s: seq<Key>, ks: set<Key>)
    requires Lists(s, ks) && k !in ks
    ensures Lists(Insert(k, s), ks + {k})
  {
    if s == [] {
    } else if Less(k, s[0]) {
      forall j | 0 < j < |s| ensures Less(k, s[j]) {
        LessTransitive(k, s[0], s[j]);
      }
    } else {
      TailLists(s, ks);
      assert s[0] in s;
      InsertLists(k, s[1..], ks - {s[0]});
      Trichotomy(k, s[0]);
      var rest := Insert(k, s[1..]);
      forall j | 0 <= j < |rest| ensures Less(s[0], rest[j]) {
        assert rest[j] in rest;
        assert rest[j] in s[1..] || rest[j] == k;
      }
    }
  }

  /** Sorting distinct strings yields the sorted listing of their set, whatever order they came in. */
  lemma {:induction false} SortLists(s: seq<Key>)
    requires Distinct(s)
    ensures Lists(Sort(s), set k | k in s)
  {
    if s != [] {
      SortLists(s[1..]);
      InsertLists(s[0], Sort(s[1..]), set k | k in s[1..]);
      assert (set k | k in s) == (set k | k in s[1..]) + {s[0]};
    }
  }

  // ----- sort.SearchStrings -----

  /** The least index i with token <= s[i] (|s| if there is none). */
  function LowerBound(s: seq<Key>, token: Key): (i: nat)
    ensures i <= |s|
    ensures forall j :: 0 <= j < i ==> Less(s[j], token)
    ensures i < |s| ==> AtMost(token, s[i])
  {
    if s == [] || AtMost(token, s[0]) then 0 else 1 + LowerBound(s[1..], token)
  }

  /** Cutting a sorted listing at the lower bound keeps exactly the keys from the token on. */
  lemma LowerBoundLists(s: seq<Key>, token: Key, ks: set<Key>)
    requires Lists(s, ks)
    ensures Lists(s[LowerBound(s, token)..], set k | k in ks && AtMost(token, k))
  {
    var i := LowerBound(s, token);
    forall k | k in s[i..] ensures k in ks && AtMost(token, k) {
      var j :| i <= j < |s| && s[j] == k;
      if j > i && Less(k, token) {
        LessAtMost(k, token, s[i]);
        Trichotomy(k, s[i]);
      }
      assert k in s;
    }
    forall k | k in ks && AtMost(token, k) ensures k in s[i..] {
      var j :| 0 <= j < |s| && s[j] == k;
      assert i <= j;
      assert s[i..][j - i] == k;
    }
  }
}
