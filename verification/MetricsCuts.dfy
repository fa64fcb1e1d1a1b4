/** One log routed over shards, and what a reader takes that visits the shards one after another while writers continue. */
module MetricsCuts {
  import opened MetricsLog
  import Lex

  /** A shard: the collector's fallback or that of one worker. */
  datatype Target = Fallback | Worker(id: int)

  datatype Record = Record(target: Target, entry: Entry)

  /** The entries that went to shard t, in order. */
  function Routed(log: seq<Record>, t: Target): seq<Entry> {
    if log == [] then []
    else
      var last := log[|log| - 1];
      Routed(log[..|log| - 1], t) + if last.target == t then [last.entry] else []
  }

  function Entries(log: seq<Record>): seq<Entry> {
    if log == [] then [] else Entries(log[..|log| - 1]) + [log[|log| - 1].entry]
  }

  /** Shard order[i] was read when the log had cuts[i] records. */
  ghost predicate AreCuts(log: seq<Record>, order: seq<Target>, cuts: seq<nat>) {
    |order| == |cuts| && forall i :: 0 <= i < |cuts| ==> cuts[i] <= |log|
  }

  /** Everything read, shard after shard. */
  function Taken(log: seq<Record>, order: seq<Target>, cuts: seq<nat>): seq<Entry>
    requires AreCuts(log, order, cuts)
  {
    if order == [] then []
    else
      var n := |order| - 1;
      Taken(log, order[..n], cuts[..n]) + Routed(log[..cuts[n]], order[n])
  }

  /** The shards in known were read once each, in some order, at moments between before and after. */
  ghost predicate IsReading(before: seq<Record>, after: seq<Record>, known: set<Target>,
                            order: seq<Target>, cuts: seq<nat>) {
    && before <= after
    && AreCuts(after, order, cuts)
    && Lex.Distinct(order)
    && (forall t :: t in order <==> t in known)
    && forall i :: 0 <= i < |cuts| ==> |before| <= cuts[i]
  }

  lemma RoutedPush(log: seq<Record>, r: Record, t: Target)
    ensures Routed(log + [r], t) == Routed(log, t) + if r.target == t then [r.entry] else []
  {
    assert (log + [r])[..|log|] == log;
  }

  /** A shard's log at an earlier moment is a prefix of its log later on. */
  lemma {:induction false} RoutedPrefix(log: seq<Record>, n: nat, t: Target)
    requires n <= |log|
    ensures Routed(log[..n], t) <= Routed(log, t)
    decreases |log|
  {
    if n == |log| {
      assert log[..n] == log;
    } else {
      RoutedPrefix(log[..|log| - 1], n, t);
      assert log[..|log| - 1][..n] == log[..n];
    }
  }

  /** What was read earlier does not depend on how the log went on. */
  lemma {:induction false} TakenStable(log: seq<Record>, log': seq<Record>, order: seq<Target>, cuts: seq<nat>)
    requires AreCuts(log, order, cuts) && log <= log'
    ensures AreCuts(log', order, cuts) && Taken(log', order, cuts) == Taken(log, order, cuts)
  {
    if order != [] {
      var n := |order| - 1;
      TakenStable(log, log', order[..n], cuts[..n]);
      assert log'[..cuts[n]] == log[..cuts[n]];
    }
  }

  lemma TakenPush(log: seq<Record>, order: seq<Target>, cuts: seq<nat>, t: Target, c: nat)
    requires AreCuts(log, order, cuts) && c <= |log|
    ensures AreCuts(log, order + [t], cuts + [c])
    ensures Taken(log, order + [t], cuts + [c]) == Taken(log, order, cuts) + Routed(log[..c], t)
  {
    assert (order + [t])[..|order|] == order && (cuts + [c])[..|cuts|] == cuts;
  }

  // ----- between which logs the reading lies -----

  /** The entries whose shard is listed. */
  function Among(log: seq<Record>, order: seq<Target>): seq<Entry> {
    if log == [] then []
    else
      var last := log[|log| - 1];
      Among(log[..|log| - 1], order) + if last.target in order then [last.entry] else []
  }

  lemma {:induction false} AmongNone(log: seq<Record>)
    ensures Among(log, []) == []
  {
    if log != [] {
      AmongNone(log[..|log| - 1]);
    }
  }

  lemma {:induction false} AmongAll(log: seq<Record>, order: seq<Target>)
    requires forall r :: r in log ==> r.target in order
    ensures Among(log, order) == Entries(log)
  {
    if log != [] {
      AmongAll(log[..|log| - 1], order);
    }
  }

  lemma {:induction false} AmongAtMost(log: seq<Record>, order: seq<Target>)
    ensures multiset(Among(log, order)) <= multiset(Entries(log))
  {
    if log != [] {
      AmongAtMost(log[..|log| - 1], order);
    }
  }

  lemma {:induction false} AmongPush(log: seq<Record>, order: seq<Target>, t: Target)
    requires t !in order
    ensures multiset(Among(log, order + [t])) == multiset(Among(log, order)) + multiset(Routed(log, t))
  {
    if log != [] {
      AmongPush(log[..|log| - 1], order, t);
    }
  }

  lemma PrefixMultiset<T>(a: seq<T>, b: seq<T>)
    requires a <= b
    ensures multiset(a) <= multiset(b)
  {
    assert b == a + b[|a|..];
  }

  lemma RoutedBetween(log: seq<Record>, n: nat, c: nat, t: Target)
    requires n <= c <= |log|
    ensures multiset(Routed(log[..n], t)) <= multiset(Routed(log[..c], t)) <= multiset(Routed(log, t))
  {
    assert log[..c][..n] == log[..n];
    RoutedPrefix(log[..c], n, t);
    RoutedPrefix(log, c, t);
    PrefixMultiset(Routed(log[..n], t), Routed(log[..c], t));
    PrefixMultiset(Routed(log[..c], t), Routed(log, t));
  }

  lemma BoundsAdd<T>(a: multiset<T>, b: multiset<T>, c: multiset<T>, x: multiset<T>, y: multiset<T>, z: multiset<T>)
    requires a <= b <= c && x <= y <= z
    ensures a + x <= b + y <= c + z
  {
  }

  /** Every entry recorded before the first shard was read is taken, and nothing is taken twice or invented. */
  lemma {:induction false} TakenAmong(log: seq<Record>, n: nat, order: seq<Target>, cuts: seq<nat>)
    requires AreCuts(log, order, cuts) && Lex.Distinct(order)
    requires n <= |log| && forall i :: 0 <= i < |cuts| ==> n <= cuts[i]
    ensures multiset(Among(log[..n], order)) <= multiset(Taken(log, order, cuts)) <= multiset(Among(log, order))
  {
    hide Among, Routed, Lex.Distinct;
    if order == [] {
      AmongNone(log[..n]);
      AmongNone(log);
    } else {
      hide Taken;
      var m := |order| - 1;
      Unsnoc(order);
      Unsnoc(cuts);
      LastIsNew(order);
      TakenAmong(log, n, order[..m], cuts[..m]);
      TakenAmongLast(log, n, order[..m], cuts[..m], order[m], cuts[m]);
    }
  }

  lemma Unsnoc<T>(s: seq<T>)
    requires s != []
    ensures s == s[..|s| - 1] + [s[|s| - 1]]
  {
  }

  lemma LastIsNew<T>(s: seq<T>)
    requires Lex.Distinct(s) && s != []
    ensures Lex.Distinct(s[..|s| - 1]) && s[|s| - 1] !in s[..|s| - 1]
  {
  }

  lemma TakenAmongLast(log: seq<Record>, n: nat, order: seq<Target>, cuts: seq<nat>, t: Target, c: nat)
    requires AreCuts(log, order, cuts) && n <= c <= |log| && t !in order
    requires multiset(Among(log[..n], order)) <= multiset(Taken(log, order, cuts)) <= multiset(Among(log, order))
    ensures AreCuts(log, order + [t], cuts + [c])
    ensures multiset(Among(log[..n], order + [t])) <= multiset(Taken(log, order + [t], cuts + [c]))
    ensures multiset(Taken(log, order + [t], cuts + [c])) <= multiset(Among(log, order + [t]))
  {
    hide Among, Routed, Taken;
    TakenPush(log, order, cuts, t, c);
    AmongPush(log[..n], order, t);
    AmongPush(log, order, t);
    RoutedBetween(log, n, c, t);
    BoundsAdd(multiset(Among(log[..n], order)), multiset(Taken(log, order, cuts)), multiset(Among(log, order)),
              multiset(Routed(log[..n], t)), multiset(Routed(log[..c], t)), multiset(Routed(log, t)));
  }

  /** A reading that starts after n records and ends within the log holds everything recorded before it began
      and only what was recorded before it ended. */
  lemma TakenBetween(log: seq<Record>, n: nat, order: seq<Target>, cuts: seq<nat>)
    requires AreCuts(log, order, cuts) && Lex.Distinct(order)
    requires n <= |log| && forall i :: 0 <= i < |cuts| ==> n <= cuts[i]
    requires forall r :: r in log[..n] ==> r.target in order
    ensures multiset(Entries(log[..n])) <= multiset(Taken(log, order, cuts)) <= multiset(Entries(log))
  {
    TakenAmong(log, n, order, cuts);
    AmongAll(log[..n], order);
    AmongAtMost(log, order);
  }

  /** Every record went to one of these shards. */
  ghost predicate Known(log: seq<Record>, shards: set<Target>) {
    forall r :: r in log ==> r.target in shards
  }

  /** taken holds everything in before and nothing that is not in after. */
  ghost predicate Spans(before: seq<Record>, after: seq<Record>, taken: seq<Entry>) {
    multiset(Entries(before)) <= multiset(taken) <= multiset(Entries(after))
  }

  lemma QuietSpans(log: seq<Record>, taken: seq<Entry>)
    requires Spans(log, log, taken)
    ensures multiset(taken) == multiset(Entries(log))
  {
  }

  lemma ReadingSpans(before: seq<Record>, after: seq<Record>, known: set<Target>, order: seq<Target>, cuts: seq<nat>)
    requires IsReading(before, after, known, order, cuts) && Known(before, known)
    ensures Spans(before, after, Taken(after, order, cuts))
  {
    assert after[..|before|] == before;
    TakenBetween(after, |before|, order, cuts);
  }

  lemma {:induction false} TotalMonotone(a: seq<Entry>, b: seq<Entry>, f: Entry -> int)
    requires multiset(a) <= multiset(b) && forall e :: f(e) >= 0
    ensures Total(a, f) <= Total(b, f)
    decreases |a|
  {
    if a == [] {
      TotalNonNegative(b, f);
    } else {
      var i := |a| - 1;
      assert a[i] in multiset(a) && a[i] in multiset(b);
      var j :| 0 <= j < |b| && b[j] == a[i];
      TotalWithout(a, i, f);
      TotalWithout(b, j, f);
      MultisetWithout(a, i);
      MultisetWithout(b, j);
      TotalMonotone(Without(a, i), Without(b, j), f);
    }
  }

  /** A later reading never totals less than an earlier one. */
  lemma ReadingsGrow(log: seq<Record>, order: seq<Target>, cuts: seq<nat>,
                     log': seq<Record>, order': seq<Target>, cuts': seq<nat>, f: Entry -> int)
    requires AreCuts(log, order, cuts) && Lex.Distinct(order)
    requires AreCuts(log', order', cuts') && Lex.Distinct(order')
    requires log <= log' && (forall i :: 0 <= i < |cuts'| ==> |log| <= cuts'[i])
    requires forall r :: r in log ==> r.target in order'
    requires forall e :: f(e) >= 0
    ensures Total(Taken(log, order, cuts), f) <= Total(Taken(log', order', cuts'), f)
  {
    TakenAmong(log, 0, order, cuts);
    AmongAtMost(log, order);
    assert log'[..|log|] == log;
    TakenBetween(log', |log|, order', cuts');
    TotalMonotone(Taken(log, order, cuts), Taken(log', order', cuts'), f);
  }
}
