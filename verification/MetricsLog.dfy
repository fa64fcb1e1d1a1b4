/** What the metrics collector must report: order-blind aggregates of one log of operations. */
module MetricsLog {
  import opened Wrappers
  import Arith
  import Lex

  const HDR_MIN := 1
  const HDR_MAX := 3_600_000_000_000

  datatype Failure = ApiError(code: string, message: string) | OtherError(message: string)

  /** The reporting code of an outcome: the API's own code, or "unknown". */
  function Classify(err: Option<Failure>): string {
    match err
    case None => ""
    case Some(ApiError(code, _)) => code
    case Some(OtherError(_)) => "unknown"
  }

  datatype Key = Key(workload: string, op: string)

  datatype Entry = Entry(key: Key, latency: int, bytes: int, err: Option<Failure>)

  datatype ErrCount = ErrCount(count: int, sample: string)

  datatype Stats = Stats(count: int, errors: int, bytes: int, latSum: int, latMax: int, latMin: int,
                         errByCode: map<string, ErrCount>, hist: multiset<int>)

  function Clamp(latency: int): int {
    if latency < HDR_MIN then HDR_MIN else if latency > HDR_MAX then HDR_MAX else latency
  }

  /** The histogram value a latency counts under: itself within the bounds, otherwise the bound it exceeds. */
  predicate Falls(latency: int, v: int) {
    || (HDR_MIN < v < HDR_MAX && latency == v)
    || (v == HDR_MIN && latency <= HDR_MIN)
    || (v == HDR_MAX && latency >= HDR_MAX)
  }

  /** The outcome is a failure of this code; failures that are not the API's have the code "unknown". */
  predicate HasCode(err: Option<Failure>, code: string) {
    err.Some? && if err.value.ApiError? then err.value.code == code else code == "unknown"
  }

  // ----- totals over a log -----

  function Total(log: seq<Entry>, f: Entry -> int): int {
    if log == [] then 0 else Total(log[..|log| - 1], f) + f(log[|log| - 1])
  }

  function One(): Entry -> int { (e: Entry) => 1 }
  function Failed(): Entry -> int { (e: Entry) => if e.err.Some? then 1 else 0 }
  function Moved(): Entry -> int { (e: Entry) => e.bytes }
  function CountOf(k: Key): Entry -> int { (e: Entry) => if e.key == k then 1 else 0 }
  function ErrorsOf(k: Key): Entry -> int { (e: Entry) => if e.key == k && e.err.Some? then 1 else 0 }
  function BytesOf(k: Key): Entry -> int { (e: Entry) => if e.key == k then e.bytes else 0 }
  function LatencyOf(k: Key): Entry -> int { (e: Entry) => if e.key == k then e.latency else 0 }
  function ValueOf(k: Key, v: int): Entry -> int { (e: Entry) => if e.key == k && Falls(e.latency, v) then 1 else 0 }
  function CodeOf(k: Key, code: string): Entry -> int {
    (e: Entry) => if e.key == k && HasCode(e.err, code) then 1 else 0
  }

  lemma TotalPush(log: seq<Entry>, e: Entry, f: Entry -> int)
    ensures Total(log + [e], f) == Total(log, f) + f(e)
  {
    assert (log + [e])[..|log|] == log;
  }

  lemma {:induction false} TotalConcat(a: seq<Entry>, b: seq<Entry>, f: Entry -> int)
    ensures Total(a + b, f) == Total(a, f) + Total(b, f)
  {
    if b == [] {
      assert a + b == a;
    } else {
      var b', e := b[..|b| - 1], b[|b| - 1];
      assert a + b == (a + b') + [e];
      TotalPush(a + b', e, f);
      TotalConcat(a, b', f);
    }
  }

  lemma {:induction false} TotalZero(log: seq<Entry>, f: Entry -> int)
    requires forall e :: e in log ==> f(e) == 0
    ensures Total(log, f) == 0
  {
    if log != [] {
      TotalZero(log[..|log| - 1], f);
    }
  }

  /** Pointwise sums add up. */
  lemma {:induction false} TotalAdd(log: seq<Entry>, f: Entry -> int, g: Entry -> int, h: Entry -> int)
    requires forall e :: h(e) == f(e) + g(e)
    ensures Total(log, h) == Total(log, f) + Total(log, g)
  {
    if log != [] {
      TotalAdd(log[..|log| - 1], f, g, h);
    }
  }

  lemma {:induction false} TotalNonNegative(log: seq<Entry>, f: Entry -> int)
    requires forall e :: f(e) >= 0
    ensures Total(log, f) >= 0
  {
    if log != [] {
      TotalNonNegative(log[..|log| - 1], f);
    }
  }

  lemma {:induction false} TotalPermuted(a: seq<Entry>, b: seq<Entry>, f: Entry -> int)
    requires multiset(a) == multiset(b)
    ensures Total(a, f) == Total(b, f)
    decreases |a|
  {
    if a == [] {
      assert |multiset(b)| == 0;
    } else {
      var i := |a| - 1;
      assert a[i] in multiset(b);
      var j :| 0 <= j < |b| && b[j] == a[i];
      TotalWithout(a, i, f);
      TotalWithout(b, j, f);
      MultisetWithout(a, i);
      MultisetWithout(b, j);
      TotalPermuted(Without(a, i), Without(b, j), f);
    }
  }

  function Without<T>(s: seq<T>, j: nat): (r: seq<T>)
    requires j < |s|
    ensures |r| == |s| - 1
  {
    s[..j] + s[j + 1..]
  }

  lemma MultisetWithout<T>(s: seq<T>, j: nat)
    requires j < |s|
    ensures multiset(Without(s, j)) == multiset(s) - multiset{s[j]}
  {
    assert s == s[..j] + [s[j]] + s[j + 1..];
  }

  lemma SplitAround<T>(s: seq<T>, j: nat)
    requires j < |s|
    ensures s[..j + 1] + s[j + 1..] == s && s[..j] + [s[j]] == s[..j + 1]
  {
  }

  lemma TotalWithout(log: seq<Entry>, j: nat, f: Entry -> int)
    requires j < |log|
    ensures Total(log, f) == Total(Without(log, j), f) + f(log[j])
  {
    hide Total;
    TotalConcat(log[..j], log[j + 1..], f);
    TotalConcat(log[..j + 1], log[j + 1..], f);
    TotalPush(log[..j], log[j], f);
    SplitAround(log, j);
  }

  // ----- what one (workload, op) reports -----

  ghost predicate Seen(log: seq<Entry>, k: Key) {
    exists e :: e in log && e.key == k
  }

  /** m is max(0, every latency recorded for k). */
  ghost predicate IsLatMax(m: int, log: seq<Entry>, k: Key) {
    && m >= 0
    && (forall e :: e in log && e.key == k ==> e.latency <= m)
    && (m == 0 || exists e :: e in log && e.key == k && e.latency == m)
  }

  /** m is min(HDR_MAX, every latency recorded for k). */
  ghost predicate IsLatMin(m: int, log: seq<Entry>, k: Key) {
    && m <= HDR_MAX
    && (forall e :: e in log && e.key == k ==> m <= e.latency)
    && (m == HDR_MAX || exists e :: e in log && e.key == k && e.latency == m)
  }

  /** message was really recorded for k under this code. */
  ghost predicate Recorded(message: string, log: seq<Entry>, k: Key, code: string) {
    exists e :: e in log && e.key == k && HasCode(e.err, code) && e.err.value.message == message
  }

  function CodeCount(m: map<string, ErrCount>, code: string): int {
    if code in m then m[code].count else 0
  }

  ghost predicate AggregatesSums(s: Stats, log: seq<Entry>, k: Key) {
    && s.count == Total(log, CountOf(k))
    && s.errors == Total(log, ErrorsOf(k))
    && s.bytes == Total(log, BytesOf(k))
    && s.latSum == Total(log, LatencyOf(k))
    && (forall v :: s.hist[v] == Total(log, ValueOf(k, v)))
  }

  ghost predicate AggregatesErrors(m: map<string, ErrCount>, log: seq<Entry>, k: Key) {
    && (forall code :: CodeCount(m, code) == Total(log, CodeOf(k, code)))
    && (forall code :: code in m ==> m[code].count > 0 && Recorded(m[code].sample, log, k, code))
  }

  /** s is the aggregate of the entries of log that belong to k. */
  ghost predicate Aggregates(s: Stats, log: seq<Entry>, k: Key) {
    && AggregatesSums(s, log, k)
    && AggregatesErrors(s.errByCode, log, k)
    && IsLatMax(s.latMax, log, k)
    && IsLatMin(s.latMin, log, k)
  }

  /** As Aggregates, with a minimum still at its sentinel shown as 0. */
  ghost predicate Reports(s: Stats, log: seq<Entry>, k: Key) {
    && AggregatesSums(s, log, k)
    && AggregatesErrors(s.errByCode, log, k)
    && IsLatMax(s.latMax, log, k)
    && IsShownMin(s.latMin, log, k)
  }

  /** m is the least latency recorded for k, or 0 if none lies below the sentinel. */
  ghost predicate IsShownMin(m: int, log: seq<Entry>, k: Key) {
    if forall e :: e in log && e.key == k ==> e.latency >= HDR_MAX then m == 0
    else (exists e :: e in log && e.key == k && e.latency == m) && forall e :: e in log && e.key == k ==> m <= e.latency
  }

  lemma ShownMinIs(m: int, log: seq<Entry>, k: Key)
    requires IsLatMin(m, log, k)
    ensures IsShownMin(ShownMin(m), log, k)
  {
  }

  function ShownMin(m: int): int {
    if m == HDR_MAX then 0 else m
  }

  // ----- facts that hold whatever the order of the log -----

  /** Only the contents of the log matter, not their order. */
  lemma ReportsPermuted(s: Stats, a: seq<Entry>, b: seq<Entry>, k: Key)
    requires Reports(s, a, k) && multiset(a) == multiset(b)
    ensures Reports(s, b, k)
  {
    forall f ensures Total(a, f) == Total(b, f) {
      TotalPermuted(a, b, f);
    }
    SameMembers(a, b);
    hide Total, Recorded, IsShownMin, IsLatMax;
    RecordedSame(a, b, k);
    LimitsSame(a, b, k);
  }

  lemma SameMembers(a: seq<Entry>, b: seq<Entry>)
    requires multiset(a) == multiset(b)
    ensures forall e :: e in a <==> e in b
  {
    forall e ensures e in a <==> e in b {
      assert e in a <==> e in multiset(a);
      assert e in b <==> e in multiset(b);
    }
  }

  lemma RecordedSame(a: seq<Entry>, b: seq<Entry>, k: Key)
    requires forall e :: e in a <==> e in b
    ensures forall message, code :: Recorded(message, a, k, code) ==> Recorded(message, b, k, code)
  {
  }

  lemma LimitsSame(a: seq<Entry>, b: seq<Entry>, k: Key)
    requires forall e :: e in a <==> e in b
    ensures forall m :: IsLatMax(m, a, k) ==> IsLatMax(m, b, k)
    ensures forall m :: IsShownMin(m, a, k) ==> IsShownMin(m, b, k)
  {
  }

  /** A reported minimum of 0 means that every latency reached the sentinel or that the least one is 0. */
  lemma ReportedMinZero(s: Stats, log: seq<Entry>, k: Key)
    requires Reports(s, log, k)
    ensures s.latMin == 0 <==>
            || (forall e :: e in log && e.key == k ==> e.latency >= HDR_MAX)
            || (&& (exists e :: e in log && e.key == k && e.latency == 0)
                && (forall e :: e in log && e.key == k ==> e.latency >= 0))
  {
    if e :| e in log && e.key == k && e.latency < HDR_MAX {
      var least :| least in log && least.key == k && least.latency == s.latMin;
    }
  }

  /** A latency of 0 is shown as the sentinel is. */
  lemma ZeroLatencyShown(s: Stats, e: Entry)
    requires e.latency == 0 && Reports(s, [e], e.key)
    ensures s.latMin == 0 && e.latency < HDR_MAX
  {
    assert e in [e];
    ReportedMinZero(s, [e], e.key);
  }

  /** A total that counts is the number of the records counted. */
  lemma {:induction false} TotalIsSize(log: seq<Entry>, f: Entry -> int, s: set<nat>)
    requires forall e :: f(e) == 0 || f(e) == 1
    requires forall i: nat :: i in s <==> i < |log| && f(log[i]) == 1
    ensures Total(log, f) == |s|
  {
    if log == [] {
      assert s == {};
    } else {
      var n: nat := |log| - 1;
      TotalIsSize(log[..n], f, s - {n});
      if f(log[n]) == 0 {
        assert s - {n} == s;
      }
    }
  }

  /** The records of k, by number. */
  ghost function Records(log: seq<Entry>, k: Key): (s: set<nat>) {
    set i: nat | i < |log| && log[i].key == k
  }

  ghost function RecordsAt(log: seq<Entry>, k: Key, latency: int): (s: set<nat>) {
    set i: nat | i < |log| && log[i].key == k && log[i].latency == latency
  }

  ghost function RecordsUpTo(log: seq<Entry>, k: Key, latency: int): (s: set<nat>) {
    set i: nat | i < |log| && log[i].key == k && log[i].latency <= latency
  }

  ghost function RecordsFrom(log: seq<Entry>, k: Key, latency: int): (s: set<nat>) {
    set i: nat | i < |log| && log[i].key == k && log[i].latency >= latency
  }

  /** What the histogram of an aggregate holds: within the bounds as many of each value as there were operations of that
      latency, at one nanosecond and at one hour all that were as short or as long, and no other value. */
  lemma HistogramHolds(s: Stats, log: seq<Entry>, k: Key, v: int)
    requires Aggregates(s, log, k) || Reports(s, log, k)
    ensures 1 < v < 3_600_000_000_000 ==> s.hist[v] == |RecordsAt(log, k, v)|
    ensures s.hist[1] == |RecordsUpTo(log, k, 1)|
    ensures s.hist[3_600_000_000_000] == |RecordsFrom(log, k, 3_600_000_000_000)|
    ensures v < 1 || v > 3_600_000_000_000 ==> s.hist[v] == 0
  {
    hide Total, AggregatesErrors, IsLatMax, IsLatMin, IsShownMin;
    TotalIsSize(log, ValueOf(k, 1), RecordsUpTo(log, k, 1));
    TotalIsSize(log, ValueOf(k, 3_600_000_000_000), RecordsFrom(log, k, 3_600_000_000_000));
    if 1 < v < 3_600_000_000_000 {
      TotalIsSize(log, ValueOf(k, v), RecordsAt(log, k, v));
    } else if v < 1 || v > 3_600_000_000_000 {
      TotalZero(log, ValueOf(k, v));
    }
  }

  ghost function ApiFailures(log: seq<Entry>, k: Key, code: string): (s: set<nat>) {
    set i: nat | i < |log| && log[i].key == k && log[i].err.Some? && log[i].err.value.ApiError? && log[i].err.value.code == code
  }

  ghost function OtherFailures(log: seq<Entry>, k: Key): (s: set<nat>) {
    set i: nat | i < |log| && log[i].key == k && log[i].err.Some? && log[i].err.value.OtherError?
  }

  /** What the count of a code is: the API failures of that code and, under "unknown", all the other failures too. */
  lemma CodeHolds(s: Stats, log: seq<Entry>, k: Key, code: string)
    requires Aggregates(s, log, k) || Reports(s, log, k)
    ensures CodeCount(s.errByCode, code)
         == |ApiFailures(log, k, code)| + if code == "unknown" then |OtherFailures(log, k)| else 0
  {
    hide Total, AggregatesSums, IsLatMax, IsLatMin, IsShownMin, Recorded;
    var api, other := ApiFailures(log, k, code), OtherFailures(log, k);
    if code == "unknown" {
      TotalIsSize(log, CodeOf(k, code), api + other);
      assert api !! other;
    } else {
      TotalIsSize(log, CodeOf(k, code), api);
    }
  }

  /** What the codes listed so far account for. */
  function CodesOf(k: Key, codes: seq<string>): Entry -> int {
    (e: Entry) => if e.key == k && e.err.Some? && Classify(e.err) in codes then 1 else 0
  }

  function SumCodes(m: map<string, ErrCount>, codes: seq<string>): int {
    if codes == [] then 0 else SumCodes(m, codes[..|codes| - 1]) + CodeCount(m, codes[|codes| - 1])
  }

  lemma {:induction false} SumCodesIs(m: map<string, ErrCount>, codes: seq<string>, log: seq<Entry>, k: Key)
    requires AggregatesErrors(m, log, k) && Lex.Distinct(codes)
    ensures SumCodes(m, codes) == Total(log, CodesOf(k, codes))
  {
    if codes == [] {
      TotalZero(log, CodesOf(k, codes));
    } else {
      var front, code := codes[..|codes| - 1], codes[|codes| - 1];
      SumCodesIs(m, front, log, k);
      TotalAdd(log, CodesOf(k, front), CodeOf(k, code), CodesOf(k, codes));
    }
  }

  /** The per-code counts, enumerated in any order, add up to Errors. */
  lemma CodesSumToErrors(s: Stats, log: seq<Entry>, k: Key, codes: seq<string>)
    requires Reports(s, log, k)
    requires Lex.Distinct(codes) && forall code :: code in codes <==> code in s.errByCode
    ensures SumCodes(s.errByCode, codes) == s.errors
  {
    SumCodesIs(s.errByCode, codes, log, k);
    forall e | e in log ensures CodesOf(k, codes)(e) == ErrorsOf(k)(e) {
      if e.key == k && e.err.Some? && Classify(e.err) !in codes {
        Uncounted(log, k, Classify(e.err), e);
      }
    }
    TotalSame(log, CodesOf(k, codes), ErrorsOf(k));
  }

  lemma {:induction false} TotalSame(log: seq<Entry>, f: Entry -> int, g: Entry -> int)
    requires forall e :: e in log ==> f(e) == g(e)
    ensures Total(log, f) == Total(log, g)
  {
    if log != [] {
      TotalSame(log[..|log| - 1], f, g);
    }
  }

  /** A code under which an entry failed has a positive count. */
  lemma {:induction false} Uncounted(log: seq<Entry>, k: Key, code: string, e: Entry)
    requires e in log && e.key == k && HasCode(e.err, code)
    ensures Total(log, CodeOf(k, code)) > 0
  {
    var front := log[..|log| - 1];
    TotalNonNegative(front, CodeOf(k, code));
    if e != log[|log| - 1] {
      Uncounted(front, k, code, e);
    }
  }

  // ----- one entry more -----

  function Fresh(): Stats {
    Stats(0, 0, 0, 0, 0, HDR_MAX, map[], multiset{})
  }

  function Count1(m: map<string, ErrCount>, err: Option<Failure>): map<string, ErrCount> {
    match err
    case None => m
    case Some(x) =>
      var code := Classify(err);
      var agg := if code in m then m[code] else ErrCount(0, x.message);
      m[code := agg.(count := agg.count + 1)]
  }

  function Include(s: Stats, e: Entry): Stats {
    Stats(s.count + 1, s.errors + (if e.err.Some? then 1 else 0), s.bytes + e.bytes, s.latSum + e.latency,
          if e.latency > s.latMax then e.latency else s.latMax,
          if e.latency < s.latMin then e.latency else s.latMin,
          Count1(s.errByCode, e.err), s.hist + multiset{Clamp(e.latency)})
  }

  /** A key that was never recorded has the fresh aggregate. */
  lemma FreshAggregates(log: seq<Entry>, k: Key)
    requires !Seen(log, k)
    ensures Aggregates(Fresh(), log, k)
  {
    TotalZero(log, CountOf(k));
    TotalZero(log, ErrorsOf(k));
    TotalZero(log, BytesOf(k));
    TotalZero(log, LatencyOf(k));
    forall v ensures Total(log, ValueOf(k, v)) == 0 {
      TotalZero(log, ValueOf(k, v));
    }
    forall code ensures Total(log, CodeOf(k, code)) == 0 {
      TotalZero(log, CodeOf(k, code));
    }
  }

  /** Recording an entry of k keeps its aggregate exact. */
  lemma IncludeAggregates(s: Stats, log: seq<Entry>, e: Entry)
    requires Aggregates(s, log, e.key)
    ensures Aggregates(Include(s, e), log + [e], e.key)
  {
    IncludeSums(s, log, e);
    IncludeErrors(s.errByCode, log, e);
    hide AggregatesSums, AggregatesErrors, Count1;
    var log' := log + [e];
    assert e in log' && forall x :: x in log ==> x in log';
  }

  lemma IncludeSums(s: Stats, log: seq<Entry>, e: Entry)
    requires AggregatesSums(s, log, e.key)
    ensures AggregatesSums(Include(s, e), log + [e], e.key)
  {
    var k := e.key;
    TotalPush(log, e, CountOf(k));
    TotalPush(log, e, ErrorsOf(k));
    TotalPush(log, e, BytesOf(k));
    TotalPush(log, e, LatencyOf(k));
    forall v ensures Total(log + [e], ValueOf(k, v)) == Total(log, ValueOf(k, v)) + ValueOf(k, v)(e) {
      TotalPush(log, e, ValueOf(k, v));
    }
    hide Total;
  }

  lemma IncludeErrors(m: map<string, ErrCount>, log: seq<Entry>, e: Entry)
    requires AggregatesErrors(m, log, e.key)
    ensures AggregatesErrors(Count1(m, e.err), log + [e], e.key)
  {
    var k := e.key;
    forall code ensures Total(log + [e], CodeOf(k, code)) == Total(log, CodeOf(k, code)) + CodeOf(k, code)(e) {
      TotalPush(log, e, CodeOf(k, code));
    }
    hide Total;
    assert e in log + [e];
    forall message, code | Recorded(message, log, k, code) ensures Recorded(message, log + [e], k, code) {
      RecordedMore(message, log, [e], k, code);
    }
  }

  lemma RecordedMore(message: string, a: seq<Entry>, b: seq<Entry>, k: Key, code: string)
    ensures Recorded(message, a + b, k, code) <==> Recorded(message, a, k, code) || Recorded(message, b, k, code)
  {
    assert forall e :: e in a + b <==> e in a || e in b;
  }

  // ----- two logs merged -----

  function MergeErrors(a: map<string, ErrCount>, b: map<string, ErrCount>): map<string, ErrCount> {
    map code | code in a.Keys + b.Keys ::
      if code !in a then b[code]
      else a[code].(count := a[code].count + CodeCount(b, code))
  }

  function Merge(a: Stats, b: Stats): Stats {
    Stats(a.count + b.count, a.errors + b.errors, a.bytes + b.bytes, a.latSum + b.latSum,
          if b.latMax > a.latMax then b.latMax else a.latMax,
          if b.latMin < a.latMin then b.latMin else a.latMin,
          MergeErrors(a.errByCode, b.errByCode), a.hist + b.hist)
  }

  /** Merging two aggregates gives the aggregate of the two logs together. */
  lemma MergeAggregates(s: Stats, a: seq<Entry>, t: Stats, b: seq<Entry>, k: Key)
    requires Aggregates(s, a, k) && Aggregates(t, b, k)
    ensures Aggregates(Merge(s, t), a + b, k)
  {
    MergeSums(s, a, t, b, k);
    MergeErrorsAggregates(s.errByCode, a, t.errByCode, b, k);
    hide AggregatesSums, AggregatesErrors, MergeErrors;
    assert forall e :: e in a + b <==> e in a || e in b;
  }

  lemma MergeSums(s: Stats, a: seq<Entry>, t: Stats, b: seq<Entry>, k: Key)
    requires AggregatesSums(s, a, k) && AggregatesSums(t, b, k)
    ensures AggregatesSums(Merge(s, t), a + b, k)
  {
    forall f ensures Total(a + b, f) == Total(a, f) + Total(b, f) {
      TotalConcat(a, b, f);
    }
    hide Total;
  }

  lemma MergeErrorsAggregates(s: map<string, ErrCount>, a: seq<Entry>, t: map<string, ErrCount>, b: seq<Entry>, k: Key)
    requires AggregatesErrors(s, a, k) && AggregatesErrors(t, b, k)
    ensures AggregatesErrors(MergeErrors(s, t), a + b, k)
  {
    forall f ensures Total(a + b, f) == Total(a, f) + Total(b, f) {
      TotalConcat(a, b, f);
    }
    forall message, code
      ensures Recorded(message, a + b, k, code) <==> Recorded(message, a, k, code) || Recorded(message, b, k, code)
    {
      RecordedMore(message, a, b, k, code);
    }
    hide Total, Recorded;
  }

  /** Entries of other keys do not touch the aggregate of k. */
  lemma OthersAggregates(s: Stats, a: seq<Entry>, b: seq<Entry>, k: Key)
    requires Aggregates(s, a, k) && !Seen(b, k)
    ensures Aggregates(s, a + b, k)
  {
    FreshAggregates(b, k);
    MergeAggregates(s, a, Fresh(), b, k);
    assert MergeErrors(s.errByCode, map[]) == s.errByCode;
    hide AggregatesSums, AggregatesErrors, MergeErrors;
  }

  lemma SeenConcat(a: seq<Entry>, b: seq<Entry>, k: Key)
    ensures Seen(a + b, k) <==> Seen(a, k) || Seen(b, k)
  {
    assert forall e :: e in a + b <==> e in a || e in b;
  }

  lemma SeenPush(log: seq<Entry>, e: Entry)
    ensures forall k :: Seen(log + [e], k) <==> Seen(log, k) || k == e.key
    ensures forall k :: Seen([e], k) <==> k == e.key
  {
    assert forall x :: x in log + [e] <==> x in log || x == e;
    assert e in [e] && e in log + [e];
  }

  // ----- the mean -----

  function Mean(s: Stats): int
    requires s.count >= 0
  {
    if s.count == 0 then 0 else Arith.TruncDiv(s.latSum, s.count)
  }

  lemma {:induction false} SumBetween(log: seq<Entry>, k: Key, lo: int, hi: int)
    requires forall e :: e in log && e.key == k ==> lo <= e.latency <= hi
    ensures 0 <= Total(log, CountOf(k))
    ensures lo * Total(log, CountOf(k)) <= Total(log, LatencyOf(k)) <= hi * Total(log, CountOf(k))
  {
    if log != [] {
      var front, e := log[..|log| - 1], log[|log| - 1];
      SumBetween(front, k, lo, hi);
      StepBetween(lo, hi, Total(front, CountOf(k)), Total(front, LatencyOf(k)), CountOf(k)(e), LatencyOf(k)(e));
    }
  }

  lemma StepBetween(lo: int, hi: int, n: int, sum: int, one: int, x: int)
    requires lo * n <= sum <= hi * n
    requires one == 0 == x || (one == 1 && lo <= x <= hi)
    ensures lo * (n + one) <= sum + x <= hi * (n + one)
  {
  }

  lemma TruncDivBetween(a: int, b: int, lo: int, hi: int)
    requires b > 0 && lo * b <= a <= hi * b
    ensures lo <= Arith.TruncDiv(a, b) <= hi
  {
    var q := Arith.TruncDiv(a, b);
    Arith.TruncDivIs(a, b);
    if q < lo {
      Arith.TimesGap(q, lo, b);
    }
    if hi < q {
      Arith.TimesGap(hi, q, b);
    }
  }

  /** The mean lies between any bounds the recorded latencies respect; nothing recorded gives 0. */
  lemma MeanBetween(s: Stats, log: seq<Entry>, k: Key, lo: int, hi: int)
    requires Aggregates(s, log, k) || Reports(s, log, k)
    requires forall e :: e in log && e.key == k ==> lo <= e.latency <= hi
    ensures s.count >= 0
    ensures if Seen(log, k) then lo <= Mean(s) <= hi else Mean(s) == 0
  {
    SumBetween(log, k, lo, hi);
    SeenCounts(log, k);
    if s.count > 0 {
      TruncDivBetween(s.latSum, s.count, lo, hi);
    }
  }

  /** The mean is the sum of the latencies divided by their number, truncated toward zero. */
  lemma MeanIs(s: Stats, log: seq<Entry>, k: Key)
    requires (Aggregates(s, log, k) || Reports(s, log, k)) && Seen(log, k)
    ensures s.count == |Records(log, k)| > 0
    ensures var n, sum := |Records(log, k)|, Total(log, LatencyOf(k));
            if sum >= 0 then Mean(s) * n <= sum < (Mean(s) + 1) * n else (Mean(s) - 1) * n < sum <= Mean(s) * n
  {
    hide Total, AggregatesErrors, IsLatMax, IsLatMin, Arith.TruncDiv;
    TotalIsSize(log, CountOf(k), Records(log, k));
    SeenCounts(log, k);
    Arith.TruncDivIs(s.latSum, s.count);
  }

  lemma {:induction false} SeenCounts(log: seq<Entry>, k: Key)
    ensures Seen(log, k) <==> Total(log, CountOf(k)) > 0
  {
    if log != [] {
      var front, e := log[..|log| - 1], log[|log| - 1];
      assert log == front + [e];
      SeenConcat(front, [e], k);
      SeenCounts(front, k);
      TotalNonNegative(front, CountOf(k));
      assert [e][0] == e;
    }
  }
}
