/** The sharded metrics collector: records go to per-worker shards, Snapshot and Totals merge them.
    Aggregates, their per-code counters and their histograms are heap objects, as in the source. */
module Metrics {
  import opened Wrappers
  import opened MetricsLog
  import opened MetricsCuts
  import Lex

  /** The counter of one error code. */
  class ErrAgg {
    var count: int
    var sample: string

    constructor (sample: string)
      ensures View() == ErrCount(0, sample)
    {
      this.count, this.sample := 0, sample;
    }

    function View(): ErrCount
      reads this
    {
      ErrCount(count, sample)
    }
  }

  /** The HDR histogram, as the multiset of the values recorded in it. */
  class Hist {
    var values: multiset<int>

    constructor ()
      ensures values == multiset{}
    {
      values := multiset{};
    }

    method RecordValue(v: int)
      modifies this
      ensures values == old(values) + multiset{v}
    {
      values := values + multiset{v};
    }

    method Merge(from: Hist)
      modifies this
      ensures values == old(values) + old(from.values)
    {
      values := values + from.values;
    }
  }

  class OpStats {
    var count: int
    var errors: int
    var bytes: int
    var latSum: int
    var latMax: int
    var latMin: int
    var errByCode: map<string, ErrAgg>
    const hist: Hist

    constructor ()
      ensures Valid() && View() == Fresh() && fresh(Repr())
    {
      count, errors, bytes, latSum := 0, 0, 0, 0;
      latMax, latMin := 0, HDR_MAX;
      errByCode := map[];
      hist := new Hist();
    }

    /** The objects an aggregate consists of. */
    ghost function Repr(): (r: set<object>)
      reads this`errByCode
      ensures this in r && hist in r
    {
      {this, hist} + errByCode.Values
    }

    lemma InRepr()
      ensures this in Repr()
    {
    }

    /** Shows a minimum still at its sentinel as 0. */
    method Normalise()
      modifies this`latMin
      ensures Repr() == old(Repr()) && Valid() == old(Valid())
      ensures View() == old(View()).(latMin := ShownMin(old(View()).latMin))
    {
      if latMin == HDR_MAX {
        latMin := 0;
      }
    }

    lemma ReprExists()
      ensures forall o :: o in Repr() ==> allocated(o)
    {
    }

    /** Every code has a counter of its own. */
    ghost predicate Valid()
      reads this`errByCode
    {
      forall c, d :: c in errByCode && d in errByCode && c != d ==> errByCode[c] != errByCode[d]
    }

    ghost function Codes(): map<string, ErrCount>
      reads this`errByCode, errByCode.Values
    {
      map c | c in errByCode :: errByCode[c].View()
    }

    ghost function View(): Stats
      reads Repr()
    {
      Stats(count, errors, bytes, latSum, latMax, latMin, Codes(), hist.values)
    }

    /** The counter of a code, created with this sample when the code is new. */
    method CodeFor(code: string, sample: string) returns (agg: ErrAgg)
      requires Valid()
      modifies this`errByCode
      ensures Valid() && errByCode == old(errByCode)[code := agg]
      ensures if code in old(errByCode) then agg == old(errByCode)[code] else fresh(agg) && agg.View() == ErrCount(0, sample)
    {
      if code !in errByCode {
        agg := new ErrAgg(sample);
        errByCode := errByCode[code := agg];
      }
      agg := errByCode[code];
    }

    /** Counts a failure under its code; the first message under a code is kept as its sample. */
    method CountFailure(err: Option<Failure>)
      requires Valid()
      modifies this`errByCode, errByCode.Values
      ensures Valid() && fresh(errByCode.Values - old(errByCode.Values))
      ensures Codes() == Count1(old(Codes()), err)
    {
      if err.Some? {
        var code := Classify(err);
        var agg := CodeFor(code, err.value.message);
        agg.count := agg.count + 1;
      }
    }

    /** The plain counters and extremes. */
    function Sums(): Stats
      reads this
    {
      Stats(count, errors, bytes, latSum, latMax, latMin, map[], multiset{})
    }

    method AddSums(e: Entry)
      modifies this`count, this`errors, this`bytes, this`latSum, this`latMax, this`latMin
      ensures Sums() == Include(old(Sums()), e).(errByCode := map[], hist := multiset{})
    {
      count := count + 1;
      bytes := bytes + e.bytes;
      latSum := latSum + e.latency;
      if e.latency > latMax {
        latMax := e.latency;
      }
      if e.latency < latMin {
        latMin := e.latency;
      }
      if e.err.Some? {
        errors := errors + 1;
      }
    }

    method MergeSums(src: OpStats)
      requires src != this
      modifies this`count, this`errors, this`bytes, this`latSum, this`latMax, this`latMin
      ensures Sums() == Merge(old(Sums()), src.Sums()).(errByCode := map[], hist := multiset{})
    {
      count := count + src.count;
      errors := errors + src.errors;
      bytes := bytes + src.bytes;
      latSum := latSum + src.latSum;
      if src.latMax > latMax {
        latMax := src.latMax;
      }
      if src.latMin < latMin {
        latMin := src.latMin;
      }
    }

    /** The updates made for one operation. */
    method Add(e: Entry)
      requires Valid()
      modifies Repr()
      ensures Valid() && fresh(Repr() - old(Repr()))
      ensures View() == Include(old(View()), e)
    {
      hide Count1, Clamp, Codes;
      AddSums(e);
      hist.RecordValue(Clamp(e.latency));
      CountFailure(e.err);
    }

    /** Adds one code's count; a new code gets a counter of this aggregate's own. */
    method MergeCode(code: string, from: ErrAgg)
      requires Valid() && from !in errByCode.Values
      modifies this`errByCode, errByCode.Values
      ensures Valid() && fresh(errByCode.Values - old(errByCode.Values))
      ensures Codes() == AddCode(old(Codes()), code, from.View())
    {
      ghost var before, x := Codes(), from.View();
      var agg := CodeFor(code, from.sample);
      agg.count := agg.count + from.count;
      forall c | c in errByCode ensures errByCode[c].View() == AddCode(before, code, x)[c] {
      }
    }

    /** Merges the per-code counters of src, visiting its codes in any order. */
    method MergeCodes(src: OpStats)
      requires Valid() && src.Valid() && Repr() !! src.Repr()
      modifies this`errByCode, errByCode.Values
      ensures Valid() && fresh(errByCode.Values - old(errByCode.Values))
      ensures Codes() == MergeErrors(old(Codes()), src.Codes())
    {
      hide MergeErrors, AddCode;
      ghost var before, added := Codes(), src.Codes();
      var todo := src.errByCode.Keys;
      assert added.Keys == todo;
      MergeErrorsStart(before, added);
      while todo != {}
        invariant todo <= src.errByCode.Keys
        invariant Valid() && fresh(errByCode.Values - old(errByCode.Values))
        invariant src.Codes() == added
        invariant Codes() == MergeErrors(before, added - todo)
        decreases todo
      {
        var code :| code in todo;
        MergeErrorsStep(before, added, todo, code);
        MergeCode(code, src.errByCode[code]);
        todo := todo - {code};
      }
      assert added - {} == added;
    }

    /** Merges src into this aggregate. */
    method MergeFrom(src: OpStats)
      requires Valid() && src.Valid() && Repr() !! src.Repr()
      modifies Repr()
      ensures Valid() && fresh(Repr() - old(Repr()))
      ensures View() == Merge(old(View()), src.View())
    {
      hide MergeErrors, CodeCount, Codes;
      MergeSums(src);
      hist.Merge(src.hist);
      MergeCodes(src);
    }
  }

  function AddCode(m: map<string, ErrCount>, code: string, x: ErrCount): map<string, ErrCount> {
    m[code := if code in m then m[code].(count := m[code].count + x.count) else x]
  }

  lemma MergeErrorsStart(a: map<string, ErrCount>, b: map<string, ErrCount>)
    ensures MergeErrors(a, b - b.Keys) == a
  {
  }

  lemma MergeErrorsStep(a: map<string, ErrCount>, b: map<string, ErrCount>, todo: set<string>, code: string)
    requires code in todo && todo <= b.Keys
    ensures MergeErrors(a, b - (todo - {code})) == AddCode(MergeErrors(a, b - todo), code, b[code])
  {
  }

  /** The nested map from workload and op to aggregate, of a shard or of a snapshot. */
  class Table {
    var stats: map<Key, OpStats>
    ghost var Repr: set<object>

    constructor ()
      ensures Valid() && fresh(Repr) && stats == map[]
    {
      stats := map[];
      Repr := {this};
    }

    /** No two aggregates share an object, and no two codes of one share a counter. */
    ghost predicate Valid()
      reads this, Repr
      ensures Valid() ==> this in Repr
    {
      && this in Repr
      && (forall k :: k in stats ==> Owns(k))
      && (forall j, k :: j in stats && k in stats && j != k ==> stats[j].Repr() !! stats[k].Repr())
    }

    ghost predicate Owns(k: Key)
      requires k in stats
      reads this, Repr
    {
      stats[k] in Repr && stats[k].Repr() <= Repr && this !in stats[k].Repr() && stats[k].Valid()
    }

    /** The aggregate of a key; one without records is fresh. */
    ghost function At(k: Key): Stats
      requires Valid()
      reads this, Repr
    {
      if k in stats then ViewAt(k) else Fresh()
    }

    ghost function ViewAt(k: Key): Stats
      requires k in stats && Owns(k)
      reads this, Repr
    {
      stats[k].View()
    }

    /** The table holds the log: for exactly the keys seen, each the aggregate of its entries. */
    ghost predicate Holds(log: seq<Entry>)
      requires Valid()
      reads this, Repr
    {
      forall k :: HoldsKey(log, k)
    }

    ghost predicate HoldsKey(log: seq<Entry>, k: Key)
      requires Valid()
      reads this, Repr
    {
      (k in stats <==> Seen(log, k)) && Aggregates(At(k), log, k)
    }

    /** A fresh aggregate for a key. */
    method Create(k: Key)
      requires Valid() && k !in stats
      modifies this
      ensures this in Repr && old(Repr) <= Repr && stats.Keys == old(stats).Keys + {k}
      ensures Owns(k) && ViewAt(k) == Fresh() && fresh(stats[k].Repr()) && Repr == old(Repr) + stats[k].Repr()
      ensures forall j :: j in old(stats) ==>
                stats[j] == old(stats[j]) && Owns(j) && ViewAt(j) == old(ViewAt(j)) && stats[j].Repr() !! stats[k].Repr()
    {
      hide OpStats.View, OpStats.Codes, OpStats.Repr, OpStats.Valid, Fresh;
      var created := new OpStats();
      stats := stats[k := created];
      Repr := Repr + created.Repr();
      forall j | j in old(stats) ensures Owns(j) && ViewAt(j) == old(ViewAt(j)) && stats[j].Repr() !! created.Repr() {
        assert old(Owns(j));
      }
      assert Owns(k);
    }

    /** The aggregate of a key, created on first use. */
    method StatsFor(k: Key) returns (st: OpStats)
      requires Valid()
      modifies this
      ensures Valid() && fresh(Repr - old(Repr)) && old(Repr) <= Repr
      ensures k in stats && stats[k] == st && stats.Keys == old(stats).Keys + {k}
      ensures forall j :: At(j) == old(At(j))
    {
      hide ViewAt, Owns, OpStats.View, OpStats.Codes, OpStats.Repr, OpStats.Valid, Fresh;
      if k !in stats {
        Create(k);
      }
      st := stats[k];
    }

    /** Records into the aggregate of a key; the others are left alone. */
    method AddAt(k: Key, e: Entry)
      requires Valid() && k in stats
      modifies Repr
      ensures Valid() && old(Repr) <= Repr && fresh(Repr - old(Repr)) && stats == old(stats)
      ensures At(k) == Include(old(At(k)), e)
      ensures forall j :: j != k ==> At(j) == old(At(j))
    {
      hide Include, Fresh, OpStats.View, OpStats.Codes, OpStats.Repr, OpStats.Valid;
      var st := stats[k];
      assert Owns(k);
      st.Add(e);
      Repr := Repr + st.Repr();
      forall j | j in stats && j != k ensures stats[j].Repr() == old(stats[j].Repr()) && stats[j].Repr() !! st.Repr() {
        assert old(Owns(j) && stats[j].Repr() !! st.Repr());
      }
      forall j | j in stats && j != k ensures Owns(j) && ViewAt(j) == old(ViewAt(j)) {
        assert old(Owns(j) && stats[j].Repr() !! st.Repr());
      }
      assert Owns(k);
      hide Owns, ViewAt;
    }

    /** Merges an aggregate from elsewhere into that of a key; the others are left alone. */
    method MergeAt(k: Key, src: OpStats)
      requires Valid() && k in stats && src.Valid() && src.Repr() !! Repr
      modifies Repr
      ensures Valid() && old(Repr) <= Repr && fresh(Repr - old(Repr)) && stats == old(stats)
      ensures At(k) == MetricsLog.Merge(old(At(k)), old(src.View()))
      ensures forall j :: j != k ==> At(j) == old(At(j))
    {
      hide MetricsLog.Merge, Fresh, OpStats.View, OpStats.Codes, OpStats.Repr, OpStats.Valid;
      var st := stats[k];
      assert Owns(k);
      src.ReprExists();
      st.MergeFrom(src);
      Repr := Repr + st.Repr();
      forall j | j in stats && j != k ensures stats[j].Repr() == old(stats[j].Repr()) && stats[j].Repr() !! st.Repr() {
        assert old(Owns(j) && stats[j].Repr() !! st.Repr());
      }
      forall j | j in stats && j != k ensures Owns(j) && ViewAt(j) == old(ViewAt(j)) {
        assert old(Owns(j) && stats[j].Repr() !! st.Repr());
      }
      assert Owns(k);
      hide Owns, ViewAt;
    }

    /** One operation: the table holds one more entry. */
    method Record(e: Entry, ghost log: seq<Entry>)
      requires Valid() && Holds(log)
      modifies Repr
      ensures Valid() && old(Repr) <= Repr && fresh(Repr - old(Repr))
      ensures Holds(log + [e])
    {
      hide Valid, At, Aggregates, Seen, Include;
      assert HoldsKey(log, e.key);
      IncludeAggregates(At(e.key), log, e);
      SeenPush(log, e);
      var st := StatsFor(e.key);
      AddAt(e.key, e);
      forall k ensures HoldsKey(log + [e], k) {
        assert old(HoldsKey(log, k));
        if k != e.key {
          OthersAggregates(At(k), log, [e], k);
        }
      }
    }

    /** Merges one key of another table. */
    method MergeKey(from: Table, k: Key, ghost log: seq<Entry>, ghost more: seq<Entry>)
      requires Valid() && from.Valid() && from.Repr !! Repr
      requires k in from.stats && HoldsKey(log, k) && from.HoldsKey(more, k)
      modifies Repr
      ensures Valid() && old(Repr) <= Repr && fresh(Repr - old(Repr))
      ensures HoldsKey(log + more, k) && stats.Keys == old(stats).Keys + {k}
      ensures forall j :: j != k ==> At(j) == old(At(j))
    {
      hide At, Aggregates, Seen, MetricsLog.Merge, OpStats.View, OpStats.Codes, OpStats.Repr, OpStats.Valid;
      var src := from.stats[k];
      from.OwnedBy(k);
      MergeAggregates(At(k), log, src.View(), more, k);
      SeenConcat(log, more, k);
      var st := StatsFor(k);
      MergeAt(k, src);
    }

    /** As Holds, each minimum as it is shown. */
    ghost predicate Shows(log: seq<Entry>)
      requires Valid()
      reads this, Repr
    {
      forall k :: ShowsKey(log, k)
    }

    ghost predicate ShowsKey(log: seq<Entry>, k: Key)
      requires Valid()
      reads this, Repr
    {
      (k in stats <==> Seen(log, k)) && (k in stats ==> Reports(At(k), log, k))
    }

    /** So the histogram shown for a key holds what was recorded for it. */
    lemma ShownHistogram(log: seq<Entry>, k: Key, v: int)
      requires Valid() && Shows(log) && k in stats
      ensures 1 < v < 3_600_000_000_000 ==> At(k).hist[v] == |RecordsAt(log, k, v)|
      ensures At(k).hist[1] == |RecordsUpTo(log, k, 1)|
      ensures At(k).hist[3_600_000_000_000] == |RecordsFrom(log, k, 3_600_000_000_000)|
      ensures v < 1 || v > 3_600_000_000_000 ==> At(k).hist[v] == 0
    {
      hide Reports, At, Seen, Valid;
      assert ShowsKey(log, k);
      HistogramHolds(At(k), log, k, v);
    }

    method NormaliseAt(k: Key)
      requires Valid() && k in stats
      modifies Repr
      ensures Valid() && Repr == old(Repr) && stats == old(stats)
      ensures At(k) == old(At(k)).(latMin := ShownMin(old(At(k)).latMin))
      ensures forall j :: j != k ==> At(j) == old(At(j))
    {
      hide Fresh, ShownMin, OpStats.View, OpStats.Codes, OpStats.Repr, OpStats.Valid;
      var st := stats[k];
      assert Owns(k);
      st.InRepr();
      st.Normalise();
      forall j | j in stats && j != k ensures Owns(j) && ViewAt(j) == old(ViewAt(j)) {
        assert old(Owns(j) && stats[j].Repr() !! st.Repr());
      }
      assert Owns(k);
    }

    /** Shows every minimum still at its sentinel as 0. */
    method NormaliseMins(ghost log: seq<Entry>)
      requires Valid() && Holds(log)
      modifies Repr
      ensures Valid() && Repr == old(Repr) && Shows(log)
    {
      hide Valid, At, Aggregates, Reports, Seen;
      var todo := stats.Keys;
      forall k ensures (k in stats <==> Seen(log, k)) && Aggregates(At(k), log, k) {
        assert HoldsKey(log, k);
      }
      while todo != {}
        invariant todo <= stats.Keys && Valid() && Repr == old(Repr)
        invariant forall k :: k in stats <==> Seen(log, k)
        invariant forall k :: k in todo ==> Aggregates(At(k), log, k)
        invariant forall k :: k in stats && k !in todo ==> Reports(At(k), log, k)
        decreases todo
      {
        var k :| k in todo;
        NormalisedReports(At(k), log, k);
        label Before:
        NormaliseAt(k);
        assert forall j :: j != k ==> At(j) == old@Before(At(j));
        todo := todo - {k};
      }
      forall k ensures ShowsKey(log, k) {
      }
    }

    lemma HoldsNothing()
      requires Valid() && stats == map[]
      ensures Holds([])
    {
      forall k ensures HoldsKey([], k) {
        FreshAggregates([], k);
      }
    }

    lemma OwnedBy(k: Key)
      requires Valid() && k in stats
      ensures stats[k].Valid() && stats[k].Repr() <= Repr && At(k) == stats[k].View()
      ensures forall o :: o in stats[k].Repr() ==> allocated(o)
    {
      assert Owns(k);
    }

    /** Merges a whole table, visiting its keys in any order. */
    method MergeAll(from: Table, ghost log: seq<Entry>, ghost more: seq<Entry>)
      requires Valid() && from.Valid() && from.Repr !! Repr
      requires Holds(log) && from.Holds(more)
      modifies Repr
      ensures Valid() && old(Repr) <= Repr && fresh(Repr - old(Repr))
      ensures Holds(log + more)
    {
      hide Valid, At, Aggregates, Seen;
      var todo := from.stats.Keys;
      forall k | k !in todo ensures HoldsKey(log + more, k) {
        assert HoldsKey(log, k) && from.HoldsKey(more, k);
        SeenConcat(log, more, k);
        OthersAggregates(At(k), log, more, k);
      }
      while todo != {}
        invariant todo <= from.stats.Keys
        invariant Valid() && old(Repr) <= Repr && fresh(Repr - old(Repr))
        invariant from.Valid() && from.Repr == old(from.Repr) && from.Repr !! Repr && from.Holds(more)
        invariant from.stats == old(from.stats)
        invariant forall k :: k in todo ==> HoldsKey(log, k)
        invariant forall k :: k !in todo ==> HoldsKey(log + more, k)
        decreases todo
      {
        var k :| k in todo;
        assert HoldsKey(log, k) && from.HoldsKey(more, k);
        label Before:
        MergeKey(from, k, log, more);
        forall j | j != k ensures j in todo ==> HoldsKey(log, j) {
          assert j in todo ==> old@Before(HoldsKey(log, j));
        }
        forall j | j != k ensures j !in todo ==> HoldsKey(log + more, j) {
          assert j !in todo ==> old@Before(HoldsKey(log + more, j));
        }
        todo := todo - {k};
      }
    }
  }

  /** The state of one worker, or of the fallback. */
  class Shard {
    const table: Table
    ghost var log: seq<Entry>
    ghost var Repr: set<object>

    ghost predicate Valid()
      reads this, Repr
      ensures Valid() ==> this in Repr
    {
      && this in Repr && table in Repr && table.Repr <= Repr && this !in table.Repr
      && table.Valid() && table.Holds(log)
    }

    constructor ()
      ensures Valid() && fresh(Repr) && log == []
    {
      table := new Table();
      log := [];
      new;
      Repr := {this} + table.Repr;
      table.HoldsNothing();
    }

    method Record(e: Entry)
      requires Valid()
      modifies Repr
      ensures Valid() && fresh(Repr - old(Repr))
      ensures log == old(log) + [e]
    {
      hide Table.Holds;
      table.Record(e, log);
      Repr := Repr + table.Repr;
      log := log + [e];
    }
  }

  /** The elements of a set in some order. */
  method Enumerate(ts: set<Target>) returns (order: seq<Target>)
    ensures Lex.Distinct(order) && forall t :: t in order <==> t in ts
  {
    order := [];
    var todo := ts;
    while todo != {}
      invariant todo <= ts
      invariant Lex.Distinct(order) && forall t :: t in order <==> t in ts - todo
      decreases todo
    {
      var t :| t in todo;
      assert t !in order;
      order := order + [t];
      todo := todo - {t};
    }
  }

  /** What a worker may do: obtain its recorder, or record through the fallback or its recorder. */
  datatype Event = Join(id: int) | Log(record: Record)

  lemma KnownPush(log: seq<Record>, targets: set<Target>, r: Record)
    requires Known(log, targets) && r.target in targets
    ensures Known(log + [r], targets)
  {
  }

  lemma RoutedPushAll(log: seq<Record>, t: Target, e: Entry)
    ensures forall u :: Routed(log + [Record(t, e)], u) == Routed(log, u) + if t == u then [e] else []
  {
    forall u ensures Routed(log + [Record(t, e)], u) == Routed(log, u) + if t == u then [e] else [] {
      RoutedPush(log, Record(t, e), u);
    }
  }

  lemma KnownMore(log: seq<Record>, targets: set<Target>, more: set<Target>)
    requires Known(log, targets) && targets <= more
    ensures Known(log, more)
  {
  }

  lemma TakenNothing(log: seq<Record>)
    ensures Taken(log, [], []) == []
  {
  }

  lemma TotalNothing(log: seq<Record>)
    ensures forall f :: Total(Taken(log, [], []), f) == 0
  {
  }

  class Collector {
    /** The fallback shard, always there, and the shards of the workers that asked for one. */
    var shards: map<Target, Shard>
    ghost var log: seq<Record>
    ghost var Repr: set<object>

    ghost predicate Valid()
      reads this, Repr
      ensures Valid() ==> this in Repr
    {
      && Separate()
      && (forall t :: t in shards ==> shards[t].log == Routed(log, t))
      && (forall t :: t !in shards ==> Routed(log, t) == [])
      && Known(log, shards.Keys)
    }

    /** The shards are sound and share nothing. */
    ghost predicate Separate()
      reads this, Repr
      ensures Separate() ==> this in Repr
    {
      && this in Repr
      && Fallback in shards
      && (forall t :: t in shards ==> shards[t] in Repr && shards[t].Repr <= Repr && this !in shards[t].Repr)
      && (forall t :: t in shards ==> shards[t].Valid())
      && (forall t, u :: t in shards && u in shards && t != u ==> shards[t].Repr !! shards[u].Repr)
    }

    constructor ()
      ensures Valid() && fresh(Repr) && log == []
    {
      var fallback := new Shard();
      shards := map[Fallback := fallback];
      log := [];
      Repr := {this} + fallback.Repr;
    }

    /** A record through the recorder of shard t. */
    method RecordAt(t: Target, e: Entry)
      requires Valid() && t in shards
      modifies Repr
      ensures Valid() && fresh(Repr - old(Repr))
      ensures log == old(log) + [Record(t, e)] && shards == old(shards)
    {
      hide Known, Routed, Shard.Valid, Separate;
      KnownPush(log, shards.Keys, Record(t, e));
      RoutedPushAll(log, t, e);
      RecordInShard(t, e);
      SetLog(log + [Record(t, e)]);
    }

    /** The shard takes the record; the others are not touched. */
    method RecordInShard(t: Target, e: Entry)
      requires Separate() && t in shards
      modifies Repr
      ensures Separate() && fresh(Repr - old(Repr))
      ensures log == old(log) && shards == old(shards)
      ensures forall u :: u in shards ==> shards[u].log == old(shards[u].log) + if u == t then [e] else []
    {
      hide Shard.Valid;
      var s := shards[t];
      s.Record(e);
      Repr := Repr + s.Repr;
    }

    ghost method SetLog(log': seq<Record>)
      requires Separate()
      modifies this`log
      ensures Separate() && log == log'
      ensures forall u :: u in shards ==> shards[u].log == old(shards[u].log)
    {
      hide Shard.Valid;
      log := log';
    }

    lemma HasFallback()
      requires Valid()
      ensures Fallback in shards
    {
    }

    lemma ShardOf(t: Target)
      requires Valid() && t in shards
      ensures shards[t].Valid() && shards[t].Repr <= Repr && shards[t].log == Routed(log, t)
      ensures var s := shards[t]; s.table.Valid() && s.table.Holds(s.log) && s.table.Repr <= Repr
      ensures forall o :: o in shards[t].Repr ==> allocated(o)
    {
    }

    lemma KnownTargets()
      requires Valid()
      ensures Known(log, shards.Keys)
    {
    }

    /** The canonical shard of a worker, created on the first request. */
    method ShardFor(id: int) returns (s: Shard)
      requires Valid()
      modifies this
      ensures Valid() && fresh(Repr - old(Repr)) && log == old(log)
      ensures shards == old(shards)[Worker(id) := s]
      ensures if Worker(id) in old(shards) then s == old(shards)[Worker(id)] else fresh(s) && s.log == []
    {
      hide Known, Routed, Shard.Valid;
      KnownMore(log, shards.Keys, shards.Keys + {Worker(id)});
      if Worker(id) in shards {
        s := shards[Worker(id)];
      } else {
        s := new Shard();
        ghost var known := shards.Keys + {Worker(id)};
        shards := shards[Worker(id) := s];
        assert shards.Keys == known;
        Repr := Repr + s.Repr;
      }
    }

    method Perform(ev: Event)
      requires Valid()
      modifies Repr
      ensures Valid() && fresh(Repr - old(Repr))
      ensures log == old(log) + (if ev.Log? then [ev.record] else [])
      ensures old(shards).Keys <= shards.Keys
    {
      hide Separate, Known, Routed;
      HasFallback();
      match ev
      case Join(id) =>
        var _ := ShardFor(id);
      case Log(Record(Fallback, e)) =>
        RecordAt(Fallback, e);
      case Log(Record(Worker(id), e)) =>
        var _ := ShardFor(id);
        RecordAt(Worker(id), e);
    }

    /** Other workers' steps, in the order they happen. */
    method PerformAll(events: seq<Event>)
      requires Valid()
      modifies Repr
      ensures Valid() && fresh(Repr - old(Repr))
      ensures log == old(log) + Logged(events)
      ensures old(shards).Keys <= shards.Keys
    {
      hide Valid;
      for i := 0 to |events|
        invariant Valid() && fresh(Repr - old(Repr))
        invariant log == old(log) + Logged(events[..i])
        invariant old(shards).Keys <= shards.Keys
      {
        Perform(events[i]);
        assert events[..i + 1][..i] == events[..i];
      }
      assert events[..|events|] == events;
    }

    /** Merges the shards one after another; other workers perform schedule[i] before shard i is merged. */
    method Snapshot(schedule: seq<seq<Event>>)
      returns (snap: Table, ghost order: seq<Target>, ghost cuts: seq<nat>)
      requires Valid()
      modifies Repr
      ensures Valid() && fresh(Repr - old(Repr))
      ensures log == old(log) + Logged(Batches(schedule, |order|))
      ensures IsReading(old(log), log, old(shards).Keys, order, cuts)
      ensures Spans(old(log), log, Taken(log, order, cuts))
      ensures snap.Valid() && snap.Shows(Taken(log, order, cuts))
      ensures fresh(snap.Repr) && snap.Repr !! Repr
    {
      hide Logged, Batches, Batch, Known, Spans, Lex.Distinct, Valid, Table.Valid, Table.Holds, Table.Shows, Taken, Routed;
      KnownTargets();
      NothingYet(schedule);
      var all := Enumerate(shards.Keys);
      snap := new Table();
      snap.HoldsNothing();
      order, cuts := [], [];
      TakenNothing(log);
      for i := 0 to |all|
        invariant Valid() && fresh(Repr - old(Repr))
        invariant old(log) <= log && old(shards).Keys <= shards.Keys
        invariant log == old(log) + Logged(Batches(schedule, i))
        invariant order == all[..i] && |cuts| == i
        invariant forall j :: 0 <= j < i ==> |old(log)| <= cuts[j] <= |log|
        invariant snap.Valid() && snap.Holds(Taken(log, order, cuts))
        invariant fresh(snap.Repr) && snap.Repr !! Repr
      {
        ghost var before, taken := log, Taken(log, order, cuts);
        PerformAll(Batch(schedule, i));
        LoggedNext(schedule, i);
        TakenStable(before, log, order, cuts);
        var s := shards[all[i]];
        ShardOf(all[i]);
        snap.MergeAll(s.table, taken, s.log);
        TakenPush(log, order, cuts, all[i], |log|);
        assert log[..|log|] == log;
        order, cuts := order + [all[i]], cuts + [|log|];
      }
      assert all[..|all|] == all;
      ReadingSpans(old(log), log, old(shards).Keys, order, cuts);
      snap.NormaliseMins(Taken(log, order, cuts));
    }

    /** Adds up the counters of the shards one after another, with interference as for Snapshot. */
    method Totals(schedule: seq<seq<Event>>)
      returns (count: int, errors: int, bytes: int, ghost order: seq<Target>, ghost cuts: seq<nat>)
      requires Valid()
      modifies Repr
      ensures Valid() && fresh(Repr - old(Repr)) && old(shards).Keys <= shards.Keys
      ensures log == old(log) + Logged(Batches(schedule, |order|))
      ensures IsReading(old(log), log, old(shards).Keys, order, cuts)
      ensures Spans(old(log), log, Taken(log, order, cuts))
      ensures count == Total(Taken(log, order, cuts), One())
      ensures errors == Total(Taken(log, order, cuts), Failed())
      ensures bytes == Total(Taken(log, order, cuts), Moved())
    {
      hide Logged, Batches, Batch, Known, Spans, Lex.Distinct, Valid, Total, Taken, Routed;
      KnownTargets();
      NothingYet(schedule);
      var all := Enumerate(shards.Keys);
      count, errors, bytes, order, cuts := 0, 0, 0, [], [];
      TotalNothing(log);
      for i := 0 to |all|
        invariant Valid() && fresh(Repr - old(Repr))
        invariant old(log) <= log && old(shards).Keys <= shards.Keys
        invariant log == old(log) + Logged(Batches(schedule, i))
        invariant order == all[..i] && |cuts| == i
        invariant forall j :: 0 <= j < i ==> |old(log)| <= cuts[j] <= |log|
        invariant count == Total(Taken(log, order, cuts), One())
        invariant errors == Total(Taken(log, order, cuts), Failed())
        invariant bytes == Total(Taken(log, order, cuts), Moved())
      {
        ghost var before, taken := log, Taken(log, order, cuts);
        PerformAll(Batch(schedule, i));
        LoggedNext(schedule, i);
        TakenStable(before, log, order, cuts);
        var s := shards[all[i]];
        ShardOf(all[i]);
        var c, e, b := SumShard(s);
        count, errors, bytes := count + c, errors + e, bytes + b;
        TakenPush(log, order, cuts, all[i], |log|);
        assert log[..|log|] == log;
        TotalConcat(taken, s.log, One());
        TotalConcat(taken, s.log, Failed());
        TotalConcat(taken, s.log, Moved());
        order, cuts := order + [all[i]], cuts + [|log|];
      }
      assert all[..|all|] == all;
      ReadingSpans(old(log), log, old(shards).Keys, order, cuts);
    }
  }

  function Logged(events: seq<Event>): seq<Record> {
    if events == [] then []
    else
      var last := events[|events| - 1];
      Logged(events[..|events| - 1]) + if last.Log? then [last.record] else []
  }

  /** What others do just before shard i is read; past the end of the schedule they do nothing more. */
  function Batch(schedule: seq<seq<Event>>, i: nat): seq<Event> {
    if i < |schedule| then schedule[i] else []
  }

  function Batches(schedule: seq<seq<Event>>, n: nat): seq<Event> {
    if n == 0 then [] else Batches(schedule, n - 1) + Batch(schedule, n - 1)
  }

  lemma {:induction false} LoggedConcat(a: seq<Event>, b: seq<Event>)
    ensures Logged(a + b) == Logged(a) + Logged(b)
  {
    if b == [] {
      assert a + b == a;
    } else {
      assert (a + b)[..|a + b| - 1] == a + b[..|b| - 1];
      LoggedConcat(a, b[..|b| - 1]);
    }
  }

  lemma {:induction false} NoBatches(n: nat)
    ensures Logged(Batches([], n)) == []
  {
    if n > 0 {
      NoBatches(n - 1);
      LoggedConcat(Batches([], n - 1), []);
    }
  }

  lemma LoggedNext(schedule: seq<seq<Event>>, i: nat)
    ensures Logged(Batches(schedule, i + 1)) == Logged(Batches(schedule, i)) + Logged(Batch(schedule, i))
  {
    LoggedConcat(Batches(schedule, i), Batch(schedule, i));
  }

  lemma NothingYet(schedule: seq<seq<Event>>)
    ensures Logged(Batches(schedule, 0)) == []
  {
  }

  lemma NormalisedReports(s: Stats, log: seq<Entry>, k: Key)
    requires Aggregates(s, log, k)
    ensures Reports(s.(latMin := ShownMin(s.latMin)), log, k)
  {
    ShownMinIs(s.latMin, log, k);
  }

  function InKeys(keys: set<Key>, f: Entry -> int): Entry -> int {
    (e: Entry) => if e.key in keys then f(e) else 0
  }

  lemma InKeysNone(log: seq<Entry>, f: Entry -> int)
    ensures Total(log, InKeys({}, f)) == 0
  {
    TotalZero(log, InKeys({}, f));
  }

  lemma InKeysAdd(log: seq<Entry>, keys: set<Key>, k: Key, f: Entry -> int, g: Entry -> int)
    requires k !in keys && forall e: Entry :: g(e) == if e.key == k then f(e) else 0
    ensures Total(log, InKeys(keys + {k}, f)) == Total(log, InKeys(keys, f)) + Total(log, g)
  {
    TotalAdd(log, InKeys(keys, f), g, InKeys(keys + {k}, f));
  }

  lemma InKeysAll(log: seq<Entry>, keys: set<Key>, f: Entry -> int)
    requires forall e :: e in log ==> e.key in keys
    ensures Total(log, InKeys(keys, f)) == Total(log, f)
  {
    TotalSame(log, InKeys(keys, f), f);
  }

  /** What the keys visited so far contribute to the counters. */
  ghost predicate CountersOf(count: int, errors: int, bytes: int, log: seq<Entry>, keys: set<Key>) {
    && count == Total(log, InKeys(keys, One()))
    && errors == Total(log, InKeys(keys, Failed()))
    && bytes == Total(log, InKeys(keys, Moved()))
  }

  lemma CountersAdd(count: int, errors: int, bytes: int, log: seq<Entry>, keys: set<Key>, k: Key, s: Stats)
    requires CountersOf(count, errors, bytes, log, keys) && k !in keys && Aggregates(s, log, k)
    ensures CountersOf(count + s.count, errors + s.errors, bytes + s.bytes, log, keys + {k})
  {
    hide Total;
    InKeysAdd(log, keys, k, One(), CountOf(k));
    InKeysAdd(log, keys, k, Failed(), ErrorsOf(k));
    InKeysAdd(log, keys, k, Moved(), BytesOf(k));
  }

  lemma CountersAll(count: int, errors: int, bytes: int, log: seq<Entry>, keys: set<Key>)
    requires CountersOf(count, errors, bytes, log, keys) && forall k :: Seen(log, k) ==> k in keys
    ensures count == Total(log, One()) && errors == Total(log, Failed()) && bytes == Total(log, Moved())
  {
    forall e | e in log ensures e.key in keys {
      assert Seen(log, e.key);
    }
    InKeysAll(log, keys, One());
    InKeysAll(log, keys, Failed());
    InKeysAll(log, keys, Moved());
  }

  /** The counters of one shard, its keys visited in any order. */
  method SumShard(s: Shard) returns (count: int, errors: int, bytes: int)
    requires s.Valid()
    ensures count == Total(s.log, One())
    ensures errors == Total(s.log, Failed())
    ensures bytes == Total(s.log, Moved())
  {
    hide Total, Aggregates, Seen;
    count, errors, bytes := 0, 0, 0;
    InKeysNone(s.log, One());
    InKeysNone(s.log, Failed());
    InKeysNone(s.log, Moved());
    var todo := s.table.stats.Keys;
    ghost var done: set<Key> := {};
    while todo != {}
      invariant todo + done == s.table.stats.Keys && todo !! done
      invariant CountersOf(count, errors, bytes, s.log, done)
      decreases todo
    {
      hide CountersOf;
      var k :| k in todo;
      assert s.table.HoldsKey(s.log, k);
      s.table.OwnedBy(k);
      var st := s.table.stats[k];
      CountersAdd(count, errors, bytes, s.log, done, k, st.View());
      count := count + st.count;
      errors := errors + st.errors;
      bytes := bytes + st.bytes;
      todo, done := todo - {k}, done + {k};
    }
    forall k ensures Seen(s.log, k) ==> k in done {
      assert s.table.HoldsKey(s.log, k);
    }
    CountersAll(count, errors, bytes, s.log, done);
  }

  /** A Snapshot that no writer interferes with reports the one log of everything recorded. */
  method FinalSnapshot(c: Collector) returns (snap: Table)
    requires c.Valid()
    modifies c.Repr
    ensures c.Valid() && c.log == old(c.log)
    ensures snap.Valid() && snap.Shows(Entries(c.log))
  {
    hide Reports, Seen, Spans, Logged, Batches, Collector.Valid, Table.Valid, Table.At, Entries, Lex.Distinct;
    ghost var order, cuts;
    snap, order, cuts := c.Snapshot([]);
    NoBatches(|order|);
    assert c.log == old(c.log);
    ghost var taken := Taken(c.log, order, cuts);
    QuietSpans(c.log, taken);
    forall k ensures snap.ShowsKey(Entries(c.log), k) {
      assert snap.ShowsKey(taken, k);
      SeenPermuted(taken, Entries(c.log), k);
      if k in snap.stats {
        ReportsPermuted(snap.At(k), taken, Entries(c.log), k);
      }
    }
  }

  lemma SeenPermuted(a: seq<Entry>, b: seq<Entry>, k: Key)
    requires multiset(a) == multiset(b)
    ensures Seen(a, k) <==> Seen(b, k)
  {
    SameMembers(a, b);
  }

  /** Successive Totals never go back in Count or Errors, whatever the workers do meanwhile: the first are the totals of a
      reading that ends when the log is `mid`, the second those of a reading begun after the events between. */
  method SuccessiveTotals(c: Collector, during: seq<seq<Event>>, between: seq<Event>, later: seq<seq<Event>>)
    returns (count: int, errors: int, count': int, errors': int, ghost mid: seq<Record>, ghost taken: seq<Entry>, ghost taken': seq<Entry>)
    requires c.Valid()
    modifies c.Repr
    ensures c.Valid()
    ensures Spans(old(c.log), mid, taken) && Spans(mid + Logged(between), c.log, taken')
    ensures count == Total(taken, One()) && errors == Total(taken, Failed())
    ensures count' == Total(taken', One()) && errors' == Total(taken', Failed())
    ensures count <= count' && errors <= errors'
  {
    hide Spans, Collector.Valid, Logged, Batches, Total, Taken;
    ghost var order, cuts, order', cuts';
    var bytes, bytes';
    count, errors, bytes, order, cuts := c.Totals(during);
    mid, taken := c.log, Taken(c.log, order, cuts);
    c.KnownTargets();
    c.PerformAll(between);
    count', errors', bytes', order', cuts' := c.Totals(later);
    taken' := Taken(c.log, order', cuts');
    ReadingsGrow(mid, order, cuts, c.log, order', cuts', One());
    ReadingsGrow(mid, order, cuts, c.log, order', cuts', Failed());
  }

  /** A returned Snapshot is never changed by what is recorded later: after any later events its objects still
      report what was taken when the collector's log was `end`. */
  method SnapshotStays(c: Collector, during: seq<seq<Event>>, later: seq<Event>)
    returns (snap: Table, ghost end: seq<Record>, ghost taken: seq<Entry>)
    requires c.Valid()
    modifies c.Repr
    ensures c.Valid() && old(c.log) <= end && c.log == end + Logged(later)
    ensures Spans(old(c.log), end, taken)
    ensures snap.Valid() && snap.Shows(taken)
  {
    hide Spans, Collector.Valid, Table.Valid, Table.Shows, Logged, Batches, Lex.Distinct;
    ghost var order, cuts;
    snap, order, cuts := c.Snapshot(during);
    end, taken := c.log, Taken(c.log, order, cuts);
    c.PerformAll(later);
  }
}
