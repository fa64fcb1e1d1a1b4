/** Workloads that claim object indices from one atomic counter (small objects, LanceDB manifests, metadata copies):
    any number of workers interleave claims, writes and reads over a shared store. */
module ClaimCounter {
  import opened Wrappers
  import opened Lex
  import opened Store
  import Keys
  import opened SafetyCleanup

  /** How a workload prints the key of an index. */
  datatype Scheme =
    | SmallObject(name: string)
    | Manifest(name: string)
    | Fragment(name: string)
    | CopyTarget(name: string)

  function KeyFor(scheme: Scheme, i: int): Key {
    match scheme
    case SmallObject(name) => Keys.Padded(name + "/k-", i, 0)
    case Manifest(name) => Keys.Padded(name + "/_versions/ver-", i, 8) + ".manifest"
    case Fragment(name) => Keys.Padded(name + "/data/frag-", i, 6)
    case CopyTarget(name) => Keys.Padded(name + "/copy/dst-", i, 12)
  }

  /** The texts of the keys: the workload's name, what tells the kind, and the index in decimal. */
  lemma KeyText(scheme: Scheme, i: nat) returns (digits: string)
    ensures match scheme
      case SmallObject(name) => KeyFor(scheme, i) == name + "/k-" + digits && Keys.IsDecimal(digits, i, 0)
      case Manifest(name) =>
        KeyFor(scheme, i) == name + "/_versions/ver-" + digits + ".manifest" && Keys.IsDecimal(digits, i, 8)
      case Fragment(name) => KeyFor(scheme, i) == name + "/data/frag-" + digits && Keys.IsDecimal(digits, i, 6)
      case CopyTarget(name) => KeyFor(scheme, i) == name + "/copy/dst-" + digits && Keys.IsDecimal(digits, i, 12)
  {
    match scheme
    case SmallObject(name) => digits := Keys.PaddedText(name + "/k-", i, 0);
    case Manifest(name) => digits := Keys.PaddedText(name + "/_versions/ver-", i, 8);
    case Fragment(name) => digits := Keys.PaddedText(name + "/data/frag-", i, 6);
    case CopyTarget(name) => digits := Keys.PaddedText(name + "/copy/dst-", i, 12);
  }

  lemma KeyForInjective(scheme: Scheme, i: int, j: int)
    requires KeyFor(scheme, i) == KeyFor(scheme, j)
    ensures i == j
  {
    match scheme
    case SmallObject(name) => Keys.PaddedInjective(name + "/k-", i, j, 0);
    case Manifest(name) =>
      var k, l := Keys.Padded(name + "/_versions/ver-", i, 8), Keys.Padded(name + "/_versions/ver-", j, 8);
      assert k == (k + ".manifest")[..|k|] && l == (l + ".manifest")[..|l|];
      Keys.PaddedInjective(name + "/_versions/ver-", i, j, 8);
    case Fragment(name) => Keys.PaddedInjective(name + "/data/frag-", i, j, 6);
    case CopyTarget(name) => Keys.PaddedInjective(name + "/copy/dst-", i, j, 12);
  }

  /** Where a worker stands between two of its atomic steps. */
  datatype Phase = Idle | Writing(i: nat) | Reading(i: nat)

  /** `count` is the atomic counter; `attempts` records the indices whose write has been carried out, in order,
      and `failed` those among them whose write stored nothing. */
  datatype State = State(count: nat, objects: map<Key, Bytes>, workers: seq<Phase>, attempts: seq<nat>, failed: set<nat>)

  /** One atomic step of one worker, or a change another party makes to an object outside the workload. */
  datatype Step =
    | Claim(w: nat)
    | Write(w: nat, data: Bytes)
    | FailWrite(w: nat)
    | Choose(w: nat, i: nat)
    | Get(w: nat)
    | Foreign(key: Key, change: Option<Bytes>)

  ghost predicate Owns(scheme: Scheme, k: Key) {
    exists i: nat :: KeyFor(scheme, i) == k
  }

  ghost predicate Enabled(scheme: Scheme, s: State, step: Step) {
    match step
    case Claim(w) => w < |s.workers| && s.workers[w].Idle?
    case Write(w, _) => w < |s.workers| && s.workers[w].Writing?
    case FailWrite(w) => w < |s.workers| && s.workers[w].Writing?
    case Choose(w, i) => w < |s.workers| && s.workers[w].Idle? && i < s.count
    case Get(w) => w < |s.workers| && s.workers[w].Reading?
    case Foreign(key, _) => !Owns(scheme, key)
  }

  function Next(scheme: Scheme, s: State, step: Step): State
    requires Enabled(scheme, s, step)
  {
    match step
    case Claim(w) => s.(count := s.count + 1, workers := s.workers[w := Writing(s.count)])
    case Write(w, data) =>
      var i := s.workers[w].i;
      s.(objects := s.objects[KeyFor(scheme, i) := data], workers := s.workers[w := Idle], attempts := s.attempts + [i])
    case FailWrite(w) =>
      var i := s.workers[w].i;
      s.(workers := s.workers[w := Idle], attempts := s.attempts + [i], failed := s.failed + {i})
    case Choose(w, i) => s.(workers := s.workers[w := Reading(i)])
    case Get(w) => s.(workers := s.workers[w := Idle])
    case Foreign(key, Some(data)) => s.(objects := s.objects[key := data])
    case Foreign(key, None) => s.(objects := s.objects - {key})
  }

  ghost predicate Stored(scheme: Scheme, s: State, i: nat) {
    KeyFor(scheme, i) in s.objects
  }

  ghost predicate InFlight(s: State, i: nat) {
    exists w :: 0 <= w < |s.workers| && s.workers[w] == Writing(i)
  }

  ghost predicate OneClaimant(workers: seq<Phase>) {
    forall v, w :: 0 <= v < w < |workers| && workers[v].Writing? && workers[w].Writing? ==> workers[v].i != workers[w].i
  }

  /** Each index below the counter is in exactly one of three places: stored, in flight, or failed. */
  ghost predicate Partition(scheme: Scheme, s: State) {
    && (forall i: nat :: i < s.count <==> Stored(scheme, s, i) || InFlight(s, i) || i in s.failed)
    && (forall i: nat :: Stored(scheme, s, i) ==> !InFlight(s, i) && i !in s.failed)
    && (forall i: nat :: InFlight(s, i) ==> i !in s.failed)
  }

  /** No index is written twice, and one in flight has not been written yet. */
  ghost predicate WrittenOnce(s: State) {
    && Distinct(s.attempts)
    && (forall i :: i in s.attempts ==> i < s.count && !InFlight(s, i))
  }

  ghost predicate Inv(scheme: Scheme, s: State) {
    && OneClaimant(s.workers)
    && Partition(scheme, s)
    && WrittenOnce(s)
    && (forall w :: 0 <= w < |s.workers| && s.workers[w].Reading? ==> s.workers[w].i < s.count)
  }

  lemma SetWorker(s: State, s': State, w: nat)
    requires w < |s.workers| == |s'.workers| && OneClaimant(s.workers) && s'.workers == s.workers[w := s'.workers[w]]
    ensures forall i: nat :: InFlight(s', i) <==> s'.workers[w] == Writing(i) || (InFlight(s, i) && s.workers[w] != Writing(i))
    ensures s.workers[w].Writing? ==> InFlight(s, s.workers[w].i)
  {
    forall i: nat
      ensures InFlight(s', i) <==> s'.workers[w] == Writing(i) || (InFlight(s, i) && s.workers[w] != Writing(i))
    {
      if InFlight(s, i) {
        var v :| 0 <= v < |s.workers| && s.workers[v] == Writing(i);
        assert v == w || s'.workers[v] == Writing(i);
      }
      if s'.workers[w] == Writing(i) {
        assert InFlight(s', i);
      }
      if InFlight(s', i) {
        var v :| 0 <= v < |s'.workers| && s'.workers[v] == Writing(i);
        assert v == w || s.workers[v] == Writing(i);
      }
    }
  }

  lemma ClaimKeepsInv(scheme: Scheme, s: State, w: nat)
    requires Inv(scheme, s) && Enabled(scheme, s, Claim(w))
    ensures Inv(scheme, Next(scheme, s, Claim(w)))
  {
    var s' := Next(scheme, s, Claim(w));
    SetWorker(s, s', w);
    assert forall i: nat :: Stored(scheme, s', i) <==> Stored(scheme, s, i);
    assert forall v :: 0 <= v < |s.workers| && s.workers[v].Writing? ==> InFlight(s, s.workers[v].i);
    assert !InFlight(s, s.count);
  }

  /** A write that stores its object, or one that stores nothing: the index leaves flight for good. */
  lemma WriteKeepsInv(scheme: Scheme, s: State, step: Step)
    requires Inv(scheme, s) && Enabled(scheme, s, step) && (step.Write? || step.FailWrite?)
    ensures Inv(scheme, Next(scheme, s, step))
  {
    var s', i := Next(scheme, s, step), s.workers[step.w].i;
    SetWorker(s, s', step.w);
    assert InFlight(s, i);
    assert forall j: nat :: InFlight(s', j) <==> InFlight(s, j) && j != i;
    WriteStores(scheme, s, step);
    LeavesFlight(s, s', i);
    PartitionKept(scheme, s, s', i, step.Write?);
    hide InFlight, Stored, KeyFor, WrittenOnce, Partition;
  }

  /** Index i moved from flight to the stored or the failed ones. */
  lemma PartitionKept(scheme: Scheme, s: State, s': State, i: nat, stored: bool)
    requires Partition(scheme, s) && InFlight(s, i) && s'.count == s.count
    requires s'.failed == if stored then s.failed else s.failed + {i}
    requires forall j: nat :: InFlight(s', j) <==> InFlight(s, j) && j != i
    requires forall j: nat :: Stored(scheme, s', j) <==> Stored(scheme, s, j) || (stored && i == j)
    ensures Partition(scheme, s')
  {
    hide InFlight, Stored;
  }

  lemma WriteStores(scheme: Scheme, s: State, step: Step)
    requires Enabled(scheme, s, step) && (step.Write? || step.FailWrite?)
    ensures forall j: nat :: Stored(scheme, Next(scheme, s, step), j)
              <==> Stored(scheme, s, j) || (step.Write? && s.workers[step.w].i == j)
  {
    var s', i := Next(scheme, s, step), s.workers[step.w].i;
    forall j: nat ensures Stored(scheme, s', j) <==> Stored(scheme, s, j) || (step.Write? && i == j) {
      if step.Write? && KeyFor(scheme, j) == KeyFor(scheme, i) {
        KeyForInjective(scheme, j, i);
      }
    }
  }

  lemma LeavesFlight(s: State, s': State, i: nat)
    requires WrittenOnce(s) && i < s.count == s'.count && s'.attempts == s.attempts + [i]
    requires InFlight(s, i) && !InFlight(s', i) && forall j: nat :: InFlight(s', j) ==> InFlight(s, j)
    ensures WrittenOnce(s')
  {
    hide InFlight;
    forall j | j in s'.attempts ensures j < s'.count && !InFlight(s', j) {
      assert j in s.attempts || j == i;
    }
    assert forall j :: 0 <= j < |s.attempts| ==> s.attempts[j] in s.attempts;
  }

  lemma ReadKeepsInv(scheme: Scheme, s: State, step: Step)
    requires Inv(scheme, s) && Enabled(scheme, s, step) && (step.Choose? || step.Get?)
    ensures Inv(scheme, Next(scheme, s, step))
  {
    var s' := Next(scheme, s, step);
    SetWorker(s, s', step.w);
    assert forall i: nat :: InFlight(s', i) <==> InFlight(s, i);
    assert forall i: nat :: Stored(scheme, s', i) <==> Stored(scheme, s, i);
  }

  lemma ForeignKeepsInv(scheme: Scheme, s: State, step: Step)
    requires Inv(scheme, s) && Enabled(scheme, s, step) && step.Foreign?
    ensures Inv(scheme, Next(scheme, s, step))
  {
    var s' := Next(scheme, s, step);
    assert forall i: nat :: InFlight(s', i) <==> InFlight(s, i);
    forall i: nat ensures Stored(scheme, s', i) <==> Stored(scheme, s, i) {
      assert KeyFor(scheme, i) != step.key;
    }
  }

  ghost predicate ValidRun(scheme: Scheme, s: State, steps: seq<Step>)
    decreases |steps|
  {
    steps != [] ==> Enabled(scheme, s, steps[0]) && ValidRun(scheme, Next(scheme, s, steps[0]), steps[1..])
  }

  ghost function Run(scheme: Scheme, s: State, steps: seq<Step>): State
    requires ValidRun(scheme, s, steps)
    decreases |steps|
  {
    if steps == [] then s else Run(scheme, Next(scheme, s, steps[0]), steps[1..])
  }

  /** In every interleaving of any number of workers, every reachable state satisfies the invariant. */
  lemma {:induction false} RunKeepsInv(scheme: Scheme, s: State, steps: seq<Step>)
    requires Inv(scheme, s) && ValidRun(scheme, s, steps)
    ensures Inv(scheme, Run(scheme, s, steps))
    ensures Run(scheme, s, steps).count >= s.count && |Run(scheme, s, steps).workers| == |s.workers|
    decreases |steps|
  {
    if steps != [] {
      match steps[0] {
        case Claim(w) => ClaimKeepsInv(scheme, s, w);
        case Write(_, _) => WriteKeepsInv(scheme, s, steps[0]);
        case FailWrite(_) => WriteKeepsInv(scheme, s, steps[0]);
        case Choose(_, _) => ReadKeepsInv(scheme, s, steps[0]);
        case Get(_) => ReadKeepsInv(scheme, s, steps[0]);
        case Foreign(_, _) => ForeignKeepsInv(scheme, s, steps[0]);
      }
      RunKeepsInv(scheme, Next(scheme, s, steps[0]), steps[1..]);
    }
  }

  /** After Prepopulate: the first n indices are stored, nothing else of the workload is, and every worker is idle. */
  ghost predicate Start(scheme: Scheme, s: State, n: nat) {
    && s.count == n && s.attempts == [] && s.failed == {}
    && (forall w :: 0 <= w < |s.workers| ==> s.workers[w].Idle?)
    && (forall i: nat :: Stored(scheme, s, i) <==> i < n)
  }

  lemma StartInv(scheme: Scheme, s: State, n: nat)
    requires Start(scheme, s, n)
    ensures Inv(scheme, s)
  {
    assert forall i: nat :: !InFlight(s, i);
  }

  /** A read of a chosen index misses exactly when that index's write is still in flight or has failed. */
  lemma ReadMisses(scheme: Scheme, s: State, steps: seq<Step>, n: nat, w: nat)
    requires Start(scheme, s, n) && ValidRun(scheme, s, steps)
    requires Enabled(scheme, Run(scheme, s, steps), Get(w))
    ensures var t := Run(scheme, s, steps);
            var i := t.workers[w].i;
            KeyFor(scheme, i) !in t.objects <==> InFlight(t, i) || i in t.failed
  {
    StartInv(scheme, s, n);
    RunKeepsInv(scheme, s, steps);
    assert Stored(scheme, Run(scheme, s, steps), Run(scheme, s, steps).workers[w].i)
      <==> KeyFor(scheme, Run(scheme, s, steps).workers[w].i) in Run(scheme, s, steps).objects;
  }

  ghost predicate Joined(s: State) {
    forall w :: 0 <= w < |s.workers| ==> s.workers[w].Idle?
  }

  /** Once the workers have joined, every claimed index is stored or failed, and nothing unclaimed is stored:
      the counter alone tells Cleanup which keys there can be. */
  lemma JoinedState(scheme: Scheme, s: State, steps: seq<Step>, n: nat)
    requires Start(scheme, s, n) && ValidRun(scheme, s, steps) && Joined(Run(scheme, s, steps))
    ensures var t := Run(scheme, s, steps);
            forall i: nat :: KeyFor(scheme, i) in t.objects <==> i < t.count && i !in t.failed
  {
    StartInv(scheme, s, n);
    RunKeepsInv(scheme, s, steps);
    var t := Run(scheme, s, steps);
    assert forall i: nat :: !InFlight(t, i);
    assert forall i: nat :: Stored(scheme, t, i) <==> KeyFor(scheme, i) in t.objects;
  }

  /** No foreign step names k. */
  ghost predicate Untouched(steps: seq<Step>, k: Key) {
    forall j :: 0 <= j < |steps| && steps[j].Foreign? ==> steps[j].key != k
  }

  /** The workload's own steps leave every object that is not one of its own alone. */
  lemma {:induction false} RunKeepsOthers(scheme: Scheme, s: State, steps: seq<Step>, k: Key)
    requires ValidRun(scheme, s, steps) && !Owns(scheme, k) && Untouched(steps, k)
    ensures SameAt(s.objects, Run(scheme, s, steps).objects, k)
    decreases |steps|
  {
    if steps != [] {
      assert steps[0].Write? ==> Owns(scheme, KeyFor(scheme, s.workers[steps[0].w].i));
      RunKeepsOthers(scheme, Next(scheme, s, steps[0]), steps[1..], k);
    }
  }

  // ----- one worker's write among the steps of all the others -----

  /** The step is not worker w's. */
  predicate NotBy(step: Step, w: nat) {
    step.Foreign? || step.w != w
  }

  lemma {:induction false} OthersKeepPhase(scheme: Scheme, s: State, steps: seq<Step>, w: nat)
    requires ValidRun(scheme, s, steps) && w < |s.workers|
    requires forall j :: 0 <= j < |steps| ==> NotBy(steps[j], w)
    ensures var t := Run(scheme, s, steps); |t.workers| == |s.workers| && t.workers[w] == s.workers[w]
    ensures Run(scheme, s, steps).count >= s.count
    decreases |steps|
  {
    if steps != [] {
      OthersKeepPhase(scheme, Next(scheme, s, steps[0]), steps[1..], w);
    }
  }

  lemma {:induction false} RunTake(scheme: Scheme, s: State, steps: seq<Step>, n: nat)
    requires ValidRun(scheme, s, steps) && n < |steps|
    ensures ValidRun(scheme, s, steps[..n]) && Enabled(scheme, Run(scheme, s, steps[..n]), steps[n])
    ensures ValidRun(scheme, s, steps[..n + 1])
    ensures Run(scheme, s, steps[..n + 1]) == Next(scheme, Run(scheme, s, steps[..n]), steps[n])
    decreases n
  {
    if n == 0 {
      assert steps[..1][1..] == [];
    } else {
      assert steps[1..][..n - 1] == steps[..n][1..] && steps[1..][..n] == steps[..n + 1][1..];
      RunTake(scheme, Next(scheme, s, steps[0]), steps[1..], n - 1);
    }
  }

  /** Which runs are possible depends on the counter and the workers, not on what is stored. */
  lemma {:induction false} RunShape(scheme: Scheme, s: State, s': State, steps: seq<Step>)
    requires s'.count == s.count && s'.workers == s.workers && ValidRun(scheme, s, steps)
    ensures ValidRun(scheme, s', steps)
    ensures Run(scheme, s', steps).count == Run(scheme, s, steps).count
    ensures Run(scheme, s', steps).workers == Run(scheme, s, steps).workers
    decreases |steps|
  {
    if steps != [] {
      RunShape(scheme, Next(scheme, s, steps[0]), Next(scheme, s', steps[0]), steps[1..]);
    }
  }

  /** The state a run starts in: n indices prepopulated, that many workers, all idle. */
  function Initial(n: nat, objects: map<Key, Bytes>, workers: nat): (s: State)
    ensures |s.workers| == workers && forall w :: 0 <= w < workers ==> s.workers[w].Idle?
  {
    State(n, objects, seq(workers, _ => Idle), [], {})
  }

  /** A run of that many workers, after n indices were prepopulated, to its join; what is stored does not matter for this. */
  ghost predicate RunsToJoin(scheme: Scheme, n: nat, workers: nat, steps: seq<Step>) {
    var s := Initial(n, map[], workers);
    ValidRun(scheme, s, steps) && Joined(Run(scheme, s, steps))
  }

  /** The others' steps happen on the shared store and counter, and leave some faults armed. */
  method OthersAct(c: Client, scheme: Scheme, s: State, steps: seq<Step>, fail: map<Op, Error>) returns (claims: int)
    requires ValidRun(scheme, s, steps) && s.objects == c.objects
    modifies c
    ensures c.objects == Run(scheme, s, steps).objects && c.fail == fail
    ensures s.count + claims == Run(scheme, s, steps).count
  {
    var t := s;
    for j := 0 to |steps|
      invariant ValidRun(scheme, s, steps[..j]) && t == Run(scheme, s, steps[..j])
    {
      RunTake(scheme, s, steps, j);
      t := Next(scheme, t, steps[j]);
    }
    assert steps[..|steps|] == steps;
    c.objects, c.fail := t.objects, fail;
    claims := t.count - s.count;
  }

  // ----- cleanup -----

  /** The keys of the indices below the counter. */
  function ClaimedKeys(scheme: Scheme, count: nat): (keys: seq<Key>)
    ensures |keys| == count && forall i :: 0 <= i < count ==> keys[i] == KeyFor(scheme, i)
  {
    seq(count, i => KeyFor(scheme, i))
  }

  lemma ClaimedAreOwned(scheme: Scheme, count: nat)
    ensures forall k :: k in ClaimedKeys(scheme, count) ==> Owns(scheme, k)
    ensures forall i: nat :: KeyFor(scheme, i) in ClaimedKeys(scheme, count) <==> i < count
  {
    forall i: nat | KeyFor(scheme, i) in ClaimedKeys(scheme, count) ensures i < count {
      var j :| 0 <= j < count && ClaimedKeys(scheme, count)[j] == KeyFor(scheme, i);
      KeyForInjective(scheme, i, j);
    }
    forall i: nat | i < count ensures KeyFor(scheme, i) in ClaimedKeys(scheme, count) {
      assert ClaimedKeys(scheme, count)[i] == KeyFor(scheme, i);
    }
  }

  /** The deletes of these keys so far: one after another, each on the bucket it found, none of them stopping the loop. */
  ghost predicate SweepSoFar(b: Bucket, keys: seq<Key>, others: Schedule, first: nat, calls: seq<Call>) {
    AreDeletes(keys, calls) && Happened(b, others, first, calls) && AllPassedOver(calls)
  }

  predicate AreDeletes(keys: seq<Key>, calls: seq<Call>) {
    |calls| <= |keys| && forall i :: 0 <= i < |calls| ==> calls[i].DeleteCall? && calls[i].key == keys[i]
  }

  /** A cleanup loop over these keys: it deletes them in order, passes over every delete that draws NotFound, stops at the
      first that draws any other fault and reports that fault, and otherwise reaches the end. */
  ghost predicate IsSweep(b: Bucket, keys: seq<Key>, others: Schedule, first: nat, calls: seq<Call>, err: Option<Error>) {
    && AreDeletes(keys, calls) && Happened(b, others, first, calls) && StopsWith(calls, err)
    && (err.None? ==> |calls| == |keys|)
  }

  lemma SweepStart(b: Bucket, keys: seq<Key>, others: Schedule, first: nat)
    ensures SweepSoFar(b, keys, others, first, [])
  {
  }

  lemma SweepStep(b: Bucket, keys: seq<Key>, others: Schedule, first: nat, calls: seq<Call>, call: Call)
    requires SweepSoFar(b, keys, others, first, calls) && |calls| < |keys|
    requires call == DeleteCall(keys[|calls|], AfterAll(End(b, calls), Batch(others, first + |calls|)))
    ensures PassedOver(call) ==> SweepSoFar(b, keys, others, first, calls + [call])
    ensures !PassedOver(call) ==> IsSweep(b, keys, others, first, calls + [call], FaultOf(call))
    ensures End(b, calls + [call]) == AfterCall(call)
  {
    hide Happened, AfterAll, Batch, End, AllPassedOver, StopsWith, FaultOf;
    SafetyCleanup.HappenedSnoc(b, others, first, calls, call);
    SafetyCleanup.StopsOne(call);
    SafetyCleanup.AllPassed(calls + [call]);
    SafetyCleanup.StopsConcat(calls, [call], if PassedOver(call) then None else FaultOf(call));
  }

  lemma SweepEnd(b: Bucket, keys: seq<Key>, others: Schedule, first: nat, calls: seq<Call>)
    ensures IsSweep(b, keys, others, first, calls, None) <==> SweepSoFar(b, keys, others, first, calls) && |calls| == |keys|
  {
    SafetyCleanup.AllPassed(calls);
  }

  /** Two loops, one after the other, are one loop over all their keys, whether or not the first is cut short. */
  lemma SweepsConcat(b: Bucket, keys: seq<Key>, keys': seq<Key>, others: Schedule, first: nat, calls: seq<Call>, calls': seq<Call>,
                     err: Option<Error>)
    ensures err.Some? && IsSweep(b, keys, others, first, calls, err) ==> IsSweep(b, keys + keys', others, first, calls, err)
    ensures IsSweep(b, keys, others, first, calls, None) && IsSweep(End(b, calls), keys', others, first + |calls|, calls', err) ==>
              IsSweep(b, keys + keys', others, first, calls + calls', err) && End(b, calls + calls') == End(End(b, calls), calls')
  {
    hide Happened, End, AllPassedOver, StopsWith;
    if IsSweep(b, keys, others, first, calls, None) && IsSweep(End(b, calls), keys', others, first + |calls|, calls', err) {
      SafetyCleanup.HappenedConcat(b, others, first, calls, calls');
      SafetyCleanup.AllPassed(calls);
      SafetyCleanup.StopsConcat(calls, calls', err);
    }
  }

  lemma SweepLength(b: Bucket, keys: seq<Key>, others: Schedule, first: nat, calls: seq<Call>)
    requires IsSweep(b, keys, others, first, calls, None)
    ensures |calls| == |keys|
  {
  }

  /** Every fault a call can draw: those armed at the start and those others arm meanwhile. */
  function Armable(b: Bucket, others: Schedule): set<(Op, Error)> {
    Faults(b.fail) + ScheduleEffects(others).arms
  }

  /** Nothing changed but these keys and what others changed. */
  ghost predicate OnlyThese(o: map<Key, Bytes>, o': map<Key, Bytes>, keys: seq<Key>, e: Effects) {
    && (forall k :: k !in keys && k !in e.touches ==> SameAt(o, o', k))
    && (forall k :: k in o' && k !in e.writes ==> k in o)
  }

  /** From b to b': nothing changed but the keys given and what others changed; without an error or a false NotFound the keys
      are gone, unless others wrote them meanwhile; a reported error is an armed one. */
  ghost predicate Swept(b: Bucket, b': Bucket, keys: seq<Key>, others: Schedule, err: Option<Error>) {
    var e := ScheduleEffects(others);
    && OnlyThese(b.objects, b'.objects, keys, e)
    && (err.None? && (DeleteOp, NotFound) !in Armable(b, others) ==> forall k :: k in keys && k in b'.objects ==> k in e.writes)
    && (err.Some? ==> (DeleteOp, err.value) in Armable(b, others) && err.value != NotFound)
  }

  /** What the first n deletes of a sweep did. */
  ghost predicate SweptSoFar(b: Bucket, now: Bucket, keys: seq<Key>, n: nat, e: Effects, armed: set<(Op, Error)>)
    requires n <= |keys|
  {
    && FaultsFrom(now.fail, armed) && OnlyThese(b.objects, now.objects, keys, e)
    && ((DeleteOp, NotFound) !in armed ==> forall j :: 0 <= j < n && keys[j] in now.objects ==> keys[j] in e.writes)
  }

  lemma SweptStep(b: Bucket, now: Bucket, keys: seq<Key>, n: nat, others: Schedule, m: nat, armed: set<(Op, Error)>, call: Call)
    requires n < |keys| && ScheduleEffects(others).arms <= armed
    requires SweptSoFar(b, now, keys, n, ScheduleEffects(others), armed)
    requires call == DeleteCall(keys[n], AfterAll(now, Batch(others, m)))
    ensures FaultOf(call).Some? ==> (DeleteOp, FaultOf(call).value) in armed
    ensures OnlyThese(b.objects, AfterCall(call).objects, keys, ScheduleEffects(others))
    ensures PassedOver(call) ==> SweptSoFar(b, AfterCall(call), keys, n + 1, ScheduleEffects(others), armed)
  {
    hide AfterAll, ScheduleEffects, Batch;
    BatchWithin(others, m);
    OthersFrame(now, Batch(others, m), ScheduleEffects(others), armed);
  }

  lemma {:induction false} SweptPrefix(b: Bucket, keys: seq<Key>, others: Schedule, first: nat, calls: seq<Call>, n: nat)
    requires AreDeletes(keys, calls) && Happened(b, others, first, calls) && n <= |calls| && AllPassedOver(calls[..n])
    ensures SweptSoFar(b, End(b, calls[..n]), keys, n, ScheduleEffects(others), Armable(b, others))
  {
    hide AfterAll, ScheduleEffects, Batch, AfterCall, PassedOver;
    if n > 0 {
      assert calls[..n - 1] == calls[..n][..n - 1] && calls[..n][n - 1] == calls[n - 1];
      SweptPrefix(b, keys, others, first, calls, n - 1);
      assert SafetyCleanup.CallAt(b, others, first, calls, n - 1);
      SweptStep(b, End(b, calls[..n - 1]), keys, n - 1, others, first + n - 1, Armable(b, others), calls[n - 1]);
    }
  }

  /** A cleanup loop clears its keys and touches nothing else. */
  lemma Sweeps(b: Bucket, keys: seq<Key>, others: Schedule, first: nat, calls: seq<Call>, err: Option<Error>)
    requires IsSweep(b, keys, others, first, calls, err)
    ensures Swept(b, End(b, calls), keys, others, err)
  {
    hide AfterAll, ScheduleEffects, Batch, AfterCall, FaultOf, Armable, OnlyThese, AllPassedOver;
    var n := |calls|;
    assert calls[..n] == calls;
    if err.None? {
      SafetyCleanup.AllPassed(calls);
      SweptPrefix(b, keys, others, first, calls, n);
    } else {
      SweptPrefix(b, keys, others, first, calls, n - 1);
      assert SafetyCleanup.CallAt(b, others, first, calls, n - 1);
      ArmsArmable(b, others);
      SweptStep(b, End(b, calls[..n - 1]), keys, n - 1, others, first + n - 1, Armable(b, others), calls[n - 1]);
    }
  }

  lemma WritesTouch(others: Schedule)
    ensures ScheduleEffects(others).writes <= ScheduleEffects(others).touches
  {
  }

  lemma ArmsArmable(b: Bucket, others: Schedule)
    ensures ScheduleEffects(others).arms <= Armable(b, others)
  {
  }

  /** One delete of a Cleanup loop, after the others have acted. */
  method DeleteKey(c: Client, k: Key, others: Schedule, n: nat) returns (err: Option<Error>, ghost call: Call)
    modifies c
    ensures call == DeleteCall(k, AfterAll(old(c.View()), Batch(others, n)))
    ensures c.View() == AfterCall(call) && err == FaultOf(call)
  {
    hide AfterAll, Batch;
    Perform(c, Batch(others, n));
    call := DeleteCall(k, c.View());
    err := c.Delete(k);
  }

  /** The Cleanup loop over a remembered list of keys. */
  method DeleteKeys(c: Client, keys: seq<Key>, others: Schedule, first: nat) returns (err: Option<Error>, ghost calls: seq<Call>)
    modifies c
    ensures IsSweep(old(c.View()), keys, others, first, calls, err) && c.View() == End(old(c.View()), calls)
  {
    hide AfterAll, Batch, SweepSoFar, IsSweep, AfterCall, FaultOf;
    err, calls := None, [];
    ghost var b := c.View();
    SweepStart(b, keys, others, first);
    for i := 0 to |keys|
      invariant SweepSoFar(b, keys, others, first, calls) && |calls| == i && c.View() == End(b, calls)
    {
      var derr;
      ghost var call;
      derr, call := DeleteKey(c, keys[i], others, first + i);
      SweepStep(b, keys, others, first, calls, call);
      calls := calls + [call];
      if derr.Some? && derr.value != NotFound {
        return derr, calls;
      }
    }
    SweepEnd(b, keys, others, first, calls);
  }

  /** The Cleanup loop over the counter's indices. */
  method DeleteClaimed(c: Client, scheme: Scheme, count: nat, others: Schedule, first: nat)
    returns (err: Option<Error>, ghost calls: seq<Call>)
    modifies c
    ensures IsSweep(old(c.View()), ClaimedKeys(scheme, count), others, first, calls, err) && c.View() == End(old(c.View()), calls)
  {
    hide AfterAll, Batch, SweepSoFar, IsSweep, AfterCall, FaultOf, KeyFor;
    err, calls := None, [];
    ghost var b, keys := c.View(), ClaimedKeys(scheme, count);
    SweepStart(b, keys, others, first);
    for i := 0 to count
      invariant SweepSoFar(b, keys, others, first, calls) && |calls| == i && c.View() == End(b, calls)
    {
      var derr;
      ghost var call;
      derr, call := DeleteKey(c, KeyFor(scheme, i), others, first + i);
      SweepStep(b, keys, others, first, calls, call);
      calls := calls + [call];
      if derr.Some? && derr.value != NotFound {
        return derr, calls;
      }
    }
    SweepEnd(b, keys, others, first, calls);
  }

  /** No key of this kind is left but what others wrote. */
  ghost predicate NoneLeft(o: map<Key, Bytes>, scheme: Scheme, e: Effects) {
    forall i: nat :: KeyFor(scheme, i) in o ==> KeyFor(scheme, i) in e.writes
  }

  /** A run from Prepopulate to join, then Cleanup: without an error or a false NotFound no key of the workload is left,
      failed writes included, and everything else is as the run left it. */
  method CleanupAfterJoin(c: Client, scheme: Scheme, ghost s: State, ghost steps: seq<Step>, ghost n: nat, count: nat, others: Schedule)
    returns (err: Option<Error>, ghost calls: seq<Call>)
    requires Start(scheme, s, n) && ValidRun(scheme, s, steps) && Joined(Run(scheme, s, steps))
    requires c.objects == Run(scheme, s, steps).objects && count == Run(scheme, s, steps).count
    modifies c
    ensures IsSweep(old(c.View()), ClaimedKeys(scheme, count), others, 0, calls, err) && c.View() == End(old(c.View()), calls)
    ensures err.None? && (DeleteOp, NotFound) !in Armable(old(c.View()), others) ==> NoneLeft(c.objects, scheme, ScheduleEffects(others))
    ensures err.Some? ==> (DeleteOp, err.value) in Armable(old(c.View()), others) && err.value != NotFound
    ensures forall k :: !Owns(scheme, k) && k !in ScheduleEffects(others).touches ==> SameAt(old(c.objects), c.objects, k)
  {
    hide IsSweep;
    JoinedState(scheme, s, steps, n);
    hide Run, ValidRun, KeyFor, ScheduleEffects, Armable;
    err, calls := DeleteClaimed(c, scheme, count, others, 0);
    Sweeps(old(c.View()), ClaimedKeys(scheme, count), others, 0, calls, err);
    ClaimedAreOwned(scheme, count);
    if err.None? && (DeleteOp, NotFound) !in Armable(old(c.View()), others) {
      NoneLeftAfter(old(c.View()), c.View(), scheme, count, ClaimedKeys(scheme, count), others);
    }
  }

  /** The claimed keys were swept and no others of this kind were stored. */
  lemma NoneLeftAfter(b: Bucket, b': Bucket, scheme: Scheme, count: nat, keys: seq<Key>, others: Schedule)
    requires Swept(b, b', keys, others, None) && (DeleteOp, NotFound) !in Armable(b, others)
    requires forall i: nat :: KeyFor(scheme, i) in b.objects ==> i < count
    requires forall i: nat :: KeyFor(scheme, i) in keys <==> i < count
    ensures NoneLeft(b'.objects, scheme, ScheduleEffects(others))
  {
    hide ScheduleEffects, Armable;
    forall i: nat | KeyFor(scheme, i) in b'.objects ensures KeyFor(scheme, i) in ScheduleEffects(others).writes {
    }
  }

  // ----- the key spaces of one workload name do not meet -----

  function Stem(scheme: Scheme): (s: string)
    ensures |s| > 1
  {
    match scheme
    case SmallObject(_) => "/k-"
    case Manifest(_) => "/_versions/ver-"
    case Fragment(_) => "/data/frag-"
    case CopyTarget(_) => "/copy/dst-"
  }

  lemma KeyHasStem(scheme: Scheme, i: int)
    ensures var k := KeyFor(scheme, i);
            |scheme.name| + 1 < |k| && k[|scheme.name| + 1] == Stem(scheme)[1]
  {
    var p := scheme.name + Stem(scheme);
    var k := KeyFor(scheme, i);
    assert p <= k;
    assert k[|scheme.name| + 1] == p[|scheme.name| + 1] == Stem(scheme)[1];
  }

  /** Keys of different kinds never coincide, so no kind of write can disturb another. */
  lemma SchemesDisjoint(a: Scheme, b: Scheme, i: int, j: int)
    requires a.name == b.name && a != b
    ensures KeyFor(a, i) != KeyFor(b, j)
  {
    hide KeyFor, Stem;
    KeyHasStem(a, i);
    KeyHasStem(b, j);
    StemsDiffer(a, b);
  }

  lemma StemsDiffer(a: Scheme, b: Scheme)
    requires a.name == b.name && a != b
    ensures Stem(a)[1] != Stem(b)[1]
  {
  }

  /** A fragment uploaded by Prepopulate is there for every HEAD and range read of the run. */
  lemma FragmentsStay(name: string, s: State, steps: seq<Step>, i: nat)
    requires ValidRun(Manifest(name), s, steps) && Untouched(steps, KeyFor(Fragment(name), i))
    requires KeyFor(Fragment(name), i) in s.objects
    ensures KeyFor(Fragment(name), i) in Run(Manifest(name), s, steps).objects
  {
    forall j: nat ensures KeyFor(Manifest(name), j) != KeyFor(Fragment(name), i) {
      SchemesDisjoint(Manifest(name), Fragment(name), j, i);
    }
    RunKeepsOthers(Manifest(name), s, steps, KeyFor(Fragment(name), i));
  }
}
