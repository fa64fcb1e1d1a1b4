/** The objects behind the claim-counter protocol: the small-object workload and the LanceDB workload,
    with the fields their methods update. */
module Counters {
  import opened Wrappers
  import opened Lex
  import opened Store
  import opened SafetyCleanup
  import opened ClaimCounter

  /** Exactly the indices below n of this kind are stored. */
  ghost predicate Holds(o: map<Key, Bytes>, scheme: Scheme, n: nat) {
    forall i: nat :: KeyFor(scheme, i) in o <==> i < n
  }

  lemma HoldsNext(o: map<Key, Bytes>, scheme: Scheme, n: nat, data: Bytes)
    requires Holds(o, scheme, n)
    ensures Holds(o[KeyFor(scheme, n) := data], scheme, n + 1)
  {
    forall i: nat ensures KeyFor(scheme, i) in o[KeyFor(scheme, n) := data] <==> i < n + 1 {
      if KeyFor(scheme, i) == KeyFor(scheme, n) {
        KeyForInjective(scheme, i, n);
      }
    }
  }

  lemma HoldsOther(o: map<Key, Bytes>, scheme: Scheme, n: nat, other: Scheme, m: nat, data: Bytes)
    requires Holds(o, scheme, n) && scheme != other && scheme.name == other.name
    ensures Holds(o[KeyFor(other, m) := data], scheme, n)
  {
    forall i: nat ensures KeyFor(scheme, i) in o[KeyFor(other, m) := data] <==> i < n {
      SchemesDisjoint(scheme, other, i, m);
    }
  }

  predicate NoFault(fail: map<Op, Error>) {
    PutOp !in fail && MultipartOp !in fail
  }

  class SmallObject {
    const scheme: Scheme
    var writtenCount: nat

    constructor (name: string)
      ensures scheme == Scheme.SmallObject(name) && writtenCount == 0
    {
      scheme := Scheme.SmallObject(name);
      writtenCount := 0;
    }

    /** Writes index 0, and counts it only when it was stored: either way the counter says what is stored. */
    method Prepopulate(c: Client, body: Body, size: int) returns (err: Option<Error>)
      requires writtenCount == 0 && Holds(c.objects, scheme, 0)
      modifies this, c
      ensures Holds(c.objects, scheme, writtenCount)
      ensures err == WriteStep(old(c.View()), PutOp, KeyFor(scheme, 0), body, size).1
      ensures err.None? ==> writtenCount == 1 && c.objects == old(c.objects)[KeyFor(scheme, 0) := body.data]
      ensures err.Some? ==> writtenCount == 0 && c.objects == old(c.objects)
    {
      err := c.Put(KeyFor(scheme, 0), body, size);
      if err.Some? {
        return;
      }
      HoldsNext(old(c.objects), scheme, 0, body.data);
      writtenCount := 1;
    }

    /** One write of worker w is the protocol's Claim and, after whatever the others do meanwhile, its Write or FailWrite. */
    method WriteNext(c: Client, body: Body, size: int, s: State, w: nat, others: seq<Step>, fail: map<Op, Error>)
      returns (err: Option<Error>)
      requires w < |s.workers| && s.workers[w].Idle? && s.count == writtenCount && s.objects == c.objects
      requires ValidRun(scheme, Next(scheme, s, Claim(w)), others) && forall j :: 0 <= j < |others| ==> NotBy(others[j], w)
      modifies this, c
      ensures var t := Run(scheme, Next(scheme, s, Claim(w)), others);
              var step := if err.None? then Write(w, body.data) else FailWrite(w);
              && err == WriteStep(Bucket(t.objects, fail), PutOp, KeyFor(scheme, s.count), body, size).1
              && Enabled(scheme, t, step)
              && Next(scheme, t, step).count == writtenCount
              && Next(scheme, t, step).objects == c.objects
    {
      var idx := writtenCount;
      writtenCount := writtenCount + 1;
      var claimed := Next(scheme, s, Claim(w));
      OthersKeepPhase(scheme, claimed, others, w);
      var claims := OthersAct(c, scheme, claimed, others, fail);
      writtenCount := writtenCount + claims;
      err := c.Put(KeyFor(scheme, idx), body, size);
    }

    /** Deletes every index that was ever claimed, whatever the others do meanwhile. */
    method Cleanup(c: Client, others: Schedule) returns (err: Option<Error>, ghost calls: seq<Call>)
      modifies c
      ensures IsSweep(old(c.View()), ClaimedKeys(scheme, writtenCount), others, 0, calls, err)
      ensures c.View() == End(old(c.View()), calls)
      ensures Swept(old(c.View()), c.View(), ClaimedKeys(scheme, writtenCount), others, err)
    {
      hide IsSweep, Swept;
      err, calls := DeleteClaimed(c, scheme, writtenCount, others, 0);
      Sweeps(old(c.View()), ClaimedKeys(scheme, writtenCount), others, 0, calls, err);
    }
  }

  class LanceDB {
    const name: string
    var fragmentCount: nat
    var manifestCount: nat
    var manifestsWritten: nat

    constructor (name: string)
      ensures this.name == name
      ensures fragmentCount == manifestCount == manifestsWritten == 0
    {
      this.name := name;
      fragmentCount, manifestCount, manifestsWritten := 0, 0, 0;
    }

    /** What is stored is exactly what the two Prepopulate counters say. */
    ghost predicate Counted(c: Client)
      reads this, c
    {
      Holds(c.objects, Fragment(name), fragmentCount) && Holds(c.objects, Manifest(name), manifestCount)
    }

    /** Prepopulate stopped with this error at the upload it had come to; all the others before it succeeded. */
    ghost predicate StoppedAt(o: map<Key, Bytes>, fail: map<Op, Error>, fragments: nat, fragment: Body, manifests: nat,
                              bodies: nat -> Body, err: Option<Error>)
      reads this
    {
      && fragmentCount <= fragments && manifestCount <= manifests
      && if fragmentCount < fragments then
           && manifestCount == 0 && err.Some?
           && err == WriteStep(Bucket(o, fail), MultipartOp, KeyFor(Fragment(name), fragmentCount), fragment, -1).1
         else if manifestCount < manifests then
           var body := bodies(manifestCount);
           && err.Some?
           && err == WriteStep(Bucket(o, fail), PutOp, KeyFor(Manifest(name), manifestCount), body, |body.data|).1
         else err.None?
    }

    /** Uploads the fragments, then the manifests.  Wherever it stops, the counters tell exactly what was stored. */
    method Prepopulate(c: Client, fragments: nat, fragment: Body, manifests: nat, bodies: nat -> Body) returns (err: Option<Error>)
      requires fragmentCount == 0 && manifestCount == 0 && Counted(c)
      modifies this`fragmentCount, this`manifestCount, c
      ensures Counted(c) && StoppedAt(c.objects, old(c.fail), fragments, fragment, manifests, bodies, err)
      ensures NoFault(old(c.fail)) && !fragment.fails && (forall i :: !bodies(i).fails) ==> err.None?
      ensures forall k :: !Owns(Fragment(name), k) && !Owns(Manifest(name), k) ==> SameAt(old(c.objects), c.objects, k)
    {
      hide KeyFor;
      err := None;
      for i := 0 to fragments
        invariant fragmentCount == i && manifestCount == 0 && Counted(c) && err == None && c.fail == old(c.fail)
        invariant forall k :: !Owns(Fragment(name), k) && !Owns(Manifest(name), k) ==> SameAt(old(c.objects), c.objects, k)
      {
        ghost var o := c.objects;
        err := c.MultipartUpload(KeyFor(Fragment(name), i), fragment);
        if err.Some? {
          return;
        }
        assert Owns(Fragment(name), KeyFor(Fragment(name), i));
        HoldsNext(o, Fragment(name), i, fragment.data);
        HoldsOther(o, Manifest(name), 0, Fragment(name), i, fragment.data);
        fragmentCount := i + 1;
      }
      for i := 0 to manifests
        invariant fragmentCount == fragments && manifestCount == i && Counted(c) && err == None && c.fail == old(c.fail)
        invariant forall k :: !Owns(Fragment(name), k) && !Owns(Manifest(name), k) ==> SameAt(old(c.objects), c.objects, k)
      {
        ghost var o := c.objects;
        var body := bodies(i);
        err := c.Put(KeyFor(Manifest(name), i), body, |body.data|);
        if err.Some? {
          return;
        }
        assert Owns(Manifest(name), KeyFor(Manifest(name), i));
        HoldsNext(o, Manifest(name), i, body.data);
        HoldsOther(o, Fragment(name), fragments, Manifest(name), i, body.data);
        manifestCount := i + 1;
      }
    }

    /** Run-time manifests continue the numbering after the prepopulated ones: the protocol's counter is the sum.
        The others act between the claim and the write. */
    method WriteManifest(c: Client, body: Body, s: State, w: nat, others: seq<Step>, fail: map<Op, Error>)
      returns (err: Option<Error>)
      requires w < |s.workers| && s.workers[w].Idle? && s.objects == c.objects
      requires s.count == manifestCount + manifestsWritten
      requires ValidRun(Manifest(name), Next(Manifest(name), s, Claim(w)), others)
      requires forall j :: 0 <= j < |others| ==> NotBy(others[j], w)
      modifies this`manifestsWritten, c
      ensures var t := Run(Manifest(name), Next(Manifest(name), s, Claim(w)), others);
              var step := if err.None? then Write(w, body.data) else FailWrite(w);
              && err == WriteStep(Bucket(t.objects, fail), PutOp, KeyFor(Manifest(name), s.count), body, |body.data|).1
              && Enabled(Manifest(name), t, step)
              && Next(Manifest(name), t, step).count == manifestCount + manifestsWritten
              && Next(Manifest(name), t, step).objects == c.objects
    {
      var n := manifestsWritten;
      manifestsWritten := manifestsWritten + 1;
      var claimed := Next(Manifest(name), s, Claim(w));
      OthersKeepPhase(Manifest(name), claimed, others, w);
      var claims := OthersAct(c, Manifest(name), claimed, others, fail);
      manifestsWritten := manifestsWritten + claims;
      err := c.Put(KeyFor(Manifest(name), manifestCount + n), body, |body.data|);
    }

    /** The fragments, then every manifest index that was ever claimed. */
    function CleanupKeys(): seq<Key>
      reads this
    {
      ClaimedKeys(Fragment(name), fragmentCount) + ClaimedKeys(Manifest(name), manifestCount + manifestsWritten)
    }

    /** One loop after the other, whatever the others do meanwhile. */
    method Cleanup(c: Client, others: Schedule) returns (err: Option<Error>, ghost calls: seq<Call>)
      modifies c
      ensures IsSweep(old(c.View()), CleanupKeys(), others, 0, calls, err) && c.View() == End(old(c.View()), calls)
      ensures Swept(old(c.View()), c.View(), CleanupKeys(), others, err)
    {
      hide IsSweep, Swept, End, ClaimedKeys, KeyFor;
      ghost var b, keys := c.View(), ClaimedKeys(Fragment(name), fragmentCount);
      ghost var keys' := ClaimedKeys(Manifest(name), manifestCount + manifestsWritten);
      err, calls := DeleteClaimed(c, Fragment(name), fragmentCount, others, 0);
      if err.Some? {
        SweepsConcat(b, keys, keys', others, 0, calls, [], err);
      } else {
        SweepLength(b, keys, others, 0, calls);
        ghost var more;
        err, more := DeleteClaimed(c, Manifest(name), manifestCount + manifestsWritten, others, fragmentCount);
        SweepsConcat(b, keys, keys', others, 0, calls, more, err);
        calls := calls + more;
      }
      Sweeps(b, keys + keys', others, 0, calls, err);
    }

    /** Prepopulate, whether or not it succeeds, then any run of any number of workers to its join, then Cleanup.  o is what
        was stored when the run began.  Without an error from Cleanup or a false NotFound no key of the workload is left,
        whatever uploads and writes failed, and the run's own steps and the cleanup touched nothing else. */
    method WholeRun(c: Client, fragments: nat, fragment: Body, manifests: nat, bodies: nat -> Body,
                    workers: nat, steps: nat -> seq<Step>, fail: map<Op, Error>, others: Schedule)
      returns (stored: Option<Error>, err: Option<Error>, ghost o: map<Key, Bytes>, ghost calls: seq<Call>)
      requires fragmentCount == manifestCount == manifestsWritten == 0 && Counted(c)
      requires forall n: nat :: n <= manifests ==> RunsToJoin(Manifest(name), n, workers, steps(n)) && SparesFragments(name, steps(n))
      modifies this, c
      ensures StoppedAt(o, old(c.fail), fragments, fragment, manifests, bodies, stored)
      ensures Holds(o, Fragment(name), fragmentCount) && Holds(o, Manifest(name), manifestCount)
      ensures ValidRun(Manifest(name), Initial(manifestCount, o, workers), steps(manifestCount))
      ensures var t := Run(Manifest(name), Initial(manifestCount, o, workers), steps(manifestCount));
              var b := Bucket(t.objects, fail);
              && t.count == manifestCount + manifestsWritten
              && IsSweep(b, CleanupKeys(), others, 0, calls, err) && c.View() == End(b, calls)
      ensures err.None? && (DeleteOp, NotFound) !in Faults(fail) + ScheduleEffects(others).arms ==>
                && NoneLeft(c.objects, Fragment(name), ScheduleEffects(others))
                && NoneLeft(c.objects, Manifest(name), ScheduleEffects(others))
      ensures err.Some? ==> (DeleteOp, err.value) in Faults(fail) + ScheduleEffects(others).arms && err.value != NotFound
      ensures forall k :: !Owns(Fragment(name), k) && !Owns(Manifest(name), k) && Untouched(steps(manifestCount), k)
                          && k !in ScheduleEffects(others).touches
                ==> SameAt(old(c.objects), c.objects, k)
    {
      hide Run, ValidRun, KeyFor, IsSweep, Swept, End, ScheduleEffects;
      stored := Prepopulate(c, fragments, fragment, manifests, bodies);
      o := c.objects;
      var s := Initial(manifestCount, c.objects, workers);
      ghost var t := AfterRun(name, s, steps(manifestCount), fragmentCount);
      var claims := OthersAct(c, Manifest(name), s, steps(manifestCount), fail);
      manifestsWritten := claims;
      ghost var b := c.View();
      err, calls := Cleanup(c, others);
      LanceDBGone(b, c.View(), name, fragmentCount, t.count, others, err);
    }
  }

  /** Foreign steps of the run leave the fragments alone. */
  ghost predicate SparesFragments(name: string, steps: seq<Step>) {
    forall j :: 0 <= j < |steps| && steps[j].Foreign? ==> !Owns(Fragment(name), steps[j].key)
  }

  lemma LanceDBGone(b: Bucket, b': Bucket, name: string, fragments: nat, manifests: nat, others: Schedule, err: Option<Error>)
    requires Swept(b, b', ClaimedKeys(Fragment(name), fragments) + ClaimedKeys(Manifest(name), manifests), others, err)
    requires NoneFrom(b.objects, Fragment(name), fragments) && NoneFrom(b.objects, Manifest(name), manifests)
    ensures err.None? && (DeleteOp, NotFound) !in Armable(b, others) ==>
              NoneLeft(b'.objects, Fragment(name), ScheduleEffects(others)) && NoneLeft(b'.objects, Manifest(name), ScheduleEffects(others))
    ensures err.Some? ==> (DeleteOp, err.value) in Armable(b, others) && err.value != NotFound
    ensures forall k :: !Owns(Fragment(name), k) && !Owns(Manifest(name), k) && k !in ScheduleEffects(others).touches
              ==> SameAt(b.objects, b'.objects, k)
  {
    hide KeyFor, ScheduleEffects, Armable;
    var keys, keys' := ClaimedKeys(Fragment(name), fragments), ClaimedKeys(Manifest(name), manifests);
    ClaimedAreOwned(Fragment(name), fragments);
    ClaimedAreOwned(Manifest(name), manifests);
    forall i: nat ensures KeyFor(Fragment(name), i) in keys + keys' <==> i < fragments {
      FragmentNotManifest(name, i);
    }
    forall i: nat ensures KeyFor(Manifest(name), i) in keys + keys' <==> i < manifests {
      assert Owns(Manifest(name), KeyFor(Manifest(name), i));
      if KeyFor(Manifest(name), i) in keys {
        ManifestNotFragment(name, i);
      }
    }
    if err.None? && (DeleteOp, NotFound) !in Armable(b, others) {
      NoneLeftAfter(b, b', Fragment(name), fragments, keys + keys', others);
      NoneLeftAfter(b, b', Manifest(name), manifests, keys + keys', others);
    }
  }

  lemma ManifestNotFragment(name: string, i: nat)
    ensures !Owns(Fragment(name), KeyFor(Manifest(name), i))
  {
    forall j: nat ensures KeyFor(Fragment(name), j) != KeyFor(Manifest(name), i) {
      SchemesDisjoint(Fragment(name), Manifest(name), j, i);
    }
  }

  /** No index from n on is stored. */
  ghost predicate NoneFrom(o: map<Key, Bytes>, scheme: Scheme, n: nat) {
    forall i: nat :: KeyFor(scheme, i) in o ==> i < n
  }

  lemma AfterRun(name: string, s: State, steps: seq<Step>, fragments: nat) returns (t: State)
    requires s == Initial(s.count, s.objects, |s.workers|)
    requires RunsToJoin(Manifest(name), s.count, |s.workers|, steps) && SparesFragments(name, steps)
    requires Holds(s.objects, Fragment(name), fragments) && Holds(s.objects, Manifest(name), s.count)
    ensures ValidRun(Manifest(name), s, steps) && t == Run(Manifest(name), s, steps) && t.count >= s.count
    ensures NoneFrom(t.objects, Fragment(name), fragments) && NoneFrom(t.objects, Manifest(name), t.count)
    ensures forall k :: !Owns(Manifest(name), k) && Untouched(steps, k) ==> SameAt(s.objects, t.objects, k)
  {
    var scheme := Manifest(name);
    RunShape(scheme, Initial(s.count, map[], |s.workers|), s, steps);
    t := Run(scheme, s, steps);
    StartInv(scheme, s, s.count);
    RunKeepsInv(scheme, s, steps);
    hide Run, ValidRun, KeyFor, Inv;
    JoinedState(scheme, s, steps, s.count);
    forall i: nat | KeyFor(Fragment(name), i) in t.objects ensures i < fragments {
      var k := KeyFor(Fragment(name), i);
      assert Owns(Fragment(name), k);
      FragmentNotManifest(name, i);
      RunKeepsOthers(scheme, s, steps, k);
    }
    forall k | !Owns(scheme, k) && Untouched(steps, k) ensures SameAt(s.objects, t.objects, k) {
      RunKeepsOthers(scheme, s, steps, k);
    }
  }

  lemma FragmentNotManifest(name: string, i: nat)
    ensures !Owns(Manifest(name), KeyFor(Fragment(name), i))
  {
    forall j: nat ensures KeyFor(Manifest(name), j) != KeyFor(Fragment(name), i) {
      SchemesDisjoint(Manifest(name), Fragment(name), j, i);
    }
  }
}
