/** The cleanup walker: list a page, delete its keys one by one, go on from the continuation token.
    Before every client call other goroutines may act on the same store, as `others` says. */
module SafetyCleanup {
  import opened Wrappers
  import opened Lex
  import opened Pages
  import opened Store
  import opened RunPrefix
  import PagedWalk
  import Sets

  /** From o to o': outside the prefix only keys others touch change; under it, keys others leave alone can only go. */
  ghost predicate OnlyRemoved(o: map<Key, Bytes>, o': map<Key, Bytes>, p: Key, e: Effects) {
    && (forall k :: k !in e.touches && !(p <= k) ==> SameAt(o, o', k))
    && (forall k :: k !in e.touches && k in o' ==> SameAt(o, o', k))
    && (forall k :: k !in e.writes && k in o' ==> k in o)
  }

  lemma OnlyRemovedTransitive(o: map<Key, Bytes>, o1: map<Key, Bytes>, o2: map<Key, Bytes>, p: Key, e: Effects)
    requires OnlyRemoved(o, o1, p, e) && OnlyRemoved(o1, o2, p, e)
    ensures OnlyRemoved(o, o2, p, e)
  {
  }

  // ----- the trace of a cleanup -----

  /** A call the walker made, the key as it was sent, and the bucket it found. */
  datatype Call = ListCall(before: Bucket) | DeleteCall(key: Key, before: Bucket)

  function AfterCall(call: Call): Bucket {
    match call
    case ListCall(b) => if ListOp in b.fail then Disarm(b, ListOp) else b
    case DeleteCall(key, b) => DeleteStep(b, key).0
  }

  function End(b: Bucket, calls: seq<Call>): Bucket {
    if calls == [] then b else AfterCall(calls[|calls| - 1])
  }

  /** Call j found what the calls before it and the others' steps before it had left. */
  ghost predicate CallAt(b: Bucket, others: Schedule, first: nat, calls: seq<Call>, j: nat)
    requires j < |calls|
  {
    calls[j].before == AfterAll(End(b, calls[..j]), Batch(others, first + j))
  }

  /** The calls happened one after another from bucket b on; the first of them was call number `first`. */
  ghost predicate Happened(b: Bucket, others: Schedule, first: nat, calls: seq<Call>) {
    forall j :: 0 <= j < |calls| ==> CallAt(b, others, first, calls, j)
  }

  lemma HappenedConcat(b: Bucket, others: Schedule, first: nat, calls: seq<Call>, more: seq<Call>)
    requires Happened(b, others, first, calls) && Happened(End(b, calls), others, first + |calls|, more)
    ensures Happened(b, others, first, calls + more)
    ensures End(b, calls + more) == End(End(b, calls), more)
  {
    var all := calls + more;
    forall j | 0 <= j < |all| ensures CallAt(b, others, first, all, j) {
      if j < |calls| {
        assert CallAt(b, others, first, calls, j);
        assert all[..j] == calls[..j];
      } else {
        assert CallAt(End(b, calls), others, first + |calls|, more, j - |calls|);
        assert all[..j] == calls + more[..j - |calls|];
      }
    }
  }

  lemma HappenedOne(b: Bucket, others: Schedule, first: nat, call: Call)
    requires call.before == AfterAll(b, Batch(others, first))
    ensures Happened(b, others, first, [call]) && End(b, [call]) == AfterCall(call)
  {
    assert [call][..0] == [];
  }

  /** A delete that was answered with success, and whether there was something to delete. */
  predicate Succeeds(call: Call) {
    call.DeleteCall? && DeleteOp !in call.before.fail
  }

  predicate IsHit(call: Call) {
    Succeeds(call) && call.key in call.before.objects
  }

  predicate IsMiss(call: Call) {
    Succeeds(call) && call.key !in call.before.objects
  }

  /** The fault a call drew, if one was armed for it. */
  function FaultOf(call: Call): Option<Error> {
    var op := if call.ListCall? then ListOp else DeleteOp;
    if op in call.before.fail then Some(call.before.fail[op]) else None
  }

  /** The delete drew NotFound, which the walker takes for a key already gone. */
  predicate DrewNotFound(call: Call) {
    call.DeleteCall? && FaultOf(call) == Some(NotFound)
  }

  predicate PassedOver(call: Call) {
    FaultOf(call) == None || DrewNotFound(call)
  }

  ghost predicate AllPassedOver(calls: seq<Call>) {
    forall i :: 0 <= i < |calls| ==> PassedOver(calls[i])
  }

  /** The walker went on after every call that succeeded and every delete that drew NotFound;
      it stopped at the first call that drew anything else, and err is what that call drew. */
  ghost predicate StopsWith(calls: seq<Call>, err: Option<Error>) {
    if err.None? then AllPassedOver(calls)
    else
      && calls != [] && AllPassedOver(calls[..|calls| - 1])
      && FaultOf(calls[|calls| - 1]) == err && !PassedOver(calls[|calls| - 1])
  }

  lemma StopsConcat(calls: seq<Call>, more: seq<Call>, err: Option<Error>)
    requires AllPassedOver(calls) && StopsWith(more, err)
    ensures StopsWith(calls + more, err)
  {
    hide PassedOver, FaultOf;
    if more != [] {
      assert (calls + more)[..|calls + more| - 1] == calls + more[..|more| - 1];
      assert (calls + more)[|calls + more| - 1] == more[|more| - 1];
    }
  }

  lemma AllPassed(calls: seq<Call>)
    ensures StopsWith(calls, None) <==> AllPassedOver(calls)
  {
  }

  lemma StopsOne(call: Call)
    ensures PassedOver(call) ==> StopsWith([call], None)
    ensures !PassedOver(call) ==> StopsWith([call], FaultOf(call))
  {
  }

  /** Every skipped key is one whose delete drew NotFound. */
  ghost predicate SkippedBy(c: S3Client, skipped: set<Key>, calls: seq<Call>) {
    forall k :: k in skipped ==> exists call :: call in calls && call.DeleteCall? && call.key == c.FullKey(k) && DrewNotFound(call)
  }

  lemma SkippedConcat(c: S3Client, skipped: set<Key>, calls: seq<Call>, more: set<Key>, calls': seq<Call>)
    requires SkippedBy(c, skipped, calls) && SkippedBy(c, more, calls')
    ensures SkippedBy(c, skipped + more, calls + calls')
  {
    hide DrewNotFound, S3Client.FullKey;
  }

  /** The deletes that removed an object. */
  function Hits(calls: seq<Call>): nat {
    if calls == [] then 0 else Hits(calls[..|calls| - 1]) + if IsHit(calls[|calls| - 1]) then 1 else 0
  }

  /** The deletes that succeeded on a key that was no longer there. */
  function Misses(calls: seq<Call>): nat {
    if calls == [] then 0 else Misses(calls[..|calls| - 1]) + if IsMiss(calls[|calls| - 1]) then 1 else 0
  }

  lemma {:induction false} CountsConcat(calls: seq<Call>, more: seq<Call>)
    ensures Hits(calls + more) == Hits(calls) + Hits(more) && Misses(calls + more) == Misses(calls) + Misses(more)
  {
    if more == [] {
      assert calls + more == calls;
    } else {
      assert (calls + more)[..|calls + more| - 1] == calls + more[..|more| - 1];
      CountsConcat(calls, more[..|more| - 1]);
    }
  }

  /** One round of the outer loop: a List of the page at the token, then deletes of its keys in order,
      all of them if the round is complete. */
  ghost predicate IsRound(c: S3Client, round: seq<Call>, p: Key, token: Key, page: Page, complete: bool) {
    && round != [] && round[0].ListCall?
    && (ListOp !in round[0].before.fail ==> page == PageOf(round[0].before.objects.Keys, p, "", token, 1000))
    && (complete || |round| > 1 ==> ListOp !in round[0].before.fail)
    && |round| <= 1 + |page.keys|
    && (forall i :: 1 <= i < |round| ==> round[i].DeleteCall? && round[i].key == c.FullKey(page.keys[i - 1]))
    && (complete ==> |round| == 1 + |page.keys|)
  }

  ghost predicate FurtherRound(c: S3Client, rounds: seq<seq<Call>>, pages: seq<Page>, q: Key, j: nat)
    requires j < |rounds| == |pages|
  {
    IsRound(c, rounds[j], q, TokenAt(pages, j), pages[j], true) && pages[j].truncated
  }

  /** The rounds of a walk that goes on: all complete, all of truncated pages. */
  ghost predicate RoundsSoFar(c: S3Client, rounds: seq<seq<Call>>, pages: seq<Page>, q: Key) {
    |rounds| == |pages| && forall j :: 0 <= j < |rounds| ==> FurtherRound(c, rounds, pages, q, j)
  }

  /** The rounds of a whole walk: one last round after those, complete and of an untruncated page if it finished. */
  ghost predicate AreRounds(c: S3Client, rounds: seq<seq<Call>>, pages: seq<Page>, q: Key, finished: bool) {
    && |rounds| == |pages| > 0
    && var n := |rounds| - 1;
    && RoundsSoFar(c, rounds[..n], pages[..n], q)
    && IsRound(c, rounds[n], q, TokenAt(pages[..n], n), pages[n], finished)
    && (finished ==> !pages[n].truncated)
  }

  function Flatten(rounds: seq<seq<Call>>): seq<Call> {
    if rounds == [] then [] else Flatten(rounds[..|rounds| - 1]) + rounds[|rounds| - 1]
  }

  lemma FlattenSnoc(rounds: seq<seq<Call>>, round: seq<Call>)
    ensures Flatten(rounds + [round]) == Flatten(rounds) + round
  {
    assert (rounds + [round])[..|rounds|] == rounds;
  }

  // ----- what others may remove -----

  /** None of these steps removes a key under p. */
  ghost predicate SparesUnder(acts: seq<Action>, p: Key) {
    forall i :: 0 <= i < |acts| && acts[i].Remove? ==> !(p <= acts[i].key)
  }

  ghost predicate ScheduleSpares(others: Schedule, p: Key) {
    forall j :: 0 <= j < |others| ==> SparesUnder(others[j], p)
  }

  lemma {:induction false} Survives(b: Bucket, acts: seq<Action>, p: Key)
    requires SparesUnder(acts, p)
    ensures forall k :: p <= k && k in b.objects ==> k in AfterAll(b, acts).objects
    decreases |acts|
  {
    if acts != [] {
      assert forall i :: 0 <= i < |acts[1..]| ==> acts[1..][i] == acts[i + 1];
      Survives(After(b, acts[0]), acts[1..], p);
    }
  }

  lemma BatchSpares(others: Schedule, p: Key, j: nat)
    requires ScheduleSpares(others, p)
    ensures SparesUnder(Batch(others, j), p)
  {
  }

  // ----- the walker -----

  /** What others do just before a call. */
  lemma BatchFrame(b: Bucket, others: Schedule, n: nat, p: Key, armed: set<(Op, Error)>)
    requires ScheduleEffects(others).arms <= armed && FaultsFrom(b.fail, armed)
    ensures var b' := AfterAll(b, Batch(others, n));
            && FaultsFrom(b'.fail, armed)
            && OnlyRemoved(b.objects, b'.objects, p, ScheduleEffects(others))
            && (ScheduleEffects(others).Quiet() || n >= |others| ==> b'.objects == b.objects)
  {
    BatchWithin(others, n);
    OthersFrame(b, Batch(others, n), ScheduleEffects(others), armed);
  }

  /** Removing a key under p. */
  lemma RemoveOne(o: map<Key, Bytes>, k: Key, p: Key, e: Effects)
    requires p <= k
    ensures OnlyRemoved(o, o, p, e) && OnlyRemoved(o, o - {k}, p, e)
    ensures |o - {k}| + (if k in o then 1 else 0) == |o|
  {
    if k in o {
      assert (o - {k}).Keys == o.Keys - {k};
      assert |(o - {k}).Keys| == |o - {k}| && |o.Keys| == |o|;
    } else {
      assert o - {k} == o;
    }
  }

  /** One delete: first the others act, then the key goes, unless a fault was armed. */
  method DeleteOne(c: S3Client, k: Key, ghost p: Key, others: Schedule, first: nat, ghost armed: set<(Op, Error)>)
    returns (err: Option<Error>, ghost call: Call)
    requires p <= c.FullKey(k)
    requires ScheduleEffects(others).arms <= armed && FaultsFrom(c.api.fail, armed)
    modifies c.api
    ensures call == DeleteCall(c.FullKey(k), AfterAll(old(c.api.View()), Batch(others, first)))
    ensures c.api.View() == AfterCall(call)
    ensures err == FaultOf(call) && (err.None? <==> Succeeds(call))
    ensures FaultsFrom(c.api.fail, armed)
    ensures OnlyRemoved(old(c.api.objects), c.api.objects, p, ScheduleEffects(others))
    ensures err.None? ==> c.FullKey(k) !in c.api.objects
    ensures err.Some? ==> (DeleteOp, err.value) in armed
    ensures ScheduleEffects(others).Quiet() || first >= |others|
      ==> c.api.objects == if err.None? then old(c.api.objects) - {c.FullKey(k)} else old(c.api.objects)
    ensures ScheduleEffects(others).Quiet() ==> |c.api.objects| + Hits([call]) == |old(c.api.objects)|
    ensures first >= |others| ==> c.api.objects.Keys <= old(c.api.objects).Keys
  {
    hide AfterAll, ScheduleEffects, Batch, JoinPrefix, OnlyRemoved;
    ghost var o, e := c.api.objects, ScheduleEffects(others);
    BatchFrame(c.api.View(), others, first, p, armed);
    Perform(c.api, Batch(others, first));
    ghost var o1 := c.api.objects;
    call := DeleteCall(c.FullKey(k), c.api.View());
    RemoveOne(o1, c.FullKey(k), p, e);
    err := c.Delete(k);
    OnlyRemovedTransitive(o, o1, c.api.objects, p, e);
    assert [call][..0] == [];
  }

  lemma HappenedSnoc(b: Bucket, others: Schedule, first: nat, calls: seq<Call>, call: Call)
    requires Happened(b, others, first, calls)
    requires call.before == AfterAll(End(b, calls), Batch(others, first + |calls|))
    ensures Happened(b, others, first, calls + [call]) && End(b, calls + [call]) == AfterCall(call)
  {
    HappenedOne(End(b, calls), others, first + |calls|, call);
    HappenedConcat(b, others, first, calls, [call]);
  }

  lemma CountsSnoc(calls: seq<Call>, call: Call)
    ensures Hits(calls + [call]) == Hits(calls) + Hits([call])
    ensures Misses(calls + [call]) == Misses(calls) + if IsMiss(call) then 1 else 0
    ensures Hits([call]) == if IsHit(call) then 1 else 0
    ensures Succeeds(call) <==> IsHit(call) || IsMiss(call)
    ensures !(IsHit(call) && IsMiss(call))
  {
    CountsConcat(calls, [call]);
    assert [call][..0] == [];
  }

  lemma DistinctFromLater(keys: seq<Key>, i: nat)
    requires StrictlySorted(keys) && i < |keys|
    ensures forall j :: i < j < |keys| ==> keys[j] != keys[i]
  {
    LessIrreflexive(keys[i]);
  }

  /** The page's keys from i on are in the bucket. */
  ghost predicate StillThere(keys: seq<Key>, i: nat, o: map<Key, Bytes>) {
    forall j :: i <= j < |keys| ==> keys[j] in o
  }

  /** When nobody else removes a listed key, the delete finds its object and the later keys stay. */
  lemma SparedDelete(b: Bucket, others: Schedule, n: nat, q: Key, keys: seq<Key>, i: nat, call: Call)
    requires StrictlySorted(keys) && i < |keys| && forall k :: k in keys ==> q <= k
    requires ScheduleSpares(others, q) && StillThere(keys, i, b.objects)
    requires call == DeleteCall(keys[i], AfterAll(b, Batch(others, n)))
    ensures !IsMiss(call) && StillThere(keys, i + 1, AfterCall(call).objects)
  {
    BatchSpares(others, q, n);
    Survives(b, Batch(others, n), q);
    DistinctFromLater(keys, i);
    forall j | i <= j < |keys| ensures keys[j] in call.before.objects {
      assert keys[j] in keys;
    }
  }

  /** The deletes made so far of one page's keys, listed under q, took bucket b to bucket now. */
  ghost predicate PageSoFar(c: S3Client, b: Bucket, keys: seq<Key>, q: Key, others: Schedule, first: nat,
                            calls: seq<Call>, deleted: nat, now: Bucket) {
    && OnlyRemoved(b.objects, now.objects, c.Region(q), ScheduleEffects(others))
    && Happened(b, others, first, calls) && now == End(b, calls)
    && |calls| <= |keys|
    && (forall i :: 0 <= i < |calls| ==> calls[i].DeleteCall? && calls[i].key == c.FullKey(keys[i]))
    && deleted == Hits(calls) + Misses(calls)
    && SparedSoFar(c, b, keys, q, others, calls, now)
    && (ScheduleEffects(others).Quiet() ==> |now.objects| + Hits(calls) == |b.objects|)
    && (first >= |others| ==> now.objects.Keys <= b.objects.Keys)
  }

  /** The listed keys are there, are deleted under their own names, and nobody else removes a key under q. */
  ghost predicate Spared(c: S3Client, b: Bucket, keys: seq<Key>, q: Key, others: Schedule) {
    c.Faithful(q) && ScheduleSpares(others, q) && StillThere(keys, 0, b.objects)
  }

  /** Then every delete so far has found its object, and the others are still there to be found. */
  ghost predicate SparedSoFar(c: S3Client, b: Bucket, keys: seq<Key>, q: Key, others: Schedule, calls: seq<Call>, now: Bucket) {
    Spared(c, b, keys, q, others) ==> Misses(calls) == 0 && StillThere(keys, |calls|, now.objects)
  }

  lemma SparedStep(c: S3Client, b: Bucket, keys: seq<Key>, q: Key, others: Schedule, n: nat, calls: seq<Call>, now: Bucket, call: Call)
    requires StrictlySorted(keys) && (forall k :: k in keys ==> q <= k) && |calls| < |keys|
    requires SparedSoFar(c, b, keys, q, others, calls, now)
    requires call == DeleteCall(c.FullKey(keys[|calls|]), AfterAll(now, Batch(others, n)))
    ensures SparedSoFar(c, b, keys, q, others, calls + [call], AfterCall(call))
  {
    hide AfterAll, Batch, AfterCall, IsMiss, Hits, Misses, StillThere, ScheduleSpares;
    CountsSnoc(calls, call);
    assert keys[|calls|] in keys;
    if Spared(c, b, keys, q, others) {
      SparedDelete(now, others, n, q, keys, |calls|, call);
    }
  }

  lemma PageStart(c: S3Client, b: Bucket, keys: seq<Key>, q: Key, others: Schedule, first: nat)
    ensures PageSoFar(c, b, keys, q, others, first, [], 0, b)
  {
  }

  lemma PageStep(c: S3Client, b: Bucket, keys: seq<Key>, q: Key, others: Schedule, first: nat,
                 calls: seq<Call>, deleted: nat, now: Bucket, call: Call)
    requires StrictlySorted(keys) && (forall k :: k in keys ==> q <= k) && |calls| < |keys|
    requires PageSoFar(c, b, keys, q, others, first, calls, deleted, now)
    requires call == DeleteCall(c.FullKey(keys[|calls|]), AfterAll(now, Batch(others, first + |calls|)))
    requires OnlyRemoved(now.objects, AfterCall(call).objects, c.Region(q), ScheduleEffects(others))
    requires ScheduleEffects(others).Quiet() ==> |AfterCall(call).objects| + Hits([call]) == |now.objects|
    requires first >= |others| ==> AfterCall(call).objects.Keys <= now.objects.Keys
    ensures PageSoFar(c, b, keys, q, others, first, calls + [call], deleted + (if Succeeds(call) then 1 else 0), AfterCall(call))
  {
    hide Happened, End, AfterAll, Hits, Misses, Succeeds, ScheduleEffects, Batch, AfterCall, IsHit, IsMiss, OnlyRemoved, SparedSoFar, S3Client.FullKey, S3Client.Region;
    var next := AfterCall(call);
    OnlyRemovedTransitive(b.objects, now.objects, next.objects, c.Region(q), ScheduleEffects(others));
    HappenedSnoc(b, others, first, calls, call);
    CountsSnoc(calls, call);
    SparedStep(c, b, keys, q, others, first + |calls|, calls, now, call);
  }

  /** The inner loop over one page of keys listed under q.  `skipped` collects the keys whose delete drew an injected
      NotFound, `calls` the deletes as they happened. */
  method DeletePage(c: S3Client, keys: seq<Key>, ghost q: Key, others: Schedule, first: nat, ghost armed: set<(Op, Error)>)
    returns (deleted: nat, err: Option<Error>, ghost skipped: set<Key>, ghost calls: seq<Call>)
    requires StrictlySorted(keys) && forall k :: k in keys ==> q <= k
    requires ScheduleEffects(others).arms <= armed && FaultsFrom(c.api.fail, armed)
    modifies c.api
    ensures FaultsFrom(c.api.fail, armed)
    ensures PageSoFar(c, old(c.api.View()), keys, q, others, first, calls, deleted, c.api.View())
    ensures err.None? ==> |calls| == |keys|
    ensures StopsWith(calls, err)
    ensures SkippedBy(c, skipped, calls) && (skipped != {} ==> (DeleteOp, NotFound) in armed)
    ensures err.None? && c.Faithful(q)
      ==> forall k :: k in keys && k in c.api.objects ==> k in ScheduleEffects(others).writes || k in skipped
    ensures err.Some? ==> (DeleteOp, err.value) in armed && err.value != NotFound
  {
    hide PageSoFar, AfterAll, Succeeds, ScheduleEffects, Batch, AfterCall, OnlyRemoved, Hits, StopsWith, SkippedBy, AllPassedOver, FaultOf,
         LeftSoFar;
    deleted, err, skipped, calls := 0, None, {}, [];
    ghost var e, b := ScheduleEffects(others), c.api.View();
    PageStart(c, b, keys, q, others, first);
    NothingPassed(c);
    LeftNothing(keys, c.api.objects, e);
    for i := 0 to |keys|
      invariant FaultsFrom(c.api.fail, armed) && |calls| == i
      invariant PageSoFar(c, b, keys, q, others, first, calls, deleted, c.api.View())
      invariant AllPassedOver(calls) && SkippedBy(c, skipped, calls)
      invariant skipped != {} ==> (DeleteOp, NotFound) in armed
      invariant c.Faithful(q) ==> LeftSoFar(keys, i, c.api.objects, e, skipped)
    {
      ghost var now := c.api.View();
      assert keys[i] in keys;
      c.SentInRegion(q, keys[i]);
      var derr;
      ghost var call;
      derr, call := DeleteOne(c, keys[i], c.Region(q), others, first + i, armed);
      PageStep(c, b, keys, q, others, first, calls, deleted, now, call);
      LeftStep(keys, i, now.objects, c.api.objects, c.Region(q), e, skipped);
      PassOne(c, calls, skipped, keys[i], call);
      calls := calls + [call];
      if derr.Some? {
        if derr.value != NotFound {
          return deleted, derr, skipped, calls;
        }
        skipped := skipped + {keys[i]};
      } else {
        deleted := deleted + 1;
      }
    }
    AllPassed(calls);
    if c.Faithful(q) {
      LeftAll(keys, c.api.objects, e, skipped);
    }
  }

  /** Of the first i keys of the page only what others wrote and what was skipped is there. */
  ghost predicate LeftSoFar(keys: seq<Key>, i: nat, o: map<Key, Bytes>, e: Effects, skipped: set<Key>)
    requires i <= |keys|
  {
    forall j :: 0 <= j < i && keys[j] in o ==> keys[j] in e.writes || keys[j] in skipped
  }

  lemma LeftNothing(keys: seq<Key>, o: map<Key, Bytes>, e: Effects)
    ensures LeftSoFar(keys, 0, o, e, {})
  {
  }

  lemma LeftStep(keys: seq<Key>, i: nat, o: map<Key, Bytes>, o': map<Key, Bytes>, p: Key, e: Effects, skipped: set<Key>)
    requires i < |keys| && OnlyRemoved(o, o', p, e)
    ensures LeftSoFar(keys, i, o, e, skipped) ==> LeftSoFar(keys, i + 1, o', e, skipped + {keys[i]})
    ensures LeftSoFar(keys, i, o, e, skipped) && keys[i] !in o' ==> LeftSoFar(keys, i + 1, o', e, skipped)
  {
  }

  lemma LeftAll(keys: seq<Key>, o: map<Key, Bytes>, e: Effects, skipped: set<Key>)
    requires LeftSoFar(keys, |keys|, o, e, skipped)
    ensures forall k :: k in keys && k in o ==> k in e.writes || k in skipped
  {
  }

  lemma NothingPassed(c: S3Client)
    ensures StopsWith([], None) && AllPassedOver([]) && SkippedBy(c, {}, [])
  {
  }

  /** After one more delete, of key k, the loop goes on or stops. */
  lemma PassOne(c: S3Client, calls: seq<Call>, skipped: set<Key>, k: Key, call: Call)
    requires AllPassedOver(calls) && SkippedBy(c, skipped, calls) && call.DeleteCall? && call.key == c.FullKey(k)
    ensures SkippedBy(c, skipped, calls + [call])
    ensures FaultOf(call).None? ==> AllPassedOver(calls + [call])
    ensures FaultOf(call) == Some(NotFound) ==> AllPassedOver(calls + [call]) && SkippedBy(c, skipped + {k}, calls + [call])
    ensures FaultOf(call).Some? && FaultOf(call).value != NotFound ==> StopsWith(calls + [call], FaultOf(call))
  {
    hide S3Client.FullKey;
    StopsOne(call);
    StopsConcat(calls, [call], if PassedOver(call) then None else FaultOf(call));
    SkippedConcat(c, skipped, calls, {}, [call]);
    assert skipped + {} == skipped;
    if DrewNotFound(call) {
      assert call in [call];
      SkippedConcat(c, skipped, calls, {k}, [call]);
    }
  }

  // ----- what a stretch of calls did -----

  /** The calls took bucket b to bucket now: only objects went, `deleted` counts the deletes that succeeded, which are
      the deletes that removed an object and those that found none; none found none when the keys deleted are the keys
      listed and nobody else removed one of them; and when nobody else changed objects, that many are missing. */
  ghost predicate Trace(c: S3Client, b: Bucket, q: Key, others: Schedule, first: nat, calls: seq<Call>, deleted: nat, now: Bucket) {
    && OnlyRemoved(b.objects, now.objects, c.Region(q), ScheduleEffects(others))
    && Happened(b, others, first, calls) && now == End(b, calls)
    && deleted == Hits(calls) + Misses(calls)
    && (c.Faithful(q) && ScheduleSpares(others, q) ==> Misses(calls) == 0)
    && (ScheduleEffects(others).Quiet() ==> |now.objects| + Hits(calls) == |b.objects|)
    && (first >= |others| ==> now.objects.Keys <= b.objects.Keys)
  }

  lemma TraceConcat(c: S3Client, b: Bucket, q: Key, others: Schedule, first: nat, calls: seq<Call>, deleted: nat, mid: Bucket,
                    more: seq<Call>, deleted': nat, now: Bucket)
    requires Trace(c, b, q, others, first, calls, deleted, mid)
    requires Trace(c, mid, q, others, first + |calls|, more, deleted', now)
    ensures Trace(c, b, q, others, first, calls + more, deleted + deleted', now)
  {
    hide Happened, End, Hits, Misses, ScheduleSpares, ScheduleEffects, OnlyRemoved;
    OnlyRemovedTransitive(b.objects, mid.objects, now.objects, c.Region(q), ScheduleEffects(others));
    HappenedConcat(b, others, first, calls, more);
    CountsConcat(calls, more);
  }

  lemma PageTrace(c: S3Client, b: Bucket, keys: seq<Key>, q: Key, others: Schedule, first: nat, calls: seq<Call>, deleted: nat, now: Bucket)
    requires PageSoFar(c, b, keys, q, others, first, calls, deleted, now) && StillThere(keys, 0, b.objects)
    ensures Trace(c, b, q, others, first, calls, deleted, now)
  {
    hide Happened, End, Hits, Misses, ScheduleSpares, ScheduleEffects, OnlyRemoved, StillThere;
  }

  ghost predicate Kept(k: Key, o: map<Key, Bytes>, e: Effects, skipped: set<Key>) {
    k in o ==> k in e.writes || k in skipped
  }

  lemma ListTrace(c: S3Client, b: Bucket, q: Key, others: Schedule, first: nat, call: Call)
    requires call == ListCall(AfterAll(b, Batch(others, first)))
    requires OnlyRemoved(b.objects, call.before.objects, c.Region(q), ScheduleEffects(others))
    requires ScheduleEffects(others).Quiet() || first >= |others| ==> call.before.objects == b.objects
    ensures Trace(c, b, q, others, first, [call], 0, AfterCall(call))
  {
    hide AfterAll, ScheduleEffects, Batch, Happened, OnlyRemoved, S3Client.FullKey, S3Client.Region;
    HappenedOne(b, others, first, call);
    CountsSnoc([], call);
    assert [] + [call] == [call];
  }

  /** One List request for keys under p, after the others have acted. */
  method ListOne(c: S3Client, p: Key, token: Key, others: Schedule, first: nat, ghost armed: set<(Op, Error)>)
    returns (r: Result<Page, Error>, ghost call: Call)
    requires ScheduleEffects(others).arms <= armed && FaultsFrom(c.api.fail, armed)
    modifies c.api
    ensures FaultsFrom(c.api.fail, armed)
    ensures call == ListCall(AfterAll(old(c.api.View()), Batch(others, first))) && c.api.View() == AfterCall(call)
    ensures Trace(c, old(c.api.View()), c.FullKey(p), others, first, [call], 0, c.api.View())
    ensures r.Ok? <==> ListOp !in call.before.fail
    ensures FaultOf(call) == if r.Ok? then None else Some(r.error)
    ensures r.Ok? ==> r.value == PageOf(call.before.objects.Keys, c.FullKey(p), "", token, 1000)
    ensures r.Err? ==> (ListOp, r.error) in armed
    ensures c.api.objects == call.before.objects
    ensures ScheduleEffects(others).Quiet() || first >= |others| ==> c.api.objects == old(c.api.objects)
  {
    hide AfterAll, ScheduleEffects, Batch, JoinPrefix, Happened, PageOf, OnlyRemoved;
    BatchFrame(c.api.View(), others, first, c.Region(c.FullKey(p)), armed);
    Perform(c.api, Batch(others, first));
    call := ListCall(c.api.View());
    ListTrace(c, old(c.api.View()), c.FullKey(p), others, first, call);
    r := c.List(p, "", token, 1000);
  }

  /** The walk has dealt with k: if k is still there, it was written by others or skipped. */
  ghost predicate Done(p: Key, page: Page, o: map<Key, Bytes>, e: Effects, skipped: set<Key>) {
    forall k :: p <= k && (page.truncated ==> Less(k, page.next)) ==> Kept(k, o, e, skipped)
  }

  ghost predicate DoneBefore(p: Key, token: Key, o: map<Key, Bytes>, e: Effects, skipped: set<Key>) {
    forall k :: p <= k && token != "" && Less(k, token) ==> Kept(k, o, e, skipped)
  }

  /** After a page's keys are deleted, everything up to the next token is dealt with. */
  lemma PageDone(p: Key, token: Key, page: Page, o1: map<Key, Bytes>, o2: map<Key, Bytes>, o3: map<Key, Bytes>,
                 e: Effects, skipped: set<Key>, more: set<Key>, region: Key)
    requires OnlyRemoved(o1, o2, region, e) && OnlyRemoved(o2, o3, region, e)
    requires DoneBefore(p, token, o1, e, skipped)
    requires Serves(page, FlatKeys(o2.Keys, p, "", token))
    requires forall k :: k in page.keys && k in o3 ==> k in e.writes || k in more
    ensures Done(p, page, o3, e, skipped + more)
  {
    forall k | p <= k && (page.truncated ==> Less(k, page.next)) ensures Kept(k, o3, e, skipped + more) {
      if k in o3 && k !in e.writes {
        assert k in o2 && k in o1;
        if token != "" && Less(k, token) {
          assert Kept(k, o1, e, skipped);
        } else {
          assert k in FlatKeys(o2.Keys, p, "", token);
          assert k in page.keys;
        }
      }
    }
  }

  lemma WalkShrinks(p: Key, token: Key, page: Page, o: map<Key, Bytes>, o': map<Key, Bytes>)
    requires Serves(page, FlatKeys(o.Keys, p, "", token)) && page.truncated && o'.Keys <= o.Keys
    ensures |FlatKeys(o'.Keys, p, "", page.next)| < |FlatKeys(o.Keys, p, "", token)|
  {
    assert page.keys[0] in page.keys;
    PagedWalk.FlatKeysShrink(o.Keys, p, "", token, page.keys[0], page.next);
    Sets.SubsetAtMost(FlatKeys(o'.Keys, p, "", page.next), FlatKeys(o.Keys, p, "", page.next));
    Sets.SubsetSmaller(FlatKeys(o.Keys, p, "", page.next), FlatKeys(o.Keys, p, "", token));
  }

  lemma PageKeysThere(o: map<Key, Bytes>, q: Key, token: Key, page: Page)
    requires Serves(page, FlatKeys(o.Keys, q, "", token))
    ensures StrictlySorted(page.keys) && StillThere(page.keys, 0, o) && forall k :: k in page.keys ==> q <= k
  {
    assert forall i :: 0 <= i < |page.keys| ==> page.keys[i] in page.keys;
  }

  lemma FailedRound(c: S3Client, call: Call, q: Key, token: Key)
    requires call.ListCall? && FaultOf(call).Some?
    ensures IsRound(c, [call], q, token, Page([], [], "", false), false)
  {
    hide PageOf;
  }

  /** A list and the deletes of its page make up a round. */
  lemma RoundCalls(c: S3Client, b: Bucket, token: Key, page: Page, q: Key, others: Schedule, first: nat, call: Call,
                   calls: seq<Call>, deleted: nat, now: Bucket)
    requires call.ListCall? && FaultOf(call).None? && page == PageOf(call.before.objects.Keys, q, "", token, 1000)
    requires PageSoFar(c, b, page.keys, q, others, first, calls, deleted, now)
    ensures IsRound(c, [call] + calls, q, token, page, |calls| == |page.keys|)
  {
    hide PageOf, OnlyRemoved, Happened, End, Hits, Misses, SparedSoFar, ScheduleEffects, JoinPrefix;
  }

  lemma RoundStops(c: S3Client, call: Call, calls: seq<Call>, err: Option<Error>, more: set<Key>)
    requires call.ListCall? && FaultOf(call).None? && StopsWith(calls, err) && SkippedBy(c, more, calls)
    ensures StopsWith([call] + calls, err) && SkippedBy(c, more, [call] + calls)
  {
    hide StopsWith, SkippedBy, AllPassedOver, PassedOver, DrewNotFound;
    ListPassed(c, call);
    StopsConcat([call], calls, err);
    SkippedConcat(c, {}, [call], more, calls);
    assert {} + more == more;
  }

  lemma IncompleteRound(c: S3Client, round: seq<Call>, q: Key, token: Key, page: Page, complete: bool)
    requires IsRound(c, round, q, token, page, complete)
    ensures IsRound(c, round, q, token, page, false)
  {
    hide PageOf;
  }

  lemma TraceRemoves(c: S3Client, b: Bucket, q: Key, others: Schedule, first: nat, calls: seq<Call>, deleted: nat, now: Bucket)
    requires Trace(c, b, q, others, first, calls, deleted, now)
    ensures OnlyRemoved(b.objects, now.objects, c.Region(q), ScheduleEffects(others))
    ensures first >= |others| ==> now.objects.Keys <= b.objects.Keys
  {
  }

  /** A List that fails stops the walk. */
  lemma ListPassed(c: S3Client, call: Call)
    requires call.ListCall?
    ensures SkippedBy(c, {}, [call]) && StopsWith([call], FaultOf(call))
    ensures FaultOf(call).None? ==> AllPassedOver([call])
  {
  }

  /** One round of the outer loop: list a page of the keys under p, delete its keys. */
  method SweepPage(c: S3Client, p: Key, token: Key, others: Schedule, first: nat, ghost armed: set<(Op, Error)>, ghost skipped: set<Key>)
    returns (page: Page, deleted: nat, err: Option<Error>, ghost more: set<Key>, ghost round: seq<Call>)
    requires ScheduleEffects(others).arms <= armed && FaultsFrom(c.api.fail, armed)
    requires c.Faithful(c.FullKey(p)) ==> DoneBefore(c.FullKey(p), token, c.api.objects, ScheduleEffects(others), skipped)
    modifies c.api
    ensures FaultsFrom(c.api.fail, armed)
    ensures Trace(c, old(c.api.View()), c.FullKey(p), others, first, round, deleted, c.api.View())
    ensures IsRound(c, round, c.FullKey(p), token, page, err.None?)
    ensures StopsWith(round, err)
    ensures SkippedBy(c, more, round) && (more != {} ==> (DeleteOp, NotFound) in armed)
    ensures err.Some? ==> (ListOp, err.value) in armed || ((DeleteOp, err.value) in armed && err.value != NotFound)
    ensures err.None? && c.Faithful(c.FullKey(p)) ==>
              Done(c.FullKey(p), page, c.api.objects, ScheduleEffects(others), skipped + more)
    ensures err.None? && page.truncated && first >= |others| ==>
              |FlatKeys(c.api.objects.Keys, c.FullKey(p), "", page.next)|
                < |FlatKeys(old(c.api.objects).Keys, c.FullKey(p), "", token)|
  {
    hide Trace, PageSoFar, AfterAll, Batch, ScheduleEffects, PageOf, JoinPrefix, Serves, Done, DoneBefore, FlatKeys, OnlyRemoved, AfterCall,
         IsRound, StillThere, StopsWith, SkippedBy, AllPassedOver, FaultOf;
    ghost var q, e, b1 := c.FullKey(p), ScheduleEffects(others), c.api.View();
    more, round := {}, [];
    var res;
    ghost var call;
    res, call := ListOne(c, p, token, others, first, armed);
    ListPassed(c, call);
    if res.Err? {
      FailedRound(c, call, q, token);
      return Page([], [], "", false), 0, Some(res.error), more, [call];
    }
    ghost var b2 := c.api.View();
    page := res.value;
    PageServes(b2.objects.Keys, q, "", token, 1000);
    PageKeysThere(b2.objects, q, token, page);
    ghost var calls;
    deleted, err, more, calls := DeletePage(c, page.keys, q, others, first + 1, armed);
    ghost var b3 := c.api.View();
    PageTrace(c, b2, page.keys, q, others, first + 1, calls, deleted, b3);
    TraceConcat(c, b1, q, others, first, [call], 0, b2, calls, deleted, b3);
    round := [call] + calls;
    RoundCalls(c, b2, token, page, q, others, first + 1, call, calls, deleted, b3);
    IncompleteRound(c, round, q, token, page, |calls| == |page.keys|);
    RoundStops(c, call, calls, err, more);
    if err.None? {
      TraceRemoves(c, b1, q, others, first, [call], 0, b2);
      TraceRemoves(c, b2, q, others, first + 1, calls, deleted, b3);
      if c.Faithful(q) {
        PageDone(q, token, page, b1.objects, b2.objects, b3.objects, e, skipped, more, c.Region(q));
      }
      if page.truncated && first >= |others| {
        WalkShrinks(q, token, page, b1.objects, b3.objects);
      }
    }
  }

  lemma RoundsSnoc(c: S3Client, rounds: seq<seq<Call>>, pages: seq<Page>, q: Key, round: seq<Call>, page: Page, complete: bool)
    requires RoundsSoFar(c, rounds, pages, q) && IsRound(c, round, q, TokenAt(pages, |pages|), page, complete)
    ensures complete && page.truncated ==> RoundsSoFar(c, rounds + [round], pages + [page], q)
    ensures !complete || !page.truncated ==> AreRounds(c, rounds + [round], pages + [page], q, complete)
    ensures TokenAt(pages + [page], |pages| + 1) == page.next
  {
    hide IsRound;
    var rounds', pages' := rounds + [round], pages + [page];
    assert rounds'[..|rounds|] == rounds && pages'[..|pages|] == pages;
    if complete && page.truncated {
      forall j | 0 <= j < |rounds'| ensures FurtherRound(c, rounds', pages', q, j) {
        if j < |rounds| {
          assert FurtherRound(c, rounds, pages, q, j);
        }
      }
    }
  }

  lemma QuietSpares(others: Schedule, p: Key)
    requires ScheduleEffects(others).Quiet()
    ensures ScheduleSpares(others, p)
  {
    forall j | 0 <= j < |others| ensures SparesUnder(others[j], p) {
      BatchWithin(others, j);
      QuietBatch(others[j], p);
    }
  }

  lemma {:induction false} QuietBatch(acts: seq<Action>, p: Key)
    requires EffectsOf(acts).touches == {}
    ensures SparesUnder(acts, p)
  {
    if acts != [] {
      QuietBatch(acts[1..], p);
      assert forall i :: 1 <= i < |acts| ==> acts[i] == acts[1..][i - 1];
      assert Touches(acts[0]) == {};
    }
  }

  /** Deletes every object under the prefix, page by page, through any client.  q is the prefix as the client sends it.
      Whatever the others do and whatever faults are armed, the calls are the rounds of the walk, each made on the bucket
      it found, and `deleted` counts those of its deletes that succeeded (Trace); the walk goes on after every delete that
      drew NotFound, and those deletes' keys are the skipped ones, and it stops at the first call that draws any other
      fault and reports that fault.
      When the listed keys are deleted under their own names: on success what is left under q was written by others
      meanwhile or kept by an injected NotFound; and `deleted` is exactly the number of objects removed, on failure too,
      when no one else removes a key under q. */
  method Cleanup(c: S3Client, prefix: Key, others: Schedule)
    returns (deleted: nat, err: Option<Error>, ghost skipped: set<Key>, ghost rounds: seq<seq<Call>>, ghost pages: seq<Page>)
    modifies c.api
    ensures FaultsFrom(c.api.fail, Faults(old(c.api.fail)) + ScheduleEffects(others).arms)
    ensures Trace(c, old(c.api.View()), c.FullKey(Normalised(prefix)), others, 0, Flatten(rounds), deleted, c.api.View())
    ensures AreRounds(c, rounds, pages, c.FullKey(Normalised(prefix)), err.None?)
    ensures StopsWith(Flatten(rounds), err) && SkippedBy(c, skipped, Flatten(rounds))
    ensures skipped != {} ==> (DeleteOp, NotFound) in Faults(old(c.api.fail)) + ScheduleEffects(others).arms
    ensures err.Some? ==>
              || (ListOp, err.value) in Faults(old(c.api.fail)) + ScheduleEffects(others).arms
              || ((DeleteOp, err.value) in Faults(old(c.api.fail)) + ScheduleEffects(others).arms && err.value != NotFound)
    ensures err.None? && c.Faithful(c.FullKey(Normalised(prefix))) ==>
              forall k :: c.FullKey(Normalised(prefix)) <= k ==> Kept(k, c.api.objects, ScheduleEffects(others), skipped)
    ensures c.Faithful(c.FullKey(Normalised(prefix))) && ScheduleSpares(others, c.FullKey(Normalised(prefix))) ==>
              deleted == Hits(Flatten(rounds))
    ensures ScheduleEffects(others).Quiet() && c.Faithful(c.FullKey(Normalised(prefix))) ==>
              |c.api.objects| + deleted == |old(c.api.objects)|
  {
    hide Trace, AfterAll, Batch, ScheduleEffects, PageOf, JoinPrefix, FlatKeys, IsRound, RoundsSoFar, AreRounds, Flatten, Kept,
         StopsWith, SkippedBy, AllPassedOver;
    var p := if HasSlash(prefix) then prefix else prefix + "/";
    ghost var q, e, b := c.FullKey(p), ScheduleEffects(others), c.api.View();
    ghost var armed := Faults(c.api.fail) + e.arms;
    var token := "";
    var call := 0;
    deleted, err, skipped, rounds, pages := 0, None, {}, [], [];
    WalkStart(c, b, q, others);
    NothingPassed(c);
    while true
      invariant FaultsFrom(c.api.fail, armed) && err == None && call == |Flatten(rounds)|
      invariant Trace(c, b, q, others, 0, Flatten(rounds), deleted, c.api.View())
      invariant RoundsSoFar(c, rounds, pages, q) && token == TokenAt(pages, |pages|)
      invariant AllPassedOver(Flatten(rounds)) && SkippedBy(c, skipped, Flatten(rounds))
      invariant skipped != {} ==> (DeleteOp, NotFound) in armed
      invariant c.Faithful(q) ==> DoneBefore(q, token, c.api.objects, e, skipped)
      decreases if call < |others| then |others| - call else 0, |FlatKeys(c.api.objects.Keys, q, "", token)|
    {
      ghost var now := c.api.View();
      var page, n, failed;
      ghost var more, round;
      page, n, failed, more, round := SweepPage(c, p, token, others, call, armed, skipped);
      TraceConcat(c, b, q, others, 0, Flatten(rounds), deleted, now, round, n, c.api.View());
      FlattenSnoc(rounds, round);
      RoundsSnoc(c, rounds, pages, q, round, page, failed.None?);
      RoundSize(c, round, q, token, page);
      StopsConcat(Flatten(rounds), round, failed);
      SkippedConcat(c, skipped, Flatten(rounds), more, round);
      deleted := deleted + n;
      skipped, rounds, pages := skipped + more, rounds + [round], pages + [page];
      if failed.Some? || !page.truncated {
        err := failed;
        CountIsExact(c, b, q, others, Flatten(rounds), deleted, c.api.View());
        return;
      }
      AllPassed(Flatten(rounds));
      call := call + 1 + |page.keys|;
      token := page.next;
    }
  }

  lemma WalkStart(c: S3Client, b: Bucket, q: Key, others: Schedule)
    ensures Trace(c, b, q, others, 0, Flatten([]), 0, b) && RoundsSoFar(c, [], [], q) && Flatten([]) == []
  {
  }

  lemma RoundSize(c: S3Client, round: seq<Call>, q: Key, token: Key, page: Page)
    ensures IsRound(c, round, q, token, page, true) ==> |round| == 1 + |page.keys|
  {
    hide PageOf;
  }

  lemma CountIsExact(c: S3Client, b: Bucket, q: Key, others: Schedule, calls: seq<Call>, deleted: nat, now: Bucket)
    requires Trace(c, b, q, others, 0, calls, deleted, now)
    ensures c.Faithful(q) && ScheduleSpares(others, q) ==> deleted == Hits(calls)
    ensures ScheduleEffects(others).Quiet() && c.Faithful(q) ==> |now.objects| + deleted == |b.objects|
  {
    hide Happened, End, Hits, Misses, ScheduleSpares, ScheduleEffects, OnlyRemoved;
    if ScheduleEffects(others).Quiet() {
      QuietSpares(others, q);
    }
  }

  /** The count of a cleanup is the number of objects it removed exactly when none of its deletes came too late. */
  lemma CountExactIff(calls: seq<Call>, deleted: nat)
    requires deleted == Hits(calls) + Misses(calls)
    ensures deleted == Hits(calls) <==> forall i :: 0 <= i < |calls| ==> !IsMiss(calls[i])
  {
    hide IsMiss, Hits, Misses;
    NoMissIff(calls);
  }

  lemma {:induction false} NoMissIff(calls: seq<Call>)
    ensures Misses(calls) == 0 <==> forall i :: 0 <= i < |calls| ==> !IsMiss(calls[i])
  {
    if calls != [] {
      NoMissIff(calls[..|calls| - 1]);
      assert forall i :: 0 <= i < |calls| - 1 ==> calls[i] == calls[..|calls| - 1][i];
    }
  }

  // ----- consequences -----

  ghost function Outside(o: map<Key, Bytes>, p: Key): map<Key, Bytes> {
    map k | k in o && !(p <= k) :: o[k]
  }

  ghost function Inside(o: map<Key, Bytes>, p: Key): set<Key> {
    set k | k in o && p <= k
  }

  /** With nobody else changing objects and no false NotFound, a successful walk leaves exactly the objects outside the prefix. */
  lemma SuccessEmptiesPrefix(o: map<Key, Bytes>, o': map<Key, Bytes>, p: Key, e: Effects)
    requires e.Quiet() && e.writes <= e.touches && OnlyRemoved(o, o', p, e)
    requires forall k :: p <= k ==> Kept(k, o', e, {})
    ensures o' == Outside(o, p)
    ensures |o'| + |Inside(o, p)| == |o|
  {
    forall k ensures k in o' <==> k in Outside(o, p) {
      if p <= k {
        assert Kept(k, o', e, {});
      } else {
        assert SameAt(o, o', k);
      }
    }
    forall k | k in o' ensures o'[k] == o[k] {
      assert SameAt(o, o', k);
    }
    assert o.Keys == o'.Keys + Inside(o, p) && o'.Keys !! Inside(o, p);
    assert |o'| == |o'.Keys| && |o| == |o.Keys|;
  }

  /** Cleanup, then Cleanup again, when the listed keys are deleted under their own names: if the rerun succeeds, nothing
      is left under the prefix, nothing else changed, and the two counts sum to the number of objects there were,
      wherever the first run stopped.  `mid` is the bucket between the two. */
  method CleanupAndRerun(c: S3Client, prefix: Key, others: Schedule)
    returns (first: nat, second: nat, err: Option<Error>, ghost mid: Bucket, ghost rounds: seq<seq<Call>>,
             ghost again: seq<seq<Call>>, ghost pages: seq<Page>)
    requires c.Faithful(c.FullKey(Normalised(prefix))) && ScheduleEffects(others).Quiet()
    requires (DeleteOp, NotFound) !in Faults(c.api.fail) + ScheduleEffects(others).arms
    modifies c.api
    ensures Trace(c, old(c.api.View()), c.FullKey(Normalised(prefix)), others, 0, Flatten(rounds), first, mid)
    ensures Trace(c, mid, c.FullKey(Normalised(prefix)), [], 0, Flatten(again), second, c.api.View())
    ensures AreRounds(c, again, pages, c.FullKey(Normalised(prefix)), err.None?) && StopsWith(Flatten(again), err)
    ensures err.None? ==> c.api.objects == Outside(old(c.api.objects), c.FullKey(Normalised(prefix)))
    ensures err.None? ==> first + second == |Inside(old(c.api.objects), c.FullKey(Normalised(prefix)))|
    ensures err.Some? ==>
              || (ListOp, err.value) in Faults(old(c.api.fail)) + ScheduleEffects(others).arms
              || ((DeleteOp, err.value) in Faults(old(c.api.fail)) + ScheduleEffects(others).arms && err.value != NotFound)
    ensures others == [] && ListOp !in old(c.api.fail) && DeleteOp !in old(c.api.fail)
      ==> err.None? && second == 0
  {
    hide Trace, AreRounds, AfterAll, JoinPrefix, ScheduleEffects, Flatten, StopsWith, SkippedBy, Kept, Outside, Inside, OnlyRemoved;
    ghost var b, q := c.api.View(), c.FullKey(Normalised(prefix));
    var err1;
    ghost var skipped, pages1;
    first, err1, skipped, rounds, pages1 := Cleanup(c, prefix, others);
    mid := c.api.View();
    ghost var skipped2;
    NoOthers();
    second, err, skipped2, again, pages := Cleanup(c, prefix, []);
    TraceRemoves(c, b, q, others, 0, Flatten(rounds), first, mid);
    TraceRemoves(c, mid, q, [], 0, Flatten(again), second, c.api.View());
    OnlyRemovedTransitive(b.objects, mid.objects, c.api.objects, q, ScheduleEffects(others));
    if err.None? {
      Emptied(b, c.api.View(), q, others);
    }
    if others == [] && ListOp !in old(c.api.fail) && DeleteOp !in old(c.api.fail) {
      Emptied(b, mid, q, others);
    }
  }

  /** Nothing under the prefix was kept, and nobody else wrote there. */
  lemma Emptied(b: Bucket, now: Bucket, q: Key, others: Schedule)
    requires OnlyRemoved(b.objects, now.objects, q, ScheduleEffects(others)) && ScheduleEffects(others).Quiet()
    requires forall k :: q <= k ==> Kept(k, now.objects, ScheduleEffects([]), {})
    ensures now.objects == Outside(b.objects, q)
    ensures |now.objects| + |Inside(b.objects, q)| == |b.objects|
  {
    NoOthers();
    QuietEffects(others);
    SuccessEmptiesPrefix(b.objects, now.objects, q, ScheduleEffects(others));
  }

  lemma NoOthers()
    ensures ScheduleEffects([]) == Effects({}, {}, {})
  {
  }

  lemma QuietEffects(others: Schedule)
    requires ScheduleEffects(others).Quiet()
    ensures ScheduleEffects(others).writes == {}
  {
  }

  /** Behind a run prefix that is not empty and does not start with a slash, the cleanup of that prefix makes exactly the
      calls it would make with the store itself, so everything proved of Cleanup there holds here, q being the prefix. */
  lemma SameRounds(c: S3Client, d: S3Client, rounds: seq<seq<Call>>, pages: seq<Page>, finished: bool)
    requires c.naming.Under? && c.naming.prefix != "" && c.naming.prefix[0] != '/' && d.naming.AsIs?
    ensures var q := Normalised(c.naming.prefix);
            && c.FullKey(q) == q && c.Faithful(q) && d.Faithful(q)
            && (AreRounds(c, rounds, pages, q, finished) <==> AreRounds(d, rounds, pages, q, finished))
  {
    var q := Normalised(c.naming.prefix);
    PrefixedIsFixed(c.naming.prefix, q);
    CleanupFaithfulIff(c);
    hide IsRound, RoundsSoFar, JoinPrefix, Normalised, S3Client.FullKey, S3Client.Faithful;
    if |rounds| == |pages| > 0 {
      var n := |rounds| - 1;
      SameRoundsSoFar(c, d, rounds[..n], pages[..n], q);
      SameRound(c, d, q, rounds[n], TokenAt(pages[..n], n), pages[n], finished);
    }
  }

  lemma SameRoundsSoFar(c: S3Client, d: S3Client, rounds: seq<seq<Call>>, pages: seq<Page>, q: Key)
    requires c.Faithful(q) && d.Faithful(q)
    ensures RoundsSoFar(c, rounds, pages, q) <==> RoundsSoFar(d, rounds, pages, q)
  {
    hide IsRound, S3Client.Faithful;
    if |rounds| == |pages| {
      forall j | 0 <= j < |rounds| ensures FurtherRound(c, rounds, pages, q, j) <==> FurtherRound(d, rounds, pages, q, j) {
        SameRound(c, d, q, rounds[j], TokenAt(pages, j), pages[j], true);
      }
    }
  }

  lemma SameRound(c: S3Client, d: S3Client, q: Key, round: seq<Call>, token: Key, page: Page, complete: bool)
    requires c.Faithful(q) && d.Faithful(q)
    ensures IsRound(c, round, q, token, page, complete) <==> IsRound(d, round, q, token, page, complete)
  {
    if round != [] && round[0].ListCall? {
      var all := round[0].before.objects.Keys;
      PageServes(all, q, "", token, 1000);
      hide PageOf, S3Client.FullKey, JoinPrefix;
      PageKeysThere(round[0].before.objects, q, token, PageOf(all, q, "", token, 1000));
      assert forall i :: 0 <= i < |page.keys| ==> page.keys[i] in page.keys;
    }
  }

  /** The cleanup of the run prefix through the prefixing client. */
  method CleanupRunPrefix(c: S3Client, others: Schedule)
    returns (deleted: nat, err: Option<Error>, ghost skipped: set<Key>, ghost rounds: seq<seq<Call>>, ghost pages: seq<Page>)
    requires c.naming.Under? && c.naming.prefix != "" && c.naming.prefix[0] != '/'
    modifies c.api
    ensures Trace(c, old(c.api.View()), Normalised(c.naming.prefix), others, 0, Flatten(rounds), deleted, c.api.View())
    ensures AreRounds(c, rounds, pages, Normalised(c.naming.prefix), err.None?)
    ensures StopsWith(Flatten(rounds), err) && SkippedBy(c, skipped, Flatten(rounds))
    ensures err.None? ==> forall k :: Normalised(c.naming.prefix) <= k ==> Kept(k, c.api.objects, ScheduleEffects(others), skipped)
    ensures skipped != {} ==> (DeleteOp, NotFound) in Faults(old(c.api.fail)) + ScheduleEffects(others).arms
    ensures err.Some? ==>
              || (ListOp, err.value) in Faults(old(c.api.fail)) + ScheduleEffects(others).arms
              || ((DeleteOp, err.value) in Faults(old(c.api.fail)) + ScheduleEffects(others).arms && err.value != NotFound)
    ensures ScheduleSpares(others, Normalised(c.naming.prefix)) ==> deleted == Hits(Flatten(rounds))
    ensures ScheduleEffects(others).Quiet() ==> |c.api.objects| + deleted == |old(c.api.objects)|
  {
    hide Trace, AreRounds, AfterAll, JoinPrefix, Normalised, ScheduleEffects, Flatten, Kept;
    PrefixedIsFixed(c.naming.prefix, Normalised(c.naming.prefix));
    CleanupFaithfulIff(c);
    deleted, err, skipped, rounds, pages := Cleanup(c, c.naming.prefix, others);
  }

  lemma {:induction false} FlattenHead(rounds: seq<seq<Call>>)
    requires rounds != []
    ensures rounds[0] <= Flatten(rounds)
  {
    if |rounds| > 1 {
      FlattenHead(rounds[..|rounds| - 1]);
    }
  }

  lemma OneKeyPage(page: Page, k: Key)
    requires Serves(page, {k}) && (page.truncated ==> |page.keys| == 1000)
    ensures page.keys == [k] && !page.truncated
  {
    if |page.keys| > 1 {
      assert page.keys[0] in page.keys && page.keys[1] in page.keys;
      LessIrreflexive(k);
    }
  }

  lemma FirstRound(c: S3Client, rounds: seq<seq<Call>>, pages: seq<Page>, q: Key)
    requires AreRounds(c, rounds, pages, q, true)
    ensures IsRound(c, rounds[0], q, "", pages[0], true) && (pages[0].truncated <==> |rounds| > 1)
  {
    hide IsRound;
    var n := |rounds| - 1;
    if n > 0 {
      assert FurtherRound(c, rounds[..n], pages[..n], q, 0);
    }
  }

  /** Listing a bucket that holds one key under the prefix, then its only page is deleted: the walk is that one round. */
  lemma OneKeyRounds(c: S3Client, b: Bucket, k: Key, others: Schedule, rounds: seq<seq<Call>>, pages: seq<Page>)
    requires c.naming.AsIs? && b.objects.Keys == {k} && "p/" <= k && Batch(others, 0) == []
    requires AreRounds(c, rounds, pages, "p/", true) && Happened(b, others, 0, Flatten(rounds))
    ensures var calls := Flatten(rounds);
            |calls| == 2 && calls[0] == ListCall(b) && calls[1].DeleteCall? && calls[1].key == k
  {
    hide PageOf;
    var calls, round, page := Flatten(rounds), rounds[0], pages[0];
    FlattenHead(rounds);
    FirstRound(c, rounds, pages, "p/");
    assert round[0] == calls[0] && CallAt(b, others, 0, calls, 0) && calls[..0] == [];
    PageServes(b.objects.Keys, "p/", "", "", 1000);
    assert FlatKeys({k}, "p/", "", "") == {k};
    OneKeyPage(page, k);
    assert rounds == [round] && calls == [] + round;
  }

  lemma AfterRemove(b: Bucket, k: Key)
    requires b.fail == map[]
    ensures var b' := AfterAll(b, [Remove(k)]); b'.fail == map[] && k !in b'.objects
  {
    var acts := [Remove(k)];
    assert acts[1..] == [] && acts[0] == Remove(k);
  }

  /** A list, then a delete of a key that another removed in between. */
  lemma MissingKeyCounted(b: Bucket, k: Key, calls: seq<Call>)
    requires b.fail == map[]
    requires |calls| == 2 && calls[0] == ListCall(b) && calls[1].DeleteCall? && calls[1].key == k
    requires Happened(b, [[], [Remove(k)]], 0, calls)
    ensures Hits(calls) == 0 && Misses(calls) == 1
  {
    hide AfterAll, Hits, Misses, DeleteStep;
    var list, delete := calls[0], calls[1];
    assert CallAt(b, [[], [Remove(k)]], 0, calls, 1);
    assert calls[..1] == [list];
    assert delete.before == AfterAll(b, [Remove(k)]);
    AfterRemove(b, k);
    NoCalls();
    CountsSnoc([], list);
    CountsSnoc([list], delete);
    assert [] + [list] == [list] && [list] + [delete] == calls;
  }

  lemma NoCalls()
    ensures Hits([]) == 0 && Misses([]) == 0
  {
  }

  /** The count is not always the number of objects removed: another goroutine removes the only key after it was listed,
      and the delete of the missing key succeeds and is counted. */
  method CountsMissingKey(c: S3Client, data: Bytes) returns (deleted: nat, err: Option<Error>, ghost rounds: seq<seq<Call>>, ghost pages: seq<Page>)
    requires c.naming.AsIs? && c.api.objects == map["p/x" := data] && c.api.fail == map[]
    modifies c.api
    ensures AreRounds(c, rounds, pages, "p/", true)
    ensures Happened(old(c.api.View()), [[], [Remove("p/x")]], 0, Flatten(rounds))
    ensures c.api.View() == End(old(c.api.View()), Flatten(rounds))
    ensures deleted == 1 && err.None? && Hits(Flatten(rounds)) == 0 && Misses(Flatten(rounds)) == 1
  {
    hide Trace, AreRounds, StopsWith, SkippedBy, End, Happened, Flatten, ScheduleEffects, Normalised, JoinPrefix, AfterAll, Hits, Misses, Kept, S3Client.Faithful;
    var others: Schedule := [[], [Remove("p/x")]];
    ghost var b := c.api.View();
    ghost var skipped;
    deleted, err, skipped, rounds, pages := Cleanup(c, "p", others);
    ghost var calls := Flatten(rounds);
    PrefixOfP();
    RemovalsArmNothing("p/x");
    TraceCalls(c, b, "p/", others, calls, deleted, c.api.View());
    OneKeyRounds(c, b, "p/x", others, rounds, pages);
    MissingKeyCounted(b, "p/x", calls);
  }

  lemma PrefixOfP()
    ensures Normalised("p") == "p/" && "p/" <= "p/x"
  {
    assert Normalised("p") == "p" + "/";
    assert "p/x" == "p/" + "x";
  }

  lemma TraceCalls(c: S3Client, b: Bucket, q: Key, others: Schedule, calls: seq<Call>, deleted: nat, now: Bucket)
    requires Trace(c, b, q, others, 0, calls, deleted, now)
    ensures Happened(b, others, 0, calls) && now == End(b, calls) && deleted == Hits(calls) + Misses(calls)
  {
  }

  lemma RemovalsArmNothing(k: Key)
    ensures ScheduleEffects([[], [Remove(k)]]).arms == {}
  {
    var acts := [Remove(k)];
    var last: Schedule := [acts];
    var others: Schedule := [[]] + last;
    assert acts[1..] == [] && EffectsOf(acts).arms == {};
    assert last[1..] == [] && ScheduleEffects(last).arms == {};
    assert others[1..] == last && others[0] == [];
    assert ScheduleEffects(others).arms == {};
    assert others == [[], [Remove(k)]];
  }
}
