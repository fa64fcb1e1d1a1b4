/** The checkpoint retention protocol.  Any number of writers each claim a number, upload an object, append its key to
    the shared version list and trim that list under the mutex, and delete what was trimmed outside it, while a resume
    reader picks the newest version and fetches it.  Every atomic step is a `Step`; a run is any sequence of enabled steps. */
module Checkpoint {
  import opened Wrappers
  import opened Lex
  import opened Store
  import opened Arith
  import Keys
  import Sets
  import SafetyCleanup
  import ClaimCounter

  function KeyFor(name: string, n: nat): Key {
    Keys.Padded(name + "/ckpt-", n, 8)
  }

  /** The text of a checkpoint's key: the workload's name, "/ckpt-", and at least eight digits. */
  lemma KeyText(name: string, n: nat) returns (digits: string)
    ensures KeyFor(name, n) == name + "/ckpt-" + digits && Keys.IsDecimal(digits, n, 8)
  {
    digits := Keys.PaddedText(name + "/ckpt-", n, 8);
  }

  /** The critical section of a write: append the key, keep the last `retain` versions, hand back the rest. */
  function AppendTrim(versions: seq<Key>, key: Key, retain: nat): (seq<Key>, seq<Key>) {
    var all := versions + [key];
    if |all| > retain then (all[|all| - retain..], all[..|all| - retain]) else (all, [])
  }

  datatype Config = Config(name: string, retain: nat)

  datatype Phase = Idle | Claimed(key: Key) | Uploaded(key: Key) | Deleting(todo: seq<Key>)

  datatype Reader = Resting | Chosen(key: Key, after: nat)

  /** `history` records every key ever appended, and `stuck` the trimmed keys whose delete did not remove them.
      A chosen key remembers how many appends had happened when it was chosen. */
  datatype State = State(counter: nat, versions: seq<Key>, objects: map<Key, Bytes>, writers: seq<Phase>, reader: Reader,
                         history: seq<Key>, stuck: set<Key>)

  datatype Step =
    | Claim(w: nat)
    | Upload(w: nat, data: Bytes)
    | FailUpload(w: nat)
    | Append(w: nat)
    | Delete(w: nat)
    | FailDelete(w: nat)
    | Choose
    | Get
    | Foreign(key: Key, change: Option<Bytes>)

  ghost predicate Owned(cfg: Config, k: Key) {
    exists n: nat :: KeyFor(cfg.name, n) == k
  }

  /** Whoever the step is of stands where the step can be taken. */
  predicate Ready(s: State, step: Step) {
    match step
    case Claim(w) => w < |s.writers| && s.writers[w].Idle?
    case Upload(w, _) => w < |s.writers| && s.writers[w].Claimed?
    case FailUpload(w) => w < |s.writers| && s.writers[w].Claimed?
    case Append(w) => w < |s.writers| && s.writers[w].Uploaded?
    case Delete(w) => w < |s.writers| && s.writers[w].Deleting? && s.writers[w].todo != []
    case FailDelete(w) => w < |s.writers| && s.writers[w].Deleting? && s.writers[w].todo != []
    case Choose => s.reader.Resting? && s.versions != []
    case Get => s.reader.Chosen?
    case Foreign(_, _) => true
  }

  ghost predicate Enabled(cfg: Config, s: State, step: Step) {
    Ready(s, step) && (step.Foreign? ==> !Owned(cfg, step.key))
  }

  /** The step is one of writer w. */
  predicate By(step: Step, w: nat) {
    match step
    case Claim(v) => v == w
    case Upload(v, _) => v == w
    case FailUpload(v) => v == w
    case Append(v) => v == w
    case Delete(v) => v == w
    case FailDelete(v) => v == w
    case _ => false
  }

  function AfterDelete(todo: seq<Key>): Phase {
    if todo == [] then Idle else Deleting(todo)
  }

  function Next(cfg: Config, s: State, step: Step): State
    requires Enabled(cfg, s, step)
  {
    match step
    case Claim(w) =>
      s.(counter := s.counter + 1, writers := s.writers[w := Claimed(KeyFor(cfg.name, s.counter + 1))])
    case Upload(w, data) =>
      var k := s.writers[w].key;
      s.(objects := s.objects[k := data], writers := s.writers[w := Uploaded(k)])
    case FailUpload(w) => s.(writers := s.writers[w := Idle])
    case Append(w) =>
      var k := s.writers[w].key;
      var (kept, todo) := AppendTrim(s.versions, k, cfg.retain);
      s.(versions := kept, history := s.history + [k], writers := s.writers[w := AfterDelete(todo)])
    case Delete(w) =>
      var todo := s.writers[w].todo;
      s.(objects := s.objects - {todo[0]}, writers := s.writers[w := AfterDelete(todo[1..])])
    case FailDelete(w) =>
      var todo := s.writers[w].todo;
      s.(stuck := s.stuck + {todo[0]}, writers := s.writers[w := AfterDelete(todo[1..])])
    case Choose => s.(reader := Chosen(s.versions[|s.versions| - 1], |s.history|))
    case Get => s.(reader := Resting)
    case Foreign(key, Some(data)) => s.(objects := s.objects[key := data])
    case Foreign(key, None) => s.(objects := s.objects - {key})
  }

  /** The objects a writer has in the store that the version list does not track: uploaded and not yet appended,
      or trimmed and not yet deleted. */
  function InHand(p: Phase): set<Key> {
    match p
    case Uploaded(k) => {k}
    case Deleting(todo) => set k | k in todo
    case _ => {}
  }

  function KeysOf(p: Phase): set<Key> {
    if p.Claimed? then {p.key} else InHand(p)
  }

  ghost predicate Issued(cfg: Config, counter: nat, k: Key) {
    exists n: nat :: 1 <= n <= counter && KeyFor(cfg.name, n) == k
  }

  /** `versions` is the last min(retain, appended) keys of the append history. */
  ghost predicate Window(cfg: Config, s: State) {
    s.versions == s.history[|s.history| - Min(cfg.retain, |s.history|)..]
  }

  ghost predicate Held(s: State, k: Key) {
    exists w :: 0 <= w < |s.writers| && k in InHand(s.writers[w])
  }

  /** No key is in two places, and a writer holds at most one object. */
  ghost predicate Apart(s: State) {
    && Distinct(s.history)
    && (forall v, w :: 0 <= v < w < |s.writers| ==> KeysOf(s.writers[v]) !! KeysOf(s.writers[w]))
    && (forall w, k :: 0 <= w < |s.writers| && k in KeysOf(s.writers[w]) ==> k !in s.versions && k !in s.stuck)
    && (forall w :: 0 <= w < |s.writers| && s.writers[w].Deleting? ==> |s.writers[w].todo| == 1)
    && (forall w :: 0 <= w < |s.writers| && (s.writers[w].Claimed? || s.writers[w].Uploaded?) ==> s.writers[w].key !in s.history)
    && (forall k :: k in s.stuck ==> k !in s.versions && k in s.history)
    && (forall w, k :: 0 <= w < |s.writers| && s.writers[w].Deleting? && k in s.writers[w].todo ==> k in s.history)
  }

  /** A checkpoint object is stored exactly when it is tracked, held by a writer, or stuck. */
  ghost predicate Accounted(cfg: Config, s: State) {
    forall k :: Owned(cfg, k) ==> (k in s.objects <==> k in s.versions || Held(s, k) || k in s.stuck)
  }

  ghost predicate AllIssued(cfg: Config, s: State) {
    && (forall k :: k in s.history ==> Issued(cfg, s.counter, k))
    && (forall w, k :: 0 <= w < |s.writers| && k in KeysOf(s.writers[w]) ==> Issued(cfg, s.counter, k))
  }

  /** The chosen key was the newest one when it was chosen. */
  ghost predicate ReaderInv(s: State) {
    s.reader.Chosen? ==> 1 <= s.reader.after <= |s.history| && s.history[s.reader.after - 1] == s.reader.key
  }

  ghost predicate Inv(cfg: Config, s: State) {
    Window(cfg, s) && Apart(s) && Accounted(cfg, s) && AllIssued(cfg, s) && ReaderInv(s)
  }

  // ----- every step keeps the invariant -----

  lemma HeldAfter(s: State, s': State, w: nat)
    requires w < |s.writers| == |s'.writers| && s'.writers == s.writers[w := s'.writers[w]]
    requires forall v :: 0 <= v < |s.writers| && v != w ==> KeysOf(s.writers[v]) !! KeysOf(s.writers[w])
    ensures forall k :: Held(s', k) <==> k in InHand(s'.writers[w]) || (Held(s, k) && k !in InHand(s.writers[w]))
  {
    forall k ensures Held(s', k) <==> k in InHand(s'.writers[w]) || (Held(s, k) && k !in InHand(s.writers[w])) {
      if Held(s, k) && k !in InHand(s.writers[w]) {
        var v :| 0 <= v < |s.writers| && k in InHand(s.writers[v]);
        assert s'.writers[v] == s.writers[v];
      }
      if k in InHand(s'.writers[w]) {
        assert Held(s', k);
      }
      if Held(s', k) {
        var v :| 0 <= v < |s'.writers| && k in InHand(s'.writers[v]);
        assert v == w || (k in KeysOf(s.writers[v]) && KeysOf(s.writers[v]) !! KeysOf(s.writers[w]));
      }
    }
  }

  lemma OthersApart(s: State, w: nat)
    requires Apart(s) && w < |s.writers|
    ensures forall v :: 0 <= v < |s.writers| && v != w ==> KeysOf(s.writers[v]) !! KeysOf(s.writers[w])
  {
    forall v | 0 <= v < |s.writers| && v != w ensures KeysOf(s.writers[v]) !! KeysOf(s.writers[w]) {
      if v < w {
      } else {
        assert KeysOf(s.writers[w]) !! KeysOf(s.writers[v]);
      }
    }
  }

  lemma ClaimApart(cfg: Config, s: State, s': State, w: nat, k: Key)
    requires Apart(s) && AllIssued(cfg, s) && Window(cfg, s) && w < |s.writers| && s.writers[w].Idle?
    requires s' == s.(counter := s.counter + 1, writers := s.writers[w := Claimed(k)])
    requires !Issued(cfg, s.counter, k)
    ensures Apart(s')
  {
    VersionsInHistory(cfg, s);
    assert k !in s.history && k !in s.versions && k !in s.stuck;
    forall u, v | 0 <= u < v < |s'.writers| ensures KeysOf(s'.writers[u]) !! KeysOf(s'.writers[v]) {
      if u != w && v != w {
        assert KeysOf(s.writers[u]) !! KeysOf(s.writers[v]);
      } else {
        var o := if u == w then v else u;
        assert k !in KeysOf(s.writers[o]);
      }
    }
  }

  lemma ClaimKeepsInv(cfg: Config, s: State, w: nat)
    requires Inv(cfg, s) && Enabled(cfg, s, Claim(w))
    ensures Inv(cfg, Next(cfg, s, Claim(w)))
  {
    hide Apart, Accounted, AllIssued, Issued, KeyFor;
    var s', k := Next(cfg, s, Claim(w)), KeyFor(cfg.name, s.counter + 1);
    FreshKey(cfg, s.counter);
    ClaimApart(cfg, s, s', w, k);
    ClaimAccounted(cfg, s, s', w, k);
  }

  lemma ClaimAccounted(cfg: Config, s: State, s': State, w: nat, k: Key)
    requires Apart(s) && Accounted(cfg, s) && AllIssued(cfg, s) && w < |s.writers| && s.writers[w].Idle?
    requires s' == s.(counter := s.counter + 1, writers := s.writers[w := Claimed(k)])
    requires Issued(cfg, s'.counter, k)
    ensures Accounted(cfg, s') && AllIssued(cfg, s')
  {
    OthersApart(s, w);
    HeldAfter(s, s', w);
    IssuedGrows(cfg, s.counter);
    hide Apart, KeyFor, Issued;
    forall v, x | 0 <= v < |s'.writers| && x in KeysOf(s'.writers[v]) ensures Issued(cfg, s'.counter, x) {
      if v == w {
        assert x == k;
      } else {
        assert s'.writers[v] == s.writers[v] && Issued(cfg, s.counter, x);
      }
    }
  }

  lemma FreshKey(cfg: Config, counter: nat)
    ensures !Issued(cfg, counter, KeyFor(cfg.name, counter + 1))
    ensures Issued(cfg, counter + 1, KeyFor(cfg.name, counter + 1))
  {
    if n: nat :| 1 <= n <= counter && KeyFor(cfg.name, n) == KeyFor(cfg.name, counter + 1) {
      Keys.PaddedInjective(cfg.name + "/ckpt-", n, counter + 1, 8);
    }
  }

  lemma IssuedGrows(cfg: Config, counter: nat)
    ensures forall k :: Issued(cfg, counter, k) ==> Issued(cfg, counter + 1, k) && Owned(cfg, k)
  {
  }

  lemma UploadKeepsInv(cfg: Config, s: State, step: Step)
    requires Inv(cfg, s) && Enabled(cfg, s, step) && (step.Upload? || step.FailUpload?)
    ensures Inv(cfg, Next(cfg, s, step))
  {
    hide KeyFor;
    var s', w := Next(cfg, s, step), step.w;
    OthersApart(s, w);
    HeldAfter(s, s', w);
    assert KeysOf(s'.writers[w]) <= KeysOf(s.writers[w]);
    assert s.writers[w].key in KeysOf(s.writers[w]);
  }

  /** Appending keeps the window, and trims at most one key, the oldest tracked one. */
  lemma TrimFacts(history: seq<Key>, versions: seq<Key>, k: Key, retain: nat)
    requires Distinct(history + [k]) && versions == history[|history| - Min(retain, |history|)..]
    ensures var (kept, todo) := AppendTrim(versions, k, retain);
            var after := history + [k];
            && kept == after[|after| - Min(retain, |after|)..]
            && |todo| <= 1
            && (forall x :: x in versions || x == k <==> x in kept || x in todo)
            && (forall x :: x in todo ==> x !in kept && x in after)
  {
    TrimShape(history, versions, k, retain);
    var (kept, todo) := AppendTrim(versions, k, retain);
    var after, all := history + [k], versions + [k];
    hide AppendTrim, Min;
    DistinctSplit(after, |after| - |all|, |todo|);
    MembersOfSplit(all, |todo|);
    MembersOfSplit(all, |versions|);
    assert all[..|versions|] == versions && all[|versions|..] == [k];
  }

  lemma TrimShape(history: seq<Key>, versions: seq<Key>, k: Key, retain: nat)
    requires versions == history[|history| - Min(retain, |history|)..]
    ensures var (kept, todo) := AppendTrim(versions, k, retain);
            var after, all := history + [k], versions + [k];
            && |todo| <= 1 && |all| <= |after|
            && all == after[|after| - |all|..] && todo == all[..|todo|] && kept == all[|todo|..]
            && kept == after[|after| - Min(retain, |after|)..]
  {
  }

  lemma MembersOfSplit(s: seq<Key>, n: nat)
    requires n <= |s|
    ensures forall x :: x in s <==> x in s[..n] || x in s[n..]
  {
    assert s == s[..n] + s[n..];
  }

  lemma DistinctSplit(s: seq<Key>, m: nat, n: nat)
    requires Distinct(s) && m + n <= |s|
    ensures forall x :: x in s[m..][..n] ==> x in s && x !in s[m..][n..]
  {
  }

  lemma UploadedFresh(s: State, w: nat)
    requires Apart(s) && w < |s.writers| && s.writers[w].Uploaded?
    ensures Distinct(s.history) && s.writers[w].key !in s.history
    ensures s.writers[w].key !in s.versions && s.writers[w].key !in s.stuck
    ensures forall v :: 0 <= v < |s.writers| && v != w ==> s.writers[w].key !in KeysOf(s.writers[v])
  {
    OthersApart(s, w);
    assert s.writers[w].key in KeysOf(s.writers[w]);
  }

  lemma AppendFacts(cfg: Config, s: State, w: nat) returns (todo: seq<Key>)
    requires Window(cfg, s) && Apart(s) && Enabled(cfg, s, Append(w))
    ensures var s', k := Next(cfg, s, Append(w)), s.writers[w].key;
            && Window(cfg, s') && Distinct(s'.history)
            && s'.history == s.history + [k]
            && s'.writers == s.writers[w := AfterDelete(todo)] && |todo| <= 1
            && (forall x :: x in s'.versions || x in todo <==> x in s.versions || x == k)
            && (forall x :: x in todo ==> x !in s'.versions && x in s'.history)
  {
    var k := s.writers[w].key;
    UploadedFresh(s, w);
    hide Apart;
    DistinctSnoc(s.history, k);
    TrimFacts(s.history, s.versions, k, cfg.retain);
    todo := AppendTrim(s.versions, k, cfg.retain).1;
  }

  /** Apart is kept when writer w swaps its uploaded key for at most one trimmed one. */
  lemma SwapApart(s: State, s': State, w: nat, k: Key, todo: seq<Key>)
    requires Apart(s) && w < |s.writers| && s.writers[w] == Uploaded(k)
    requires s'.writers == s.writers[w := AfterDelete(todo)] && |todo| <= 1 && s'.stuck == s.stuck
    requires Distinct(s'.history) && s'.history == s.history + [k]
    requires forall x :: x in s.versions ==> x in s.history
    requires forall x :: x in s'.versions || x in todo <==> x in s.versions || x == k
    requires forall x :: x in todo ==> x !in s'.versions && x in s'.history
    ensures Apart(s')
  {
    UploadedFresh(s, w);
    forall v, x | 0 <= v < |s'.writers| && x in KeysOf(s'.writers[v]) ensures x !in s'.versions && x !in s'.stuck {
      if v == w {
        assert x in todo;
      }
    }
    forall u, v | 0 <= u < v < |s'.writers| ensures KeysOf(s'.writers[u]) !! KeysOf(s'.writers[v]) {
      if u != w && v != w {
        assert KeysOf(s.writers[u]) !! KeysOf(s.writers[v]);
      } else {
        var o := if u == w then v else u;
        assert forall x :: x in KeysOf(s.writers[o]) ==> x !in s.versions && x != k;
      }
    }
    assert forall x :: x in s'.history <==> x in s.history || x == k;
  }

  lemma AppendAccounted(cfg: Config, s: State, s': State, w: nat, k: Key, todo: seq<Key>)
    requires Accounted(cfg, s) && AllIssued(cfg, s) && Apart(s) && w < |s.writers| && s.writers[w] == Uploaded(k)
    requires s'.writers == s.writers[w := AfterDelete(todo)]
    requires s'.stuck == s.stuck && s'.objects == s.objects && s'.counter == s.counter
    requires s'.history == s.history + [k]
    requires forall x :: x in s.versions ==> x in s.history
    requires forall x :: x in s'.versions || x in todo <==> x in s.versions || x == k
    ensures Accounted(cfg, s') && AllIssued(cfg, s')
  {
    OthersApart(s, w);
    HeldAfter(s, s', w);
    hide Apart;
    assert forall x :: x in InHand(s'.writers[w]) <==> x in todo;
    assert k in InHand(s.writers[w]) && k in KeysOf(s.writers[w]);
    assert Held(s, k);
    forall v, x | 0 <= v < |s'.writers| && x in KeysOf(s'.writers[v]) ensures Issued(cfg, s'.counter, x) {
      assert v != w ==> x in KeysOf(s.writers[v]);
      assert v == w ==> x in s.history || x == k;
    }
  }

  lemma AppendKeepsInv(cfg: Config, s: State, w: nat)
    requires Inv(cfg, s) && Enabled(cfg, s, Append(w))
    ensures Inv(cfg, Next(cfg, s, Append(w)))
  {
    hide Apart, Accounted, AllIssued;
    var s', k := Next(cfg, s, Append(w)), s.writers[w].key;
    var todo := AppendFacts(cfg, s, w);
    VersionsInHistory(cfg, s);
    hide Window, AppendTrim;
    SwapApart(s, s', w, k, todo);
    AppendAccounted(cfg, s, s', w, k, todo);
  }

  lemma DistinctSnoc(s: seq<Key>, k: Key)
    requires Distinct(s) && k !in s
    ensures Distinct(s + [k])
  {
  }

  lemma VersionsInHistory(cfg: Config, s: State)
    requires Window(cfg, s)
    ensures forall k :: k in s.versions ==> k in s.history
  {
  }

  lemma DeleteFacts(cfg: Config, s: State, step: Step)
    requires Inv(cfg, s) && Enabled(cfg, s, step) && (step.Delete? || step.FailDelete?)
    ensures var s', k := Next(cfg, s, step), s.writers[step.w].todo[0];
            && s'.writers == s.writers[step.w := Idle]
            && KeysOf(s.writers[step.w]) == InHand(s.writers[step.w]) == {k}
            && k in s.history && k !in s.versions && k !in s.stuck
  {
    var todo := s.writers[step.w].todo;
    assert todo == [todo[0]];
    assert todo[0] in KeysOf(s.writers[step.w]);
  }

  lemma DeleteApart(cfg: Config, s: State, step: Step)
    requires Inv(cfg, s) && Enabled(cfg, s, step) && (step.Delete? || step.FailDelete?)
    ensures Apart(Next(cfg, s, step))
  {
    hide Accounted, AllIssued, KeyFor;
    DeleteFacts(cfg, s, step);
    OthersApart(s, step.w);
  }

  /** A key leaves a writer's hands either by leaving the store or by getting stuck in it. */
  lemma DropAccounted(cfg: Config, s: State, s': State, w: nat, k: Key)
    requires Accounted(cfg, s) && AllIssued(cfg, s) && Apart(s) && w < |s.writers|
    requires KeysOf(s.writers[w]) == InHand(s.writers[w]) == {k} && s'.writers == s.writers[w := Idle]
    requires s'.versions == s.versions && s'.history == s.history && s'.counter == s.counter
    requires k !in s.versions && k !in s.stuck
    requires (s'.objects == s.objects - {k} && s'.stuck == s.stuck) || (s'.objects == s.objects && s'.stuck == s.stuck + {k})
    ensures Accounted(cfg, s') && AllIssued(cfg, s')
  {
    OthersApart(s, w);
    HeldAfter(s, s', w);
    hide Apart;
    assert Held(s, k);
    forall v, x | 0 <= v < |s'.writers| && x in KeysOf(s'.writers[v]) ensures Issued(cfg, s'.counter, x) {
      assert v != w && x in KeysOf(s.writers[v]);
    }
  }

  lemma DeleteKeepsInv(cfg: Config, s: State, step: Step)
    requires Inv(cfg, s) && Enabled(cfg, s, step) && (step.Delete? || step.FailDelete?)
    ensures Inv(cfg, Next(cfg, s, step))
  {
    hide Apart, Accounted, AllIssued, KeyFor;
    var s', w := Next(cfg, s, step), step.w;
    DeleteApart(cfg, s, step);
    DeleteFacts(cfg, s, step);
    DropAccounted(cfg, s, s', w, s.writers[w].todo[0]);
  }

  lemma SameWriters(cfg: Config, s: State, s': State)
    requires s'.writers == s.writers && s'.versions == s.versions && s'.history == s.history
    requires s'.stuck == s.stuck && s'.counter == s.counter
    ensures Apart(s) ==> Apart(s')
    ensures AllIssued(cfg, s) ==> AllIssued(cfg, s')
    ensures forall k :: Held(s', k) <==> Held(s, k)
  {
  }

  lemma OtherStepsKeepInv(cfg: Config, s: State, step: Step)
    requires Inv(cfg, s) && Enabled(cfg, s, step) && (step.Choose? || step.Get? || step.Foreign?)
    ensures Inv(cfg, Next(cfg, s, step))
  {
    hide Apart, AllIssued, Held, Accounted, Owned, Window;
    var s' := Next(cfg, s, step);
    SameWriters(cfg, s, s');
    SameObjects(cfg, s, s');
    if step.Choose? {
      NewestTracked(cfg, s);
    }
  }

  lemma SameObjects(cfg: Config, s: State, s': State)
    requires forall k :: Owned(cfg, k) ==> (k in s'.objects <==> k in s.objects)
    requires s'.versions == s.versions && s'.stuck == s.stuck && s'.history == s.history
    requires forall k :: Held(s', k) <==> Held(s, k)
    ensures Accounted(cfg, s) ==> Accounted(cfg, s')
    ensures Window(cfg, s) ==> Window(cfg, s')
  {
  }

  lemma NewestTracked(cfg: Config, s: State)
    requires Window(cfg, s) && s.versions != []
    ensures s.history != [] && s.versions[|s.versions| - 1] == s.history[|s.history| - 1]
  {
  }

  lemma StepKeepsInv(cfg: Config, s: State, step: Step)
    requires Inv(cfg, s) && Enabled(cfg, s, step)
    ensures Inv(cfg, Next(cfg, s, step))
  {
    match step
    case Claim(w) => ClaimKeepsInv(cfg, s, w);
    case Upload(_, _) => UploadKeepsInv(cfg, s, step);
    case FailUpload(_) => UploadKeepsInv(cfg, s, step);
    case Append(w) => AppendKeepsInv(cfg, s, w);
    case Delete(_) => DeleteKeepsInv(cfg, s, step);
    case FailDelete(_) => DeleteKeepsInv(cfg, s, step);
    case _ => OtherStepsKeepInv(cfg, s, step);
  }

  // ----- runs -----

  ghost predicate ValidRun(cfg: Config, s: State, steps: seq<Step>)
    decreases |steps|
  {
    steps != [] ==> Enabled(cfg, s, steps[0]) && ValidRun(cfg, Next(cfg, s, steps[0]), steps[1..])
  }

  ghost function Run(cfg: Config, s: State, steps: seq<Step>): State
    requires ValidRun(cfg, s, steps)
    decreases |steps|
  {
    if steps == [] then s else Run(cfg, Next(cfg, s, steps[0]), steps[1..])
  }

  /** A fresh workload: nothing claimed, nothing tracked, none of its objects stored, everybody idle. */
  ghost predicate Start(cfg: Config, s: State) {
    && s.counter == 0 && s.versions == [] && s.history == [] && s.stuck == {} && s.reader == Resting
    && (forall w :: 0 <= w < |s.writers| ==> s.writers[w] == Idle)
    && (forall k :: k in s.objects ==> !Owned(cfg, k))
  }

  lemma {:induction false} RunKeepsInv(cfg: Config, s: State, steps: seq<Step>)
    requires Inv(cfg, s) && ValidRun(cfg, s, steps)
    ensures Inv(cfg, Run(cfg, s, steps))
    ensures s.history <= Run(cfg, s, steps).history && s.stuck <= Run(cfg, s, steps).stuck
    ensures |Run(cfg, s, steps).writers| == |s.writers|
    decreases |steps|
  {
    if steps != [] {
      StepKeepsInv(cfg, s, steps[0]);
      RunKeepsInv(cfg, Next(cfg, s, steps[0]), steps[1..]);
    }
  }

  /** Every state reachable from a fresh workload, in any interleaving, satisfies the invariant. */
  lemma Reachable(cfg: Config, s: State, steps: seq<Step>)
    requires Start(cfg, s) && ValidRun(cfg, s, steps)
    ensures Inv(cfg, Run(cfg, s, steps))
    ensures |Run(cfg, s, steps).writers| == |s.writers|
  {
    StartInv(cfg, s);
    RunKeepsInv(cfg, s, steps);
  }

  lemma StartInv(cfg: Config, s: State)
    requires Start(cfg, s)
    ensures Inv(cfg, s)
  {
    forall w | 0 <= w < |s.writers| ensures KeysOf(s.writers[w]) == {} {
      assert s.writers[w] == Idle;
    }
    assert forall k :: !Held(s, k);
  }

  // ----- the main results -----

  /** The version list is exactly the last min(retain, appended) keys appended, in order. */
  lemma VersionsAreNewest(cfg: Config, s: State, steps: seq<Step>)
    requires Start(cfg, s) && ValidRun(cfg, s, steps)
    ensures var t := Run(cfg, s, steps);
            t.versions == t.history[|t.history| - Min(cfg.retain, |t.history|)..] && Distinct(t.history)
  {
    Reachable(cfg, s, steps);
  }

  ghost predicate AwaitingAppend(s: State, k: Key) {
    exists w :: 0 <= w < |s.writers| && s.writers[w] == Uploaded(k)
  }

  ghost predicate AwaitingDelete(s: State, k: Key) {
    exists w :: 0 <= w < |s.writers| && s.writers[w].Deleting? && k in s.writers[w].todo
  }

  /** The stored checkpoints are the disjoint union of four kinds: tracked, uploaded but not appended,
      trimmed but not yet deleted, and trimmed with a failed delete. */
  lemma StoredCheckpoints(cfg: Config, s: State, steps: seq<Step>, k: Key)
    requires Start(cfg, s) && ValidRun(cfg, s, steps) && Owned(cfg, k)
    ensures var t := Run(cfg, s, steps);
            && (k in t.objects <==> k in t.versions || AwaitingAppend(t, k) || AwaitingDelete(t, k) || k in t.stuck)
            && !(k in t.versions && (AwaitingAppend(t, k) || AwaitingDelete(t, k) || k in t.stuck))
            && !(AwaitingAppend(t, k) && (AwaitingDelete(t, k) || k in t.stuck))
            && !(AwaitingDelete(t, k) && k in t.stuck)
  {
    Reachable(cfg, s, steps);
    var t := Run(cfg, s, steps);
    HeldKinds(t, k);
    forall w | 0 <= w < |t.writers| && k in InHand(t.writers[w]) ensures k !in t.versions && k !in t.stuck {
      assert k in KeysOf(t.writers[w]);
    }
  }

  lemma HeldKinds(t: State, k: Key)
    requires Apart(t)
    ensures Held(t, k) <==> AwaitingAppend(t, k) || AwaitingDelete(t, k)
    ensures !(AwaitingAppend(t, k) && AwaitingDelete(t, k))
  {
    if AwaitingAppend(t, k) {
      var w :| 0 <= w < |t.writers| && t.writers[w] == Uploaded(k);
      assert k in InHand(t.writers[w]);
      UploadedFresh(t, w);
      assert forall v :: 0 <= v < |t.writers| && v != w ==> k !in InHand(t.writers[v]);
    }
    if AwaitingDelete(t, k) {
      var w :| 0 <= w < |t.writers| && t.writers[w].Deleting? && k in t.writers[w].todo;
      assert k in InHand(t.writers[w]);
    }
  }

  ghost function HeldKeys(writers: seq<Phase>): set<Key> {
    if writers == [] then {} else HeldKeys(writers[..|writers| - 1]) + InHand(writers[|writers| - 1])
  }

  lemma {:induction false} HeldKeysBound(writers: seq<Phase>)
    requires forall w :: 0 <= w < |writers| && writers[w].Deleting? ==> |writers[w].todo| == 1
    ensures |HeldKeys(writers)| <= |writers|
    ensures forall w :: 0 <= w < |writers| ==> InHand(writers[w]) <= HeldKeys(writers)
  {
    if writers != [] {
      var last := writers[|writers| - 1];
      HeldKeysBound(writers[..|writers| - 1]);
      if last.Deleting? {
        assert last.todo == [last.todo[0]];
        assert InHand(last) == {last.todo[0]};
      }
      Sets.UnionSize(HeldKeys(writers[..|writers| - 1]), InHand(last));
    }
  }

  ghost function StoredKeys(cfg: Config, s: State): set<Key> {
    set k | k in s.objects && Owned(cfg, k)
  }

  /** At most retain + writers checkpoints are ever stored, plus one for each failed delete. */
  lemma StorageBound(cfg: Config, s: State, steps: seq<Step>)
    requires Start(cfg, s) && ValidRun(cfg, s, steps)
    ensures var t := Run(cfg, s, steps);
            |StoredKeys(cfg, t)| <= cfg.retain + |t.writers| + |t.stuck|
  {
    Reachable(cfg, s, steps);
    var t := Run(cfg, s, steps);
    HeldKeysBound(t.writers);
    var tracked := set k | k in t.versions;
    Sets.ElementsSize(t.versions);
    assert StoredKeys(cfg, t) <= tracked + HeldKeys(t.writers) + t.stuck by {
      forall k | k in StoredKeys(cfg, t) ensures k in tracked + HeldKeys(t.writers) + t.stuck {
        if Held(t, k) {
          var w :| 0 <= w < |t.writers| && k in InHand(t.writers[w]);
        }
      }
    }
    Sets.SubsetAtMost(StoredKeys(cfg, t), tracked + HeldKeys(t.writers) + t.stuck);
    Sets.UnionSize(tracked + HeldKeys(t.writers), t.stuck);
    Sets.UnionSize(tracked, HeldKeys(t.writers));
  }

  ghost predicate Quiescent(s: State) {
    forall w :: 0 <= w < |s.writers| ==> s.writers[w].Idle?
  }

  lemma StuckInHistory(s: State)
    requires Apart(s)
    ensures forall k :: k in s.stuck ==> k in s.history
  {
  }

  /** When no writer is at work, exactly the tracked checkpoints remain, and those whose delete failed. */
  lemma QuiescentStore(cfg: Config, s: State, steps: seq<Step>)
    requires Start(cfg, s) && ValidRun(cfg, s, steps) && Quiescent(Run(cfg, s, steps))
    ensures var t := Run(cfg, s, steps);
            StoredKeys(cfg, t) == (set k | k in t.versions) + t.stuck
  {
    hide Run, ValidRun, Start, Apart, KeyFor;
    Reachable(cfg, s, steps);
    var t := Run(cfg, s, steps);
    assert forall k :: !Held(t, k);
    StuckInHistory(t);
    VersionsInHistory(cfg, t);
    forall k | k in t.versions || k in t.stuck ensures Owned(cfg, k) {
      assert k in t.history && Issued(cfg, t.counter, k);
    }
  }

  /** A resume read names a checkpoint that was uploaded and appended, and is stored at the moment it is chosen. */
  lemma ReaderChoosesStored(cfg: Config, s: State, steps: seq<Step>)
    requires Start(cfg, s) && ValidRun(cfg, s, steps) && Enabled(cfg, Run(cfg, s, steps), Choose)
    ensures var t := Run(cfg, s, steps);
            var chosen := Next(cfg, t, Choose).reader.key;
            chosen in t.history && chosen in t.objects
  {
    hide Run, ValidRun, Start, Apart, KeyFor;
    Reachable(cfg, s, steps);
    var t := Run(cfg, s, steps);
    var k := t.versions[|t.versions| - 1];
    VersionsInHistory(cfg, t);
    assert k in t.versions && Issued(cfg, t.counter, k);
  }

  /** A resume read can miss only if at least `retain` newer checkpoints were appended after it was chosen. */
  lemma ReaderMiss(cfg: Config, s: State, steps: seq<Step>)
    requires Start(cfg, s) && ValidRun(cfg, s, steps) && Enabled(cfg, Run(cfg, s, steps), Get)
    ensures var t := Run(cfg, s, steps);
            t.reader.key !in t.objects ==> |t.history| - t.reader.after >= cfg.retain
  {
    Reachable(cfg, s, steps);
    var t := Run(cfg, s, steps);
    hide Apart, Run, ValidRun, Start;
    var k, at := t.reader.key, t.reader.after - 1;
    assert k in t.history && Issued(cfg, t.counter, k);
    var from := |t.history| - Min(cfg.retain, |t.history|);
    if from <= at {
      assert t.versions[at - from] == k;
    }
  }

  // ----- the workload object -----

  lemma {:induction false} RunSnoc(cfg: Config, s: State, steps: seq<Step>, step: Step)
    requires ValidRun(cfg, s, steps) && Enabled(cfg, Run(cfg, s, steps), step)
    ensures ValidRun(cfg, s, steps + [step])
    ensures Run(cfg, s, steps + [step]) == Next(cfg, Run(cfg, s, steps), step)
    decreases |steps|
  {
    if steps == [] {
      assert [step][1..] == [];
    } else {
      assert (steps + [step])[1..] == steps[1..] + [step];
      RunSnoc(cfg, Next(cfg, s, steps[0]), steps[1..], step);
    }
  }

  /** What the other goroutines do between two atomic actions of a writer, as far as each step can then be taken,
      and the faults they leave armed. */
  datatype Gap = Gap(steps: seq<Step>, fail: map<Op, Error>)

  ghost predicate ForeignElsewhere(cfg: Config, gaps: seq<Gap>) {
    forall g, j :: 0 <= g < |gaps| && 0 <= j < |gaps[g].steps| && gaps[g].steps[j].Foreign? ==> !Owned(cfg, gaps[g].steps[j].key)
  }

  /** The fault may be armed at some moment. */
  ghost predicate Armed(fail: map<Op, Error>, gaps: seq<Gap>, op: Op) {
    op in fail || exists g :: 0 <= g < |gaps| && op in gaps[g].fail
  }

  /** The steps of writer w among all of them. */
  function OwnSteps(steps: seq<Step>, w: nat): seq<Step> {
    if steps == [] then []
    else
      var last := steps[|steps| - 1];
      OwnSteps(steps[..|steps| - 1], w) + if By(last, w) then [last] else []
  }

  lemma OwnSnoc(steps: seq<Step>, step: Step, w: nat)
    ensures OwnSteps(steps + [step], w) == OwnSteps(steps, w) + if By(step, w) then [step] else []
  {
    assert (steps + [step])[..|steps|] == steps;
  }

  lemma OthersStep(cfg: Config, s: State, step: Step, w: nat)
    requires Enabled(cfg, s, step) && !By(step, w) && w < |s.writers|
    ensures var t := Next(cfg, s, step);
            |t.writers| == |s.writers| && t.writers[w] == s.writers[w] && s.history <= t.history
  {
  }

  predicate ByReader(step: Step) {
    step.Choose? || step.Get?
  }

  lemma WritersStep(cfg: Config, s: State, step: Step)
    requires Enabled(cfg, s, step) && !ByReader(step)
    ensures var t := Next(cfg, s, step); t.reader == s.reader && s.history <= t.history
  {
  }

  lemma ReadyEnabled(cfg: Config, s: State, step: Step)
    requires Ready(s, step) && (step.Foreign? ==> !Owned(cfg, step.key))
    ensures Enabled(cfg, s, step)
  {
  }

  lemma RunNothing(cfg: Config, s: State, w: nat)
    ensures ValidRun(cfg, s, []) && Run(cfg, s, []) == s && OwnSteps([], w) == []
  {
  }

  class Workload {
    const cfg: Config
    var counter: nat
    var versions: seq<Key>

    constructor (cfg: Config)
      ensures this.cfg == cfg && counter == 0 && versions == []
    {
      this.cfg := cfg;
      counter, versions := 0, [];
    }

    /** The object and the store are in the protocol state s. */
    ghost predicate At(c: Client, s: State)
      reads this, c
    {
      s.counter == counter && s.versions == versions && s.objects == c.objects
    }

    /** The part of a write under the mutex. */
    method AppendAndTrim(key: Key) returns (toDel: seq<Key>)
      modifies this`versions
      ensures (versions, toDel) == AppendTrim(old(versions), key, cfg.retain)
      ensures toDel + versions == old(versions) + [key] && |versions| == Min(cfg.retain, |old(versions)| + 1)
    {
      versions := versions + [key];
      toDel := [];
      if |versions| > cfg.retain {
        toDel := versions[..|versions| - cfg.retain];
        versions := versions[|versions| - cfg.retain..];
      }
    }

    /** One atomic step happened: the run so far, from s0, goes on by it. */
    ghost predicate OnRun(c: Client, s0: State, steps: seq<Step>, t: State)
      reads this, c
    {
      ValidRun(cfg, s0, steps) && t == Run(cfg, s0, steps) && At(c, t)
    }

    /** The other goroutines act in gap n.  Past the last gap they do nothing. */
    method OthersAct(c: Client, ghost s0: State, ghost steps: seq<Step>, s: State, w: nat, gaps: seq<Gap>, n: nat)
      returns (t: State, ghost steps': seq<Step>)
      requires OnRun(c, s0, steps, s) && w < |s.writers| && ForeignElsewhere(cfg, gaps)
      modifies this, c
      ensures OnRun(c, s0, steps', t) && OwnSteps(steps', w) == OwnSteps(steps, w)
      ensures |t.writers| == |s.writers| && t.writers[w] == s.writers[w] && s.history <= t.history
      ensures forall op :: op in c.fail ==> op in old(c.fail) || Armed(map[], gaps, op)
    {
      hide Run, ValidRun, Next, Enabled, By, KeyFor;
      t, steps' := s, steps;
      if n >= |gaps| {
        return;
      }
      var gap := gaps[n];
      for j := 0 to |gap.steps|
        invariant ValidRun(cfg, s0, steps') && t == Run(cfg, s0, steps') && OwnSteps(steps', w) == OwnSteps(steps, w)
        invariant |t.writers| == |s.writers| && t.writers[w] == s.writers[w] && s.history <= t.history
        invariant c.fail == old(c.fail)
      {
        var step := gap.steps[j];
        if Ready(t, step) && !By(step, w) {
          ReadyEnabled(cfg, t, step);
          OthersStep(cfg, t, step, w);
          RunSnoc(cfg, s0, steps', step);
          OwnSnoc(steps', step, w);
          t := Next(cfg, t, step);
          steps' := steps' + [step];
        }
      }
      counter, versions := t.counter, t.versions;
      c.objects, c.fail := t.objects, gap.fail;
    }

    /** One write of writer w, from claim to the last delete, with the other goroutines acting in every gap between its
        atomic actions: `steps` is the run of the protocol that it all amounts to, t the state it ends in. */
    method WriteOne(c: Client, body: Body, s: State, w: nat, gaps: seq<Gap>)
      returns (err: Option<Error>, ghost steps: seq<Step>, t: State)
      requires At(c, s) && w < |s.writers| && s.writers[w].Idle? && ForeignElsewhere(cfg, gaps)
      modifies this, c
      ensures OnRun(c, s, steps, t) && |t.writers| == |s.writers| && t.writers[w].Idle?
      ensures if err.Some? then OwnSteps(steps, w) == [Claim(w), FailUpload(w)]
              else [Claim(w), Upload(w, body.data), Step.Append(w)] <= OwnSteps(steps, w)
      ensures err.None? ==> KeyFor(cfg.name, s.counter + 1) in t.history
      ensures body.fails ==> err.Some?
      ensures err.Some? ==> body.fails || Armed(old(c.fail), gaps, MultipartOp)
      ensures FailDelete(w) in OwnSteps(steps, w) ==> Armed(old(c.fail), gaps, DeleteOp)
    {
      hide Run, ValidRun, Next, KeyFor, ForeignElsewhere, AppendTrim, OwnSteps;
      ghost var fail0 := c.fail;
      var key;
      err, key, steps, t := ClaimAndUpload(c, body, s, w, gaps);
      if err.Some? {
        return;
      }
      t, steps := OthersAct(c, s, steps, t, w, gaps, 1);
      var toDel;
      toDel, t, steps := Append(c, key, s, steps, t, w);
      t, steps := DeleteTrimmed(c, toDel, s, steps, t, w, gaps, fail0);
    }

    /** The first half of a write: claim a number, upload the object. */
    method ClaimAndUpload(c: Client, body: Body, s: State, w: nat, gaps: seq<Gap>)
      returns (err: Option<Error>, key: Key, ghost steps: seq<Step>, t: State)
      requires At(c, s) && w < |s.writers| && s.writers[w].Idle? && ForeignElsewhere(cfg, gaps)
      modifies this, c
      ensures OnRun(c, s, steps, t) && |t.writers| == |s.writers| && key == KeyFor(cfg.name, s.counter + 1)
      ensures if err.Some? then t.writers[w].Idle? && OwnSteps(steps, w) == [Claim(w), FailUpload(w)]
              else t.writers[w] == Uploaded(key) && OwnSteps(steps, w) == [Claim(w), Upload(w, body.data)]
      ensures body.fails ==> err.Some?
      ensures err.Some? ==> body.fails || Armed(old(c.fail), gaps, MultipartOp)
      ensures forall op :: op in c.fail ==> Armed(old(c.fail), gaps, op)
    {
      hide Run, ValidRun, KeyFor, ForeignElsewhere, OwnSteps;
      steps := [];
      RunNothing(cfg, s, w);
      counter := counter + 1;
      key := KeyFor(cfg.name, counter);
      t, steps := Took(c, s, steps, s, Claim(w), w);
      t, steps := OthersAct(c, s, steps, t, w, gaps, 0);
      err := c.MultipartUpload(key, body);
      var step := if err.Some? then FailUpload(w) else Upload(w, body.data);
      t, steps := Took(c, s, steps, t, step, w);
    }

    /** The critical section, as the protocol's step. */
    method Append(c: Client, key: Key, ghost s0: State, ghost steps: seq<Step>, s: State, w: nat)
      returns (toDel: seq<Key>, t: State, ghost steps': seq<Step>)
      requires OnRun(c, s0, steps, s) && w < |s.writers| && s.writers[w] == Uploaded(key)
      modifies this`versions
      ensures OnRun(c, s0, steps', t) && |t.writers| == |s.writers| && t.writers[w] == AfterDelete(toDel)
      ensures key in t.history && OwnSteps(steps', w) == OwnSteps(steps, w) + [Step.Append(w)]
    {
      hide Run, ValidRun, OwnSteps, AppendTrim;
      toDel := AppendAndTrim(key);
      t, steps' := Took(c, s0, steps, s, Step.Append(w), w);
    }

    /** Records one atomic action just carried out as a step of the run. */
    method Took(c: Client, ghost s0: State, ghost steps: seq<Step>, s: State, step: Step, w: nat)
      returns (t: State, ghost steps': seq<Step>)
      requires ValidRun(cfg, s0, steps) && s == Run(cfg, s0, steps) && Enabled(cfg, s, step) && At(c, Next(cfg, s, step))
      requires By(step, w)
      ensures OnRun(c, s0, steps', t) && t == Next(cfg, s, step)
      ensures OwnSteps(steps', w) == OwnSteps(steps, w) + [step]
    {
      RunSnoc(cfg, s0, steps, step);
      OwnSnoc(steps, step, w);
      hide Run, ValidRun, Next, Enabled, By, OwnSteps;
      t, steps' := Next(cfg, s, step), steps + [step];
    }

    /** The rest of a write, outside the mutex: delete what was trimmed, one key at a time, whatever each delete answers. */
    method DeleteTrimmed(c: Client, toDel: seq<Key>, ghost s0: State, ghost steps0: seq<Step>, s: State, w: nat, gaps: seq<Gap>,
                         ghost fail0: map<Op, Error>)
      returns (t: State, ghost steps: seq<Step>)
      requires OnRun(c, s0, steps0, s) && w < |s.writers| && s.writers[w] == AfterDelete(toDel) && ForeignElsewhere(cfg, gaps)
      requires forall op :: op in c.fail ==> Armed(fail0, gaps, op)
      modifies this, c
      ensures OnRun(c, s0, steps, t) && |t.writers| == |s.writers| && t.writers[w].Idle? && s.history <= t.history
      ensures OwnSteps(steps0, w) <= OwnSteps(steps, w)
      ensures FailDelete(w) in OwnSteps(steps, w) ==> FailDelete(w) in OwnSteps(steps0, w) || Armed(fail0, gaps, DeleteOp)
    {
      hide Run, ValidRun, KeyFor, ForeignElsewhere, OwnSteps;
      t, steps := s, steps0;
      for i := 0 to |toDel|
        invariant OnRun(c, s0, steps, t) && |t.writers| == |s.writers| && t.writers[w] == AfterDelete(toDel[i..])
        invariant s.history <= t.history && OwnSteps(steps0, w) <= OwnSteps(steps, w)
        invariant forall op :: op in c.fail ==> Armed(fail0, gaps, op)
        invariant FailDelete(w) in OwnSteps(steps, w) ==> FailDelete(w) in OwnSteps(steps0, w) || Armed(fail0, gaps, DeleteOp)
      {
        t, steps := OthersAct(c, s0, steps, t, w, gaps, 2 + i);
        assert toDel[i..][1..] == toDel[i + 1..];
        var derr := c.Delete(toDel[i]);
        var step := if derr.None? then Delete(w) else FailDelete(w);
        t, steps := Took(c, s0, steps, t, step, w);
      }
    }

    /** The other goroutines act while the reader holds a chosen key. */
    method WritersAct(c: Client, ghost s0: State, ghost steps: seq<Step>, s: State, gap: Gap)
      returns (t: State, ghost during: seq<Step>)
      requires OnRun(c, s0, steps, s) && ForeignElsewhere(cfg, [gap])
      modifies this, c
      ensures OnRun(c, s0, steps + during, t) && t.reader == s.reader && s.history <= t.history && c.fail == gap.fail
      ensures forall j :: 0 <= j < |during| ==> !ByReader(during[j])
    {
      hide Run, ValidRun, Next, Enabled, KeyFor, ByReader;
      t, during := s, [];
      assert steps + [] == steps && [gap][0] == gap;
      for j := 0 to |gap.steps|
        invariant ValidRun(cfg, s0, steps + during) && t == Run(cfg, s0, steps + during)
        invariant t.reader == s.reader && s.history <= t.history
        invariant forall i :: 0 <= i < |during| ==> !ByReader(during[i])
      {
        var step := gap.steps[j];
        if Ready(t, step) && !ByReader(step) {
          ReadyEnabled(cfg, t, step);
          WritersStep(cfg, t, step);
          RunSnoc(cfg, s0, steps + during, step);
          assert steps + during + [step] == steps + (during + [step]);
          t := Next(cfg, t, step);
          during := during + [step];
        }
      }
      counter, versions := t.counter, t.versions;
      c.objects, c.fail := t.objects, gap.fail;
    }

    /** The resume reader: it chooses the newest version, if any, under the mutex and fetches it after the writers went on.
        The read is the protocol's Choose and Get with the others' steps between them.  The key it names is stored when it is
        chosen, and unless an injected fault answers instead it gets the bytes stored by then; it finds nothing only if
        at least `retain` checkpoints were appended meanwhile. */
    method ReadLatest(c: Client, ghost s0: State, ghost steps0: seq<Step>, s: State, gap: Gap)
      returns (r: Option<Result<Bytes, Error>>, t: State, ghost during: seq<Step>)
      requires Start(cfg, s0) && OnRun(c, s0, steps0, s) && s.reader.Resting? && ForeignElsewhere(cfg, [gap])
      modifies this, c
      ensures r.None? <==> s.versions == []
      ensures r.None? ==> t == s && OnRun(c, s0, steps0, t)
      ensures r.Some? ==>
                && OnRun(c, s0, steps0 + [Choose] + during + [Step.Get], t)
                && (forall j :: 0 <= j < |during| ==> !ByReader(during[j]))
                && var latest := s.versions[|s.versions| - 1];
                && latest in s.objects
                && r.value == (if GetOp in gap.fail then Err(gap.fail[GetOp])
                               else if latest in t.objects then Ok(t.objects[latest]) else Err(NotFound))
                && (latest !in t.objects ==> |t.history| - |s.history| >= cfg.retain)
    {
      hide Run, ValidRun, KeyFor, Start, ForeignElsewhere, ByReader;
      t, during := s, [];
      if |versions| == 0 {
        return None, t, during;
      }
      var latest := versions[|versions| - 1];
      ReaderChoosesStored(cfg, s0, steps0);
      RunSnoc(cfg, s0, steps0, Choose);
      t := Next(cfg, s, Choose);
      t, during := WritersAct(c, s0, steps0 + [Choose], t, gap);
      ReaderMiss(cfg, s0, steps0 + [Choose] + during);
      RunSnoc(cfg, s0, steps0 + [Choose] + during, Step.Get);
      var got := c.Get(latest);
      t := Next(cfg, t, Step.Get);
      r := Some(got);
    }

    /** Cleanup after the writers have joined, whatever the others do meanwhile.  Without an error or a false NotFound it
        leaves exactly the checkpoints whose earlier delete failed. */
    method Cleanup(c: Client, others: Schedule, ghost s: State, ghost steps: seq<Step>)
      returns (err: Option<Error>, ghost calls: seq<SafetyCleanup.Call>)
      requires Start(cfg, s) && ValidRun(cfg, s, steps) && Quiescent(Run(cfg, s, steps)) && At(c, Run(cfg, s, steps))
      modifies c
      ensures ClaimCounter.IsSweep(old(c.View()), versions, others, 0, calls, err)
      ensures c.View() == SafetyCleanup.End(old(c.View()), calls)
      ensures err.None? && (DeleteOp, NotFound) !in Faults(old(c.fail)) + ScheduleEffects(others).arms ==>
                forall k :: Owned(cfg, k) && k !in ScheduleEffects(others).touches ==>
                  (k in c.objects <==> k in Run(cfg, s, steps).stuck)
      ensures err.Some? ==> (DeleteOp, err.value) in Faults(old(c.fail)) + ScheduleEffects(others).arms && err.value != NotFound
      ensures forall k :: !Owned(cfg, k) && k !in ScheduleEffects(others).touches ==> SameAt(old(c.objects), c.objects, k)
    {
      hide Run, ValidRun, Start, Quiescent, ClaimCounter.IsSweep, SafetyCleanup.End, ScheduleEffects, Owned;
      ghost var b := c.View();
      err, calls := ClaimCounter.DeleteKeys(c, versions, others, 0);
      ClaimCounter.Sweeps(b, versions, others, 0, calls, err);
      ClaimCounter.WritesTouch(others);
      QuiescentStore(cfg, s, steps);
      StuckNotTracked(cfg, s, steps);
      forall k ensures k in b.objects && Owned(cfg, k) <==> k in versions || k in Run(cfg, s, steps).stuck {
        assert k in StoredKeys(cfg, Run(cfg, s, steps)) <==> k in b.objects && Owned(cfg, k);
      }
    }
  }

  lemma StuckNotTracked(cfg: Config, s: State, steps: seq<Step>)
    requires Start(cfg, s) && ValidRun(cfg, s, steps)
    ensures forall k :: k in Run(cfg, s, steps).stuck ==> k !in Run(cfg, s, steps).versions
  {
    Reachable(cfg, s, steps);
  }
}
