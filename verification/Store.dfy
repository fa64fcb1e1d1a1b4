/** The in-memory S3 client: an object map and a map of one-shot injected faults, both updated
    under one mutex.  Each critical section is one atomic step; `Action` names the steps other
    goroutines can take between two calls of the caller at hand. */
module Store {
  import opened Wrappers
  import opened Lex
  import opened Pages

  type Bytes = seq<bv8>

  datatype Op = PutOp | GetOp | HeadOp | DeleteOp | ListOp | CopyOp | MultipartOp

  datatype Error = NotFound | Fault(message: string)

  /** An io.Reader: the bytes it yields, and whether it then fails instead of reaching EOF. */
  datatype Body = Body(data: Bytes, fails: bool)

  datatype Bucket = Bucket(objects: map<Key, Bytes>, fail: map<Op, Error>)

  function Disarm(b: Bucket, op: Op): Bucket {
    b.(fail := b.fail - {op})
  }

  /** Delete answers an armed fault without touching the objects; otherwise the key is gone, present or not. */
  function DeleteStep(b: Bucket, key: Key): (Bucket, Option<Error>) {
    if DeleteOp in b.fail then (Disarm(b, DeleteOp), Some(b.fail[DeleteOp]))
    else (b.(objects := b.objects - {key}), None)
  }

  function CopyStep(b: Bucket, src: Key, dst: Key): (Bucket, Option<Error>) {
    if CopyOp in b.fail then (Disarm(b, CopyOp), Some(b.fail[CopyOp]))
    else if src !in b.objects then (b, Some(NotFound))
    else (b.(objects := b.objects[dst := b.objects[src]]), None)
  }

  /** A write stores all of its body or nothing. */
  function WriteStep(b: Bucket, op: Op, key: Key, body: Body, size: int): (Bucket, Option<Error>) {
    if op in b.fail then (Disarm(b, op), Some(b.fail[op]))
    else if body.fails then (b, Some(Fault("body read")))
    else if size >= 0 && |body.data| != size then (b, Some(Fault("body size mismatch")))
    else (b.(objects := b.objects[key := body.data]), None)
  }

  ghost function ListStep(b: Bucket, prefix: Key, delim: string, token: Key, maxKeys: int): (Bucket, Result<Page, Error>) {
    if ListOp in b.fail then (Disarm(b, ListOp), Err(b.fail[ListOp]))
    else (b, Ok(PageOf(b.objects.Keys, prefix, delim, token, maxKeys)))
  }

  // ----- what other goroutines may do -----

  /** One critical section of another goroutine. */
  datatype Action =
    | Arm(op: Op, error: Error)
    | Check(op: Op)
    | Overwrite(key: Key, data: Bytes)
    | Remove(key: Key)
    | Duplicate(src: Key, dst: Key)

  function After(b: Bucket, a: Action): Bucket {
    match a
    case Arm(op, error) => b.(fail := b.fail[op := error])
    case Check(op) => Disarm(b, op)
    case Overwrite(key, data) => b.(objects := b.objects[key := data])
    case Remove(key) => DeleteStep(b, key).0
    case Duplicate(src, dst) => CopyStep(b, src, dst).0
  }

  function AfterAll(b: Bucket, acts: seq<Action>): Bucket
    decreases |acts|
  {
    if acts == [] then b else AfterAll(After(b, acts[0]), acts[1..])
  }

  /** The keys a step may create or overwrite. */
  function Writes(a: Action): set<Key> {
    match a
    case Overwrite(key, _) => {key}
    case Duplicate(_, dst) => {dst}
    case _ => {}
  }

  /** The keys a step may create, overwrite or remove. */
  function Touches(a: Action): set<Key> {
    match a
    case Remove(key) => {key}
    case _ => Writes(a)
  }

  function Arms(a: Action): set<(Op, Error)> {
    if a.Arm? then {(a.op, a.error)} else {}
  }

  /** What a sequence of steps may do, all told. */
  datatype Effects = Effects(writes: set<Key>, touches: set<Key>, arms: set<(Op, Error)>) {
    function Plus(e: Effects): Effects {
      Effects(writes + e.writes, touches + e.touches, arms + e.arms)
    }

    predicate Within(e: Effects) {
      writes <= e.writes && touches <= e.touches && arms <= e.arms
    }

    /** No object is created, changed or removed. */
    predicate Quiet() {
      touches == {}
    }
  }

  function EffectsOf(acts: seq<Action>): (e: Effects)
    ensures e.writes <= e.touches
  {
    if acts == [] then Effects({}, {}, {})
    else Effects(Writes(acts[0]), Touches(acts[0]), Arms(acts[0])).Plus(EffectsOf(acts[1..]))
  }

  /** A schedule gives, for each client call of the goroutine at hand, what the others do just before it.
      Past its end the others do nothing more. */
  type Schedule = seq<seq<Action>>

  function Batch(others: Schedule, j: nat): seq<Action> {
    if j < |others| then others[j] else []
  }

  function ScheduleEffects(others: Schedule): (e: Effects)
    ensures e.writes <= e.touches
  {
    if others == [] then Effects({}, {}, {}) else EffectsOf(others[0]).Plus(ScheduleEffects(others[1..]))
  }

  lemma {:induction false} BatchWithin(others: Schedule, j: nat)
    ensures EffectsOf(Batch(others, j)).Within(ScheduleEffects(others))
  {
    if 0 < j < |others| {
      BatchWithin(others[1..], j - 1);
      assert Batch(others[1..], j - 1) == Batch(others, j);
    }
  }

  ghost predicate SameAt(m: map<Key, Bytes>, m': map<Key, Bytes>, k: Key) {
    (k in m <==> k in m') && (k in m ==> m[k] == m'[k])
  }

  ghost predicate FaultsFrom(fail: map<Op, Error>, armed: set<(Op, Error)>) {
    forall op :: op in fail ==> (op, fail[op]) in armed
  }

  function Faults(fail: map<Op, Error>): set<(Op, Error)> {
    set op | op in fail :: (op, fail[op])
  }

  /** Others change only the keys they name, only the keys they write can appear, and every armed fault was armed by someone. */
  lemma {:induction false} OthersFrame(b: Bucket, acts: seq<Action>, e: Effects, armed: set<(Op, Error)>)
    requires EffectsOf(acts).Within(e) && e.arms <= armed && FaultsFrom(b.fail, armed)
    ensures var b' := AfterAll(b, acts);
            && (forall k :: k !in e.touches ==> SameAt(b.objects, b'.objects, k))
            && (forall k :: k in b'.objects && k !in e.writes ==> k in b.objects)
            && FaultsFrom(b'.fail, armed)
            && (e.Quiet() ==> b'.objects == b.objects)
    decreases |acts|
  {
    if acts != [] {
      var b1 := After(b, acts[0]);
      assert Touches(acts[0]) <= e.touches && Writes(acts[0]) <= e.writes && Arms(acts[0]) <= e.arms;
      assert e.Quiet() ==> b1.objects == b.objects;
      OthersFrame(b1, acts[1..], e, armed);
    }
  }

  lemma {:induction false} AfterConcat(b: Bucket, acts: seq<Action>, more: seq<Action>)
    ensures AfterAll(b, acts + more) == AfterAll(AfterAll(b, acts), more)
    decreases |acts|
  {
    if acts == [] {
      assert acts + more == more;
    } else {
      assert (acts + more)[1..] == acts[1..] + more;
      AfterConcat(After(b, acts[0]), acts[1..], more);
    }
  }

  lemma AfterOne(b: Bucket, acts: seq<Action>, a: Action)
    ensures AfterAll(b, acts + [a]) == After(AfterAll(b, acts), a)
  {
    AfterConcat(b, acts, [a]);
    assert [a][1..] == [];
  }

  lemma {:induction false} DisarmAll(b: Bucket, ops: set<Op>) returns (acts: seq<Action>)
    requires b.fail.Keys <= ops
    ensures AfterAll(b, acts) == b.(fail := map[])
    decreases ops
  {
    acts := [];
    if ops == {} {
      assert b.fail == map[];
    } else {
      var op :| op in ops;
      acts := DisarmAll(Disarm(b, op), ops - {op});
      acts := [Check(op)] + acts;
    }
  }

  lemma {:induction false} RemoveAll(b: Bucket, keys: set<Key>) returns (acts: seq<Action>)
    requires b.objects.Keys <= keys && b.fail == map[]
    ensures AfterAll(b, acts) == Bucket(map[], map[])
    decreases keys
  {
    acts := [];
    if keys == {} {
      assert b.objects == map[];
    } else {
      var k :| k in keys;
      acts := RemoveAll(Bucket(b.objects - {k}, map[]), keys - {k});
      acts := [Remove(k)] + acts;
    }
  }

  lemma {:induction false} StoreThese(objects: map<Key, Bytes>, keys: set<Key>) returns (acts: seq<Action>)
    requires objects.Keys <= keys
    ensures AfterAll(Bucket(map[], map[]), acts) == Bucket(objects, map[])
  {
    acts := [];
    if keys == {} {
      assert objects == map[];
    } else {
      var k :| k in keys;
      acts := StoreThese(objects - {k}, keys - {k});
      if k in objects {
        AfterOne(Bucket(map[], map[]), acts, Overwrite(k, objects[k]));
        assert (objects - {k})[k := objects[k]] == objects;
        acts := acts + [Overwrite(k, objects[k])];
      } else {
        assert objects - {k} == objects;
      }
    }
  }

  lemma {:induction false} ArmThese(b: Bucket, fail: map<Op, Error>, ops: set<Op>) returns (acts: seq<Action>)
    requires fail.Keys <= ops && b.fail == map[]
    ensures AfterAll(b, acts) == b.(fail := fail)
  {
    acts := [];
    if ops == {} {
      assert fail == map[];
    } else {
      var op :| op in ops;
      acts := ArmThese(b, fail - {op}, ops - {op});
      if op in fail {
        AfterOne(b, acts, Arm(op, fail[op]));
        assert (fail - {op})[op := fail[op]] == fail;
        acts := acts + [Arm(op, fail[op])];
      } else {
        assert fail - {op} == fail;
      }
    }
  }

  /** The others can do anything at all: some steps of theirs take any bucket to any other, faults included. */
  lemma AnyInterference(b: Bucket, b': Bucket) returns (acts: seq<Action>)
    ensures AfterAll(b, acts) == b'
  {
    hide AfterAll;
    var disarm := DisarmAll(b, b.fail.Keys);
    var remove := RemoveAll(b.(fail := map[]), b.objects.Keys);
    var store := StoreThese(b'.objects, b'.objects.Keys);
    var arm := ArmThese(Bucket(b'.objects, map[]), b'.fail, b'.fail.Keys);
    AfterConcat(b, disarm, remove);
    AfterConcat(b, disarm + remove, store);
    AfterConcat(b, disarm + remove + store, arm);
    acts := disarm + remove + store + arm;
  }

  // ----- the client -----

  class Client {
    var objects: map<Key, Bytes>
    var fail: map<Op, Error>

    constructor ()
      ensures View() == Bucket(map[], map[])
    {
      objects, fail := map[], map[];
    }

    function View(): Bucket
      reads this
    {
      Bucket(objects, fail)
    }

    method FailOp(op: Op, error: Error)
      modifies this
      ensures View() == After(old(View()), Arm(op, error))
      ensures fail == old(fail)[op := error] && objects == old(objects)
    {
      fail := fail[op := error];
    }

    method CheckFail(op: Op) returns (err: Option<Error>)
      modifies this
      ensures View() == Disarm(old(View()), op)
      ensures fail == old(fail) - {op} && objects == old(objects)
      ensures err == if op in old(fail) then Some(old(fail)[op]) else None
    {
      if op in fail {
        err := Some(fail[op]);
        fail := fail - {op};
      } else {
        err := None;
        assert fail - {op} == fail;
      }
    }

    /** Stores the whole body, unless a fault is armed, the body fails or its size is not the one announced. */
    method Put(key: Key, body: Body, size: int) returns (err: Option<Error>)
      modifies this
      ensures (View(), err) == WriteStep(old(View()), PutOp, key, body, size)
      ensures err.None? <==> PutOp !in old(fail) && !body.fails && (size < 0 || |body.data| == size)
      ensures objects == if err.None? then old(objects)[key := body.data] else old(objects)
      ensures PutOp in old(fail) ==> err == Some(old(fail)[PutOp])
      ensures fail == old(fail) - {PutOp}
    {
      err := CheckFail(PutOp);
      if err.Some? {
        return;
      }
      assert View() == old(View());
      if body.fails {
        return Some(Fault("body read"));
      }
      if size >= 0 && |body.data| != size {
        return Some(Fault("body size mismatch"));
      }
      objects := objects[key := body.data];
    }

    method MultipartUpload(key: Key, body: Body) returns (err: Option<Error>)
      modifies this
      ensures (View(), err) == WriteStep(old(View()), MultipartOp, key, body, -1)
      ensures err.None? <==> MultipartOp !in old(fail) && !body.fails
      ensures objects == if err.None? then old(objects)[key := body.data] else old(objects)
      ensures MultipartOp in old(fail) ==> err == Some(old(fail)[MultipartOp])
      ensures fail == old(fail) - {MultipartOp}
    {
      err := CheckFail(MultipartOp);
      if err.Some? {
        return;
      }
      assert View() == old(View());
      if body.fails {
        return Some(Fault("body read"));
      }
      objects := objects[key := body.data];
    }

    method Get(key: Key) returns (r: Result<Bytes, Error>)
      modifies this
      ensures View() == Disarm(old(View()), GetOp)
      ensures fail == old(fail) - {GetOp} && objects == old(objects)
      ensures r == if GetOp in old(fail) then Err(old(fail)[GetOp])
                   else if key in old(objects) then Ok(old(objects)[key]) else Err(NotFound)
    {
      var err := CheckFail(GetOp);
      if err.Some? {
        return Err(err.value);
      }
      r := if key in objects then Ok(objects[key]) else Err(NotFound);
    }

    method Delete(key: Key) returns (err: Option<Error>)
      modifies this
      ensures (View(), err) == DeleteStep(old(View()), key)
      ensures err == if DeleteOp in old(fail) then Some(old(fail)[DeleteOp]) else None
      ensures objects == if err.None? then old(objects) - {key} else old(objects)
      ensures fail == old(fail) - {DeleteOp}
    {
      err := CheckFail(DeleteOp);
      if err.Some? {
        return;
      }
      assert View() == old(View());
      objects := objects - {key};
    }

    /** Copies the bytes exactly when no fault is armed and the source is there; the destination need not be. */
    method Copy(src: Key, dst: Key) returns (err: Option<Error>)
      modifies this
      ensures (View(), err) == CopyStep(old(View()), src, dst)
      ensures err.None? <==> CopyOp !in old(fail) && src in old(objects)
      ensures objects == if CopyOp !in old(fail) && src in old(objects) then old(objects)[dst := old(objects)[src]] else old(objects)
      ensures CopyOp in old(fail) ==> err == Some(old(fail)[CopyOp])
      ensures CopyOp !in old(fail) && src !in old(objects) ==> err == Some(NotFound)
      ensures fail == old(fail) - {CopyOp}
    {
      err := CheckFail(CopyOp);
      if err.Some? {
        return;
      }
      assert View() == old(View());
      if src !in objects {
        return Some(NotFound);
      }
      objects := objects[dst := objects[src]];
    }

    method List(prefix: Key, delim: string, token: Key, maxKeys: int) returns (r: Result<Page, Error>)
      modifies this
      ensures (View(), r) == ListStep(old(View()), prefix, delim, token, maxKeys)
      ensures r == if ListOp in old(fail) then Err(old(fail)[ListOp])
                   else Ok(PageOf(old(objects).Keys, prefix, delim, token, maxKeys))
      ensures fail == old(fail) - {ListOp} && objects == old(objects)
    {
      var err := CheckFail(ListOp);
      if err.Some? {
        return Err(err.value);
      }
      assert View() == old(View());
      var page := ListKeys(objects.Keys, prefix, delim, token, maxKeys);
      r := Ok(page);
    }
  }

  /** List's computation: sort the keys under the prefix, cut them at the token, roll up what the
      delimiter splits, and truncate.  The result is the specified page. */
  method ListKeys(all: set<Key>, prefix: Key, delim: string, token: Key, maxKeys: int) returns (p: Page)
    ensures p == PageOf(all, prefix, delim, token, maxKeys)
  {
    var keys := SortedUnder(all, prefix);
    if token != "" {
      LowerBoundLists(keys, token, set k | k in all && prefix <= k);
      keys := keys[LowerBound(keys, token)..];
    }
    ghost var eligible := set k | k in all && Eligible(k, prefix, token);
    assert Lists(keys, eligible);
    var commonPrefixes := [];
    EligibleSplit(all, prefix, delim, token, eligible);
    if delim != "" {
      keys, commonPrefixes := RollUp(keys, eligible, prefix, delim);
    }
    PageParts(all, prefix, delim, token, keys, commonPrefixes);
    p := Truncate(keys, commonPrefixes, maxKeys);
  }

  method Truncate(keys: seq<Key>, commonPrefixes: seq<Key>, maxKeys: int) returns (p: Page)
    ensures p == Cut(keys, commonPrefixes, maxKeys)
  {
    var max := if maxKeys <= 0 then 1000 else maxKeys;
    Int32AtMost(|keys|);
    if Int32(|keys|) > max {
      p := Page(keys[..max], commonPrefixes, keys[max], true);
    } else {
      p := Page(keys, commonPrefixes, "", false);
    }
  }

  /** Collect the keys under the prefix in map iteration order, then sort them. */
  method SortedUnder(all: set<Key>, prefix: Key) returns (keys: seq<Key>)
    ensures Lists(keys, set k | k in all && prefix <= k)
  {
    keys := [];
    var todo := all;
    while todo != {}
      invariant todo <= all && Distinct(keys)
      invariant forall k :: k in keys <==> k in all - todo && prefix <= k
      decreases |todo|
    {
      var k :| k in todo;
      todo := todo - {k};
      if prefix <= k {
        assert forall j :: 0 <= j < |keys| ==> keys[j] in keys;
        keys := keys + [k];
      }
    }
    SortLists(keys);
    assert (set k | k in keys) == set k | k in all && prefix <= k;
    keys := Sort(keys);
  }

  lemma EligibleSplit(all: set<Key>, prefix: Key, delim: string, token: Key, eligible: set<Key>)
    requires eligible == set k | k in all && Eligible(k, prefix, token)
    ensures FlatKeys(eligible, prefix, delim, "") == FlatKeys(all, prefix, delim, token)
    ensures Groups(eligible, prefix, delim, "") == Groups(all, prefix, delim, token)
    ensures delim == "" ==> FlatKeys(all, prefix, delim, token) == eligible && Groups(all, prefix, delim, token) == {}
  {
  }

  lemma PageParts(all: set<Key>, prefix: Key, delim: string, token: Key, flat: seq<Key>, cps: seq<Key>)
    requires Lists(flat, FlatKeys(all, prefix, delim, token))
    requires Lists(cps, Groups(all, prefix, delim, token))
    ensures flat == Listing(FlatKeys(all, prefix, delim, token))
    ensures cps == Listing(Groups(all, prefix, delim, token))
  {
    ListingUnique(flat, Listing(FlatKeys(all, prefix, delim, token)), FlatKeys(all, prefix, delim, token));
    ListingUnique(cps, Listing(Groups(all, prefix, delim, token)), Groups(all, prefix, delim, token));
  }

  /** The delimiter loop: split sorted keys into flat ones and distinct common prefixes.
      Both come out sorted, although nothing is sorted again. */
  method RollUp(keys: seq<Key>, ghost all: set<Key>, prefix: Key, delim: string)
    returns (flat: seq<Key>, commonPrefixes: seq<Key>)
    requires delim != "" && Lists(keys, all)
    requires forall k :: k in all ==> prefix <= k
    ensures Lists(flat, FlatKeys(all, prefix, delim, ""))
    ensures Lists(commonPrefixes, Groups(all, prefix, delim, ""))
  {
    flat, commonPrefixes := [], [];
    var seen: set<Key> := {};
    ghost var before: set<Key> := {};
    for i := 0 to |keys|
      invariant Lists(keys[..i], before)
      invariant Lists(flat, FlatKeys(before, prefix, delim, ""))
      invariant seen == Groups(before, prefix, delim, "")
      invariant Lists(commonPrefixes, seen)
    {
      var k := keys[i];
      assert k in keys;
      NextInOrder(keys, all, before, i);
      RollUpNext(before, k, prefix, delim, flat, commonPrefixes);
      before := before + {k};
      var rest := k[|prefix|..];
      var idx := IndexOf(rest, delim);
      if idx >= 0 {
        var cp := prefix + rest[..idx + |delim|];
        if cp !in seen {
          seen := seen + {cp};
          commonPrefixes := commonPrefixes + [cp];
        }
      } else {
        flat := flat + [k];
      }
    }
    assert keys[..|keys|] == keys;
    ListsSame(keys, before, all);
  }

  lemma ListsSame(s: seq<Key>, ks: set<Key>, ks': set<Key>)
    requires Lists(s, ks) && Lists(s, ks')
    ensures ks == ks'
  {
    forall k ensures k in ks <==> k in ks' {
      assert k in s <==> k in ks;
    }
  }

  /** One more key, in order: it joins the flat list, or its common prefix is already the last one seen, or is a new last one. */
  lemma RollUpNext(before: set<Key>, k: Key, prefix: Key, delim: string, flat: seq<Key>, cps: seq<Key>)
    requires prefix <= k && forall k' :: k' in before ==> Less(k', k) && prefix <= k'
    requires Lists(flat, FlatKeys(before, prefix, delim, "")) && Lists(cps, Groups(before, prefix, delim, ""))
    ensures var groups := Groups(before + {k}, prefix, delim, "");
            if IsFlat(k, prefix, delim) then
              Lists(flat + [k], FlatKeys(before + {k}, prefix, delim, "")) && groups == Groups(before, prefix, delim, "")
            else
              var cp := GroupOf(k, prefix, delim);
              && FlatKeys(before + {k}, prefix, delim, "") == FlatKeys(before, prefix, delim, "")
              && groups == Groups(before, prefix, delim, "") + {cp}
              && (cp in Groups(before, prefix, delim, "") ==> groups == Groups(before, prefix, delim, ""))
              && (cp !in Groups(before, prefix, delim, "") ==> Lists(cps + [cp], groups))
  {
    RollUpStep(before, k, prefix, delim);
    if IsFlat(k, prefix, delim) {
      AppendLists(flat, FlatKeys(before, prefix, delim, ""), k);
    } else if GroupOf(k, prefix, delim) !in Groups(before, prefix, delim, "") {
      AppendLists(cps, Groups(before, prefix, delim, ""), GroupOf(k, prefix, delim));
    }
  }

  lemma NextInOrder(keys: seq<Key>, all: set<Key>, before: set<Key>, i: nat)
    requires Lists(keys, all) && i < |keys| && Lists(keys[..i], before)
    ensures Lists(keys[..i + 1], before + {keys[i]})
    ensures before <= all && forall k :: k in before ==> Less(k, keys[i])
  {
    forall k | k in before ensures Less(k, keys[i]) && k in all {
      assert k in keys[..i];
      var j :| 0 <= j < i && keys[j] == k;
      assert keys[j] in keys;
    }
    assert keys[..i + 1] == keys[..i] + [keys[i]];
    AppendLists(keys[..i], before, keys[i]);
  }

  lemma AppendLists(s: seq<Key>, ks: set<Key>, k: Key)
    requires Lists(s, ks) && forall k' :: k' in ks ==> Less(k', k)
    ensures Lists(s + [k], ks + {k})
  {
    assert forall j :: 0 <= j < |s| ==> s[j] in s;
  }

  /** Adding the next key in order adds one flat key, or at most one common prefix, and that one sorts last. */
  lemma RollUpStep(before: set<Key>, k: Key, prefix: Key, delim: string)
    requires prefix <= k && forall k' :: k' in before ==> Less(k', k) && prefix <= k'
    ensures if IsFlat(k, prefix, delim) then
              && FlatKeys(before + {k}, prefix, delim, "") == FlatKeys(before, prefix, delim, "") + {k}
              && Groups(before + {k}, prefix, delim, "") == Groups(before, prefix, delim, "")
            else
              && FlatKeys(before + {k}, prefix, delim, "") == FlatKeys(before, prefix, delim, "")
              && Groups(before + {k}, prefix, delim, "") == Groups(before, prefix, delim, "") + {GroupOf(k, prefix, delim)}
              && forall g :: g in Groups(before, prefix, delim, "") ==>
                   g == GroupOf(k, prefix, delim) || Less(g, GroupOf(k, prefix, delim))
  {
    if !IsFlat(k, prefix, delim) {
      forall g | g in Groups(before, prefix, delim, "")
        ensures g == GroupOf(k, prefix, delim) || Less(g, GroupOf(k, prefix, delim))
      {
        var k' :| k' in before && Eligible(k', prefix, "") && !IsFlat(k', prefix, delim) && g == GroupOf(k', prefix, delim);
        GroupsOrdered(k', k, prefix, delim);
      }
    }
  }

  /** Let other goroutines run: their steps happen in order, between two calls of the caller. */
  method Perform(c: Client, acts: seq<Action>)
    modifies c
    ensures c.View() == AfterAll(old(c.View()), acts)
  {
    for i := 0 to |acts|
      invariant AfterAll(c.View(), acts[i..]) == AfterAll(old(c.View()), acts)
    {
      assert acts[i..][0] == acts[i] && acts[i..][1..] == acts[i + 1..];
      match acts[i] {
        case Arm(op, error) => c.FailOp(op, error);
        case Check(op) => var _ := c.CheckFail(op);
        case Overwrite(key, data) => c.objects := c.objects[key := data];
        case Remove(key) => var _ := c.Delete(key);
        case Duplicate(src, dst) => var _ := c.Copy(src, dst);
      }
    }
  }
}
