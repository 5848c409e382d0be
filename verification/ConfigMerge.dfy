/** Merging a partial remote configuration into the local one (client_new/server/remote_config_server.py). */
module ConfigMerge {
  import opened PyJson

  /** `_merge_partial_dict` over the first `n` remote fields. */
  function MergeFields(local: seq<Field>, remote: seq<Field>, n: nat): seq<Field>
    requires n <= |remote|
    decreases remote, n
  {
    if n == 0 then local
    else MergeField(MergeFields(local, remote, n - 1), remote, n - 1)
  }

  /** One turn of the loop: null is skipped, two dictionaries are merged, anything else replaces. */
  function MergeField(merged: seq<Field>, remote: seq<Field>, i: nat): seq<Field>
    requires i < |remote|
    decreases remote, i
  {
    var f := remote[i];
    if f.value.Null? then merged else Put(merged, f.key, MergeValue(GetOrNull(merged, f.key), f.value))
  }

  function MergeValue(current: Json, value: Json): Json
    decreases value
  {
    if current.Obj? && value.Obj? then Obj(MergeFields(current.fields, value.fields, |value.fields|)) else value
  }

  function Merge(local: seq<Field>, remote: seq<Field>): seq<Field> {
    MergeFields(local, remote, |remote|)
  }

  method MergePartialDict(local: seq<Field>, remote: seq<Field>) returns (merged: seq<Field>)
    ensures merged == Merge(local, remote)
    decreases remote
  {
    merged := local;
    for i := 0 to |remote|
      invariant merged == MergeFields(local, remote, i)
    {
      var key, remoteValue := remote[i].key, remote[i].value;
      ghost var before := merged;
      if !remoteValue.Null? {
        var currentValue := GetOrNull(merged, key);
        if currentValue.Obj? && remoteValue.Obj? {
          var inner := MergePartialDict(currentValue.fields, remoteValue.fields);
          merged := Put(merged, key, Obj(inner));
        } else {
          merged := Put(merged, key, remoteValue);
        }
      }
      assert MergeFields(local, remote, i + 1) == MergeField(before, remote, i);
      assert remoteValue.Null? || merged == Put(before, key, MergeValue(GetOrNull(before, key), remoteValue));
    }
  }

  /** Every dictionary in the value has distinct keys, as a Python dictionary does. */
  predicate WellKeyed(v: Json)
    decreases v
  {
    match v
    case Obj(fs) => DistinctKeys(fs) && forall i | 0 <= i < |fs| :: WellKeyed(fs[i].value)
    case Arr(items) => forall i | 0 <= i < |items| :: WellKeyed(items[i])
    case _ => true
  }

  predicate WellKeyedFields(fs: seq<Field>) {
    DistinctKeys(fs) && forall i | 0 <= i < |fs| :: WellKeyed(fs[i].value)
  }

  function MergedAt(local: seq<Field>, remote: seq<Field>, k: string): Option<Json> {
    if HasKey(remote, k) && !Get(remote, k).Null? then Some(MergeValue(GetOrNull(local, k), Get(remote, k)))
    else if HasKey(local, k) then Some(Get(local, k)) else None
  }

  function At(fs: seq<Field>, k: string): Option<Json> {
    if HasKey(fs, k) then Some(Get(fs, k)) else None
  }

  lemma {:induction false} MergeFieldsAt(local: seq<Field>, remote: seq<Field>, n: nat, k: string)
    requires n <= |remote| && DistinctKeys(remote)
    ensures At(MergeFields(local, remote, n), k) ==
      if IndexOf(remote, k) < n then MergedAt(local, remote, k) else At(local, k)
  {
    hide MergeValue, Put, IndexOf;
    if n > 0 {
      MergeFieldsAt(local, remote, n - 1, k);
      var merged, f := MergeFields(local, remote, n - 1), remote[n - 1];
      FirstIndex(remote, f.key, n - 1);
      if !f.value.Null? {
        PutThenGet(merged, f.key, MergeValue(GetOrNull(merged, f.key), f.value), k);
      }
    }
  }

  /** The merged dictionary, key by key: a remote value that is absent or null leaves what the local side has, two
      dictionaries are merged, and any other remote value arrives as it is. */
  lemma MergeAt(local: seq<Field>, remote: seq<Field>, k: string)
    requires DistinctKeys(remote)
    ensures var l, r, merged := At(local, k), At(remote, k), At(Merge(local, remote), k);
      && (r == None || r == Some(Null) ==> merged == l)
      && (r.Some? && !r.value.Null? && l.Some? && l.value.Obj? && r.value.Obj? ==>
            merged == Some(Obj(Merge(l.value.fields, r.value.fields))))
      && (r.Some? && !r.value.Null? && !(l.Some? && l.value.Obj? && r.value.Obj?) ==> merged == r)
  {
    MergeFieldsAt(local, remote, |remote|, k);
    hide MergeFields;
  }

  /** No local key is ever lost, and no key appears that neither side has. */
  lemma MergeKeys(local: seq<Field>, remote: seq<Field>, k: string)
    requires DistinctKeys(remote)
    ensures HasKey(local, k) ==> HasKey(Merge(local, remote), k)
    ensures HasKey(Merge(local, remote), k) ==> HasKey(local, k) || HasKey(remote, k)
  {
    hide Merge, MergeValue;
    MergeAt(local, remote, k);
  }

  lemma {:induction false} MergeKeepsDistinct(local: seq<Field>, remote: seq<Field>, n: nat)
    requires n <= |remote| && DistinctKeys(local)
    ensures DistinctKeys(MergeFields(local, remote, n))
  {
    hide MergeValue;
    if n > 0 {
      MergeKeepsDistinct(local, remote, n - 1);
      var merged, f := MergeFields(local, remote, n - 1), remote[n - 1];
      PutThenGet(merged, f.key, MergeValue(GetOrNull(merged, f.key), f.value), f.key);
    }
  }

  /** The local keys stay in front in their order. */
  lemma {:induction false} MergeKeepsOrder(local: seq<Field>, remote: seq<Field>, n: nat)
    requires n <= |remote|
    ensures var merged := MergeFields(local, remote, n);
      |local| <= |merged| && forall i | 0 <= i < |local| :: merged[i].key == local[i].key
  {
    hide MergeValue, Put;
    if n > 0 {
      MergeKeepsOrder(local, remote, n - 1);
      var merged, f := MergeFields(local, remote, n - 1), remote[n - 1];
      PutOrder(merged, f.key, MergeValue(GetOrNull(merged, f.key), f.value));
    }
  }

  // ---- Merging what is already there ----

  /** A remote value that `merged` has already absorbed: merging it again would change nothing. */
  predicate Absorbed(merged: seq<Field>, f: Field) {
    f.value.Null? || (HasKey(merged, f.key) && MergeValue(Get(merged, f.key), f.value) == Get(merged, f.key))
  }

  lemma {:induction false} AbsorbedChangesNothing(merged: seq<Field>, remote: seq<Field>, n: nat)
    requires n <= |remote| && forall i | 0 <= i < n :: Absorbed(merged, remote[i])
    ensures MergeFields(merged, remote, n) == merged
  {
    hide MergeValue;
    if n > 0 {
      AbsorbedChangesNothing(merged, remote, n - 1);
      if !remote[n - 1].value.Null? { PutSame(merged, remote[n - 1].key); }
    }
  }

  /** Merging a value with itself changes nothing, not even the order of keys. */
  lemma {:induction false} MergeSelf(v: Json)
    requires WellKeyed(v)
    ensures MergeValue(v, v) == v
    decreases v
  {
    if v.Obj? {
      forall i | 0 <= i < |v.fields| ensures Absorbed(v.fields, v.fields[i]) {
        IndexIsUnique(v.fields, i);
        MergeSelf(v.fields[i].value);
      }
      AbsorbedChangesNothing(v.fields, v.fields, |v.fields|);
    }
  }

  /** Merging the same remote value twice is merging it once. */
  lemma {:induction false} MergeTwice(current: Json, value: Json)
    requires WellKeyed(value)
    ensures MergeValue(MergeValue(current, value), value) == MergeValue(current, value)
    decreases value
  {
    if !(current.Obj? && value.Obj?) {
      MergeSelf(value);
    } else {
      var remote := value.fields;
      var merged := MergeFields(current.fields, remote, |remote|);
      forall i | 0 <= i < |remote| ensures Absorbed(merged, remote[i]) {
        IndexIsUnique(remote, i);
        MergeAt(current.fields, remote, remote[i].key);
        if !remote[i].value.Null? { MergeTwice(GetOrNull(current.fields, remote[i].key), remote[i].value); }
      }
      AbsorbedChangesNothing(merged, remote, |remote|);
    }
  }

  /** The whole configuration: merging with itself is the identity, and a second merge of a payload changes nothing. */
  lemma MergeIsIdempotent(local: seq<Field>, remote: seq<Field>)
    requires WellKeyedFields(remote)
    ensures Merge(Merge(local, remote), remote) == Merge(local, remote)
    ensures Merge(remote, remote) == remote
  {
    MergeTwice(Obj(local), Obj(remote));
    MergeSelf(Obj(remote));
  }

  // ---- Nulls at every depth ----

  /** The value at a path of keys. */
  function AtPath(v: Json, path: seq<string>): Option<Json>
    decreases |path|
  {
    if path == [] then Some(v)
    else if v.Obj? && HasKey(v.fields, path[0]) then AtPath(Get(v.fields, path[0]), path[1..])
    else None
  }

  /** Both values are dictionaries all the way down to the parent of the path's end. */
  predicate MergedDownTo(a: Json, b: Json, path: seq<string>)
    decreases |path|
  {
    path != [] ==> a.Obj? && b.Obj? && (|path| > 1 ==>
      HasKey(a.fields, path[0]) && HasKey(b.fields, path[0])
        && MergedDownTo(Get(a.fields, path[0]), Get(b.fields, path[0]), path[1..]))
  }

  /** Inside merged dictionaries, at any depth: a null or absent remote value leaves the local value, or its absence,
      as it was. */
  lemma {:induction false} NullLeavesLocal(local: Json, remote: Json, path: seq<string>)
    requires WellKeyed(remote) && path != [] && MergedDownTo(local, remote, path)
    requires AtPath(remote, path) == None || AtPath(remote, path) == Some(Null)
    ensures AtPath(MergeValue(local, remote), path) == AtPath(local, path)
    decreases |path|
  {
    var k, merged := path[0], Merge(local.fields, remote.fields);
    MergeAt(local.fields, remote.fields, k);
    assert MergeValue(local, remote) == Obj(merged);
    if |path| == 1 {
      assert path[1..] == [];
      if HasKey(remote.fields, k) { assert AtPath(Get(remote.fields, k), path[1..]) == Some(Get(remote.fields, k)); }
      if HasKey(local.fields, k) { assert AtPath(Get(local.fields, k), path[1..]) == Some(Get(local.fields, k)); }
      if HasKey(merged, k) { assert AtPath(Get(merged, k), path[1..]) == Some(Get(merged, k)); }
    } else {
      var i := IndexOf(remote.fields, k);
      assert WellKeyed(remote.fields[i].value);
      NullLeavesLocal(Get(local.fields, k), Get(remote.fields, k), path[1..]);
    }
  }

  /** Wherever a dictionary of the remote side has no dictionary to merge into, its nulls are copied. */
  lemma {:induction false} NullGetsThrough(local: Json, remote: Json, path: seq<string>)
    requires WellKeyed(remote) && path != [] && !MergedDownTo(local, remote, path) && AtPath(remote, path) == Some(Null)
    ensures AtPath(MergeValue(local, remote), path) == Some(Null)
    decreases |path|
  {
    if local.Obj? {
      var k, merged := path[0], Merge(local.fields, remote.fields);
      MergeAt(local.fields, remote.fields, k);
      assert MergeValue(local, remote) == Obj(merged);
      var i := IndexOf(remote.fields, k);
      assert WellKeyed(remote.fields[i].value);
      if HasKey(local.fields, k) {
        NullGetsThrough(Get(local.fields, k), Get(remote.fields, k), path[1..]);
      }
    }
  }

  /** A null of the remote side leaves the local value at its path, or its absence, exactly when everything above it
      is merged dictionary into dictionary, or the local value was null already. Everywhere else the null itself
      arrives. */
  lemma NullIsSkippedExactlyWhen(local: Json, remote: Json, path: seq<string>)
    requires WellKeyed(remote) && path != [] && AtPath(remote, path) == Some(Null)
    ensures AtPath(MergeValue(local, remote), path) == AtPath(local, path)
      <==> MergedDownTo(local, remote, path) || AtPath(local, path) == Some(Null)
    ensures !MergedDownTo(local, remote, path) ==> AtPath(MergeValue(local, remote), path) == Some(Null)
  {
    hide MergedDownTo, AtPath, MergeValue;
    if MergedDownTo(local, remote, path) {
      NullLeavesLocal(local, remote, path);
    } else {
      NullGetsThrough(local, remote, path);
    }
  }

  // ---- Values at every depth ----

  /** A remote value that is not null arrives at its path, however deep and whatever the local side has on the way. A
      dictionary that meets a local dictionary at the same path is merged into it, key by key; everything else arrives
      as it is. */
  lemma {:induction false} ValueArrives(local: seq<Field>, remote: seq<Field>, path: seq<string>)
    requires WellKeyedFields(remote) && path != []
    requires AtPath(Obj(remote), path).Some? && !AtPath(Obj(remote), path).value.Null?
    ensures var l, r := AtPath(Obj(local), path), AtPath(Obj(remote), path);
      var merged := AtPath(Obj(Merge(local, remote)), path);
      if l.Some? && l.value.Obj? && r.value.Obj? then merged == Some(Obj(Merge(l.value.fields, r.value.fields)))
      else merged == r
    decreases |path|
  {
    hide Merge;
    var k := path[0];
    MergeAt(local, remote, k);
    var r := Get(remote, k);
    var i := IndexOf(remote, k);
    assert WellKeyed(remote[i].value);
    if |path| == 1 {
      assert path[1..] == [];
      StepsTo(Obj(local), k, []);
      StepsTo(Obj(Merge(local, remote)), k, []);
    } else {
      assert r.Obj? by { assert path[1..] != []; }
      if HasKey(local, k) && Get(local, k).Obj? { ValueArrives(Get(local, k).fields, r.fields, path[1..]); }
    }
  }

  lemma StepsTo(v: Json, k: string, rest: seq<string>)
    requires v.Obj?
    ensures AtPath(v, [k] + rest) == if HasKey(v.fields, k) then AtPath(Get(v.fields, k), rest) else None
  {
    assert ([k] + rest)[1..] == rest;
  }

  /** An example: the null rule stops at a dictionary the local side does not have: there the remote dictionary is
      copied, nulls included. */
  lemma NullSurvivesInNewDictionary()
    ensures var remote := [Field("a", Obj([Field("b", Null)]))];
      Merge([], remote) == remote && AtPath(Obj(Merge([], remote)), ["a", "b"]) == Some(Null)
  {
    var inner := [Field("b", Null)];
    var remote := [Field("a", Obj(inner))];
    assert MergeFields([], remote, 0) == [];
    assert MergeFields([], remote, 1) == MergeField([], remote, 0) == Put([], "a", MergeValue(Null, Obj(inner)));
    assert ["a", "b"][1..] == ["b"] && ["b"][1..] == [];
  }
}
