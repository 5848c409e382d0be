/** Cleaning a worker's result before the schema check
    (client_new/services/ticket_ai_result_schema_service.py). */
module ResultSanitizer {
  import opened PyJson
  import opened ResultSchema

  /** `str(v)` for values that are not strings, and `json.dumps(v)`. */
  datatype TextOps = TextOps(toStr: Json -> string, dumps: Json -> string)

  datatype Action = Dropped(key: string) | Normalized(index: nat, from: string)

  predicate Truthy(v: Json) {
    match v
    case Null => false
    case Bool(b) => b
    case Int(i) => i != 0
    case Float(r) => r != 0.0
    case Str(s) => s != ""
    case Arr(items) => items != []
    case Obj(fields) => fields != []
  }

  function StripLeft(s: string): string {
    if s != "" && IsSpace(s[0]) then StripLeft(s[1..]) else s
  }

  function StripRight(s: string): string {
    if s != "" && IsSpace(s[|s| - 1]) then StripRight(s[..|s| - 1]) else s
  }

  function FieldText(fs: seq<Field>, key: string, ops: TextOps): string {
    var v := GetOrNull(fs, key);
    var text := if !Truthy(v) then "" else if v.Str? then v.s else ops.toStr(v);
    StripRight(StripLeft(text))
  }

  function CoerceEvidenceEntry(item: Json, ops: TextOps): string {
    if item.Obj? then
      var source, content := FieldText(item.fields, "source", ops), FieldText(item.fields, "content", ops);
      if source != "" && content != "" then source + ": " + content
      else if content != "" then content else source
    else ops.dumps(item)
  }

  /** The first declared property of that name, or the empty schema. */
  function PropertySchema(ps: seq<Property>, name: string): Schema {
    if ps == [] then ANYTHING else if ps[0].name == name then ps[0].schema else PropertySchema(ps[1..], name)
  }

  /** The schema wants the elements of `evidence` to be strings. */
  predicate WantsStringEvidence(schema: Schema) {
    ItemsOf(PropertySchema(schema.properties, "evidence")).typ == Named("string")
  }

  function DeclaredOnly(fs: seq<Field>, ps: seq<Property>): seq<Field> {
    if fs == [] then []
    else (if Declares(ps, fs[0].key) then [fs[0]] else []) + DeclaredOnly(fs[1..], ps)
  }

  function DropActions(fs: seq<Field>, ps: seq<Property>): seq<Action> {
    if fs == [] then []
    else (if Declares(ps, fs[0].key) then [] else [Dropped(fs[0].key)]) + DropActions(fs[1..], ps)
  }

  function Normalize(item: Json, ops: TextOps): Json {
    if item.Str? then item else Str(CoerceEvidenceEntry(item, ops))
  }

  function NormalizeAll(items: seq<Json>, ops: TextOps): seq<Json> {
    seq(|items|, i requires 0 <= i < |items| => Normalize(items[i], ops))
  }

  function NormalizeActions(items: seq<Json>, n: nat): seq<Action>
    requires n <= |items|
  {
    if n == 0 then []
    else
      NormalizeActions(items, n - 1)
      + (if items[n - 1].Str? then [] else [Normalized(n - 1, TypeName(items[n - 1]))])
  }

  function Kept(fs: seq<Field>, schema: Schema): seq<Field> {
    if schema.closed then DeclaredOnly(fs, schema.properties) else fs
  }

  function Sanitized(fs: seq<Field>, schema: Schema, ops: TextOps): seq<Field> {
    var kept := Kept(fs, schema);
    var evidence := GetOrNull(kept, "evidence");
    if WantsStringEvidence(schema)
      && evidence.Arr? then Put(kept, "evidence", Arr(NormalizeAll(evidence.items, ops))) else kept
  }

  function Actions(fs: seq<Field>, schema: Schema): seq<Action> {
    var evidence := GetOrNull(Kept(fs, schema), "evidence");
    (if schema.closed then DropActions(fs, schema.properties) else [])
    + (if WantsStringEvidence(schema) && evidence.Arr? then NormalizeActions(evidence.items, |evidence.items|) else [])
  }

  method SanitizeResultPayload(payload: seq<Field>, schema: Schema, ops: TextOps)
    returns (cleaned: seq<Field>, actions: seq<Action>)
    requires DistinctKeys(payload)
    ensures cleaned == Sanitized(payload, schema, ops) && actions == Actions(payload, schema)
  {
    cleaned, actions := payload, [];
    if schema.closed {
      cleaned, actions := PopUndeclared(payload, schema.properties);
    }
    var evidence := GetOrNull(cleaned, "evidence");
    if WantsStringEvidence(schema) && evidence.Arr? {
      var normalized, more := NormalizeEvidence(evidence.items, ops);
      cleaned := Put(cleaned, "evidence", Arr(normalized));
      actions := actions + more;
    }
  }

  method PopUndeclared(payload: seq<Field>, ps: seq<Property>) returns (cleaned: seq<Field>, actions: seq<Action>)
    requires DistinctKeys(payload)
    ensures cleaned == DeclaredOnly(payload, ps) && actions == DropActions(payload, ps)
  {
    hide Declares, Without, DeclaredOnly, DropActions, DistinctKeys;
    cleaned, actions := payload, [];
    NothingPopped(payload, ps);
    for i := 0 to |payload|
      invariant cleaned == DeclaredOnly(payload[..i], ps) + payload[i..]
      invariant actions == DropActions(payload[..i], ps)
    {
      PopStep(payload, i, ps);
      if !Declares(ps, payload[i].key) {
        cleaned := Without(cleaned, payload[i].key);
        actions := actions + [Dropped(payload[i].key)];
      }
    }
    assert payload[..|payload|] == payload && payload[|payload|..] == [];
  }

  lemma NothingPopped(payload: seq<Field>, ps: seq<Property>)
    ensures payload == DeclaredOnly(payload[..0], ps) + payload[0..] && DropActions(payload[..0], ps) == []
  {
  }

  /** Popping an undeclared key from what is left removes exactly the field the loop stands at. */
  lemma PopStep(payload: seq<Field>, i: nat, ps: seq<Property>)
    requires i < |payload| && DistinctKeys(payload)
    ensures var f := payload[i];
      var left, next := DeclaredOnly(payload[..i], ps) + payload[i..],
        DeclaredOnly(payload[..i + 1], ps) + payload[i + 1..];
      && next == (if Declares(ps, f.key) then left else Without(left, f.key))
      && DropActions(payload[..i + 1], ps)
        == DropActions(payload[..i], ps) + (if Declares(ps, f.key) then [] else [Dropped(f.key)])
  {
    hide Declares, Without, DeclaredOnly, DropActions;
    assert payload[..i + 1] == payload[..i] + [payload[i]] && payload[i..] == [payload[i]] + payload[i + 1..];
    DeclaredOnlyAppend(payload[..i], payload[i], ps);
    var done := DeclaredOnly(payload[..i], ps);
    if Declares(ps, payload[i].key) {
      assert done + ([payload[i]] + payload[i + 1..]) == (done + [payload[i]]) + payload[i + 1..];
    } else {
      DropsItself(payload, i, ps);
    }
  }

  method NormalizeEvidence(items: seq<Json>, ops: TextOps) returns (normalized: seq<Json>, actions: seq<Action>)
    ensures normalized == NormalizeAll(items, ops) && actions == NormalizeActions(items, |items|)
  {
    hide CoerceEvidenceEntry;
    normalized, actions := [], [];
    for i := 0 to |items|
      invariant normalized == NormalizeAll(items, ops)[..i]
      invariant actions == NormalizeActions(items, i)
    {
      var item := items[i];
      if item.Str? {
        normalized := normalized + [item];
      } else {
        normalized := normalized + [Str(CoerceEvidenceEntry(item, ops))];
        actions := actions + [Normalized(i, TypeName(item))];
      }
    }
  }

  lemma {:induction false} DeclaredOnlyAppend(fs: seq<Field>, f: Field, ps: seq<Property>)
    ensures DeclaredOnly(fs + [f], ps) == DeclaredOnly(fs, ps) + (if Declares(ps, f.key) then [f] else [])
    ensures DropActions(fs + [f], ps) == DropActions(fs, ps) + (if Declares(ps, f.key) then [] else [Dropped(f.key)])
  {
    if fs != [] {
      assert (fs + [f])[1..] == fs[1..] + [f];
      DeclaredOnlyAppend(fs[1..], f, ps);
    }
  }

  lemma {:induction false} DeclaredLookup(fs: seq<Field>, ps: seq<Property>, k: string)
    ensures HasKey(DeclaredOnly(fs, ps), k) <==> HasKey(fs, k) && Declares(ps, k)
    ensures HasKey(DeclaredOnly(fs, ps), k) ==> Get(DeclaredOnly(fs, ps), k) == Get(fs, k)
  {
    hide Declares, HasKey, Get, IndexOf;
    if fs != [] {
      var f, rest := fs[0], DeclaredOnly(fs[1..], ps);
      DeclaredLookup(fs[1..], ps, k);
      assert fs == [f] + fs[1..] && DeclaredOnly(fs, ps) == if Declares(ps, f.key) then [f] + rest else rest;
      ConsLookup(f, fs[1..], k);
      ConsLookup(f, rest, k);
    } else {
      EmptyLookup(k);
    }
  }

  lemma EmptyLookup(k: string)
    ensures !HasKey([], k)
  {
  }

  lemma ConsLookup(f: Field, fs: seq<Field>, k: string)
    ensures HasKey([f] + fs, k) <==> f.key == k || HasKey(fs, k)
    ensures HasKey([f] + fs, k) ==> Get([f] + fs, k) == if f.key == k then f.value else Get(fs, k)
  {
    assert ([f] + fs)[1..] == fs;
  }

  predicate AllDeclared(fs: seq<Field>, ps: seq<Property>) {
    forall i | 0 <= i < |fs| :: Declares(ps, fs[i].key)
  }

  lemma {:induction false} KeepsDeclared(fs: seq<Field>, ps: seq<Property>)
    ensures AllDeclared(DeclaredOnly(fs, ps), ps)
    ensures AllDeclared(fs, ps) ==> DeclaredOnly(fs, ps) == fs && DropActions(fs, ps) == []
  {
    hide Declares;
    if fs != [] {
      KeepsDeclared(fs[1..], ps);
      assert forall i | 0 < i < |fs| :: fs[i] == fs[1..][i - 1];
    }
  }

  lemma {:induction false} KeptAreMembers(fs: seq<Field>, ps: seq<Property>, f: Field)
    requires f in DeclaredOnly(fs, ps)
    ensures f in fs && Declares(ps, f.key)
  {
    hide Declares;
    if fs != [] && f in DeclaredOnly(fs[1..], ps) { KeptAreMembers(fs[1..], ps, f); }
  }

  lemma DropsItself(payload: seq<Field>, i: nat, ps: seq<Property>)
    requires i < |payload| && DistinctKeys(payload) && !Declares(ps, payload[i].key)
    ensures var done := DeclaredOnly(payload[..i], ps);
      Without(done + payload[i..], payload[i].key) == done + payload[i + 1..]
  {
    hide Declares;
    var done, key := DeclaredOnly(payload[..i], ps), payload[i].key;
    forall j | 0 <= j < |done| ensures done[j].key != key {
      KeptAreMembers(payload[..i], ps, done[j]);
    }
    var all := done + payload[i..];
    assert all[|done|] == payload[i];
    FirstIndex(all, key, |done|);
    assert all[..|done|] == done && all[|done| + 1..] == payload[i + 1..];
  }

  // ---- What cleaning guarantees ----

  lemma {:induction false} AllStrings(items: seq<Json>, n: nat, ops: TextOps)
    requires n <= |items|
    ensures NormalizeActions(items, n) == [] <==> forall i | 0 <= i < n :: items[i].Str?
    ensures (forall i | 0 <= i < |items| :: items[i].Str?) ==> NormalizeAll(items, ops) == items
    ensures forall i | 0 <= i < |items| :: NormalizeAll(items, ops)[i].Str?
  {
    hide CoerceEvidenceEntry;
    if n > 0 { AllStrings(items, n - 1, ops); }
  }

  /** The state cleaning leads to: no undeclared field where the schema is closed, and string evidence where it asks
      for it. */
  predicate IsClean(fs: seq<Field>, schema: Schema) {
    && (schema.closed ==> AllDeclared(fs, schema.properties))
    && (WantsStringEvidence(schema) && GetOrNull(fs, "evidence").Arr? ==>
          forall i | 0 <= i < |GetOrNull(fs, "evidence").items| :: GetOrNull(fs, "evidence").items[i].Str?)
  }

  lemma CleanIsLeftAlone(fs: seq<Field>, schema: Schema, ops: TextOps)
    requires IsClean(fs, schema)
    ensures Sanitized(fs, schema, ops) == fs && Actions(fs, schema) == []
  {
    KeepsDeclared(fs, schema.properties);
    var evidence := GetOrNull(fs, "evidence");
    if evidence.Arr? {
      AllStrings(evidence.items, |evidence.items|, ops);
      PutSame(fs, "evidence");
    }
  }

  lemma SanitizedIsClean(fs: seq<Field>, schema: Schema, ops: TextOps)
    ensures IsClean(Sanitized(fs, schema, ops), schema)
  {
    hide Declares;
    var kept := Kept(fs, schema);
    KeepsDeclared(fs, schema.properties);
    var evidence := GetOrNull(kept, "evidence");
    if WantsStringEvidence(schema) && evidence.Arr? {
      AllStrings(evidence.items, |evidence.items|, ops);
      PutThenGet(kept, "evidence", Arr(NormalizeAll(evidence.items, ops)), "");
    }
  }

  /** Cleaning is idempotent, reports nothing the second time, and leaves no undeclared root field and no
      non-string evidence element where the schema forbids them. */
  lemma SanitizeIdempotent(fs: seq<Field>, schema: Schema, ops: TextOps)
    ensures IsClean(Sanitized(fs, schema, ops), schema)
    ensures Sanitized(Sanitized(fs, schema, ops), schema, ops) == Sanitized(fs, schema, ops)
    ensures Actions(Sanitized(fs, schema, ops), schema) == []
  {
    SanitizedIsClean(fs, schema, ops);
    CleanIsLeftAlone(Sanitized(fs, schema, ops), schema, ops);
  }

  /** After cleaning, the schema check reports no extra field at the root of a closed schema, and nothing about the
      elements of an evidence list that has to hold strings. */
  lemma CleanedRootHasNoSuchViolations(fs: seq<Field>, schema: Schema, ops: TextOps, path: seq<Step>)
    ensures var out := Sanitized(fs, schema, ops);
      && (schema.closed ==> ExtraFields(out, schema.properties, path) == [])
      && (WantsStringEvidence(schema) && GetOrNull(out, "evidence").Arr? ==>
            CollectItems(GetOrNull(out, "evidence"), |GetOrNull(out, "evidence").items|,
                         ItemsOf(PropertySchema(schema.properties, "evidence")), path) == [])
  {
    hide Sanitized, PropertySchema, Declares;
    var out, items := Sanitized(fs, schema, ops), ItemsOf(PropertySchema(schema.properties, "evidence"));
    SanitizedIsClean(fs, schema, ops);
    NoExtraFields(out, schema.properties, path);
    var evidence := GetOrNull(out, "evidence");
    if WantsStringEvidence(schema) && evidence.Arr? {
      forall i | 0 <= i < |evidence.items| ensures Conforms(evidence.items[i], items) {
        assert ConformsNamed(evidence.items[i], items, "string");
      }
      ItemsIffConform(evidence, |evidence.items|, items, path);
    }
  }

  /** The type of the evidence property makes the schema check look at the elements of every list it accepts. */
  predicate ChecksElements(t: TypeSpec) {
    match t
    case Untyped => false
    case Named(name) => KnownType(name)
    case AnyOf(names) => forall i | 0 <= i < |names| :: KnownType(names[i])
  }

  predicate KnownType(name: string) {
    || name == "object" || name == "array" || name == "string" || name == "number" || name == "integer"
    || name == "null" || name == "boolean"
  }

  lemma {:induction false} DeclaredSchema(ps: seq<Property>, name: string)
    requires PropertySchema(ps, name) != ANYTHING
    ensures Property(name, PropertySchema(ps, name)) in ps
  {
    if ps[0].name != name { DeclaredSchema(ps[1..], name); }
  }

  lemma ConformingListHasConformingElements(v: Json, e: Schema)
    requires v.Arr? && Conforms(v, e) && ChecksElements(e.typ) && ItemsOf(e).typ == Named("string")
    ensures forall i | 0 <= i < |v.items| :: v.items[i].Str?
  {
    match e.typ
    case Named(name) => ElementsConform(v, e, name);
    case AnyOf(names) =>
      var i :| 0 <= i < |names| && ConformsNamed(v, e, names[i]);
      ElementsConform(v, e, names[i]);
  }

  lemma ElementsConform(v: Json, e: Schema, name: string)
    requires v.Arr? && ConformsNamed(v, e, name) && KnownType(name) && ItemsOf(e).typ == Named("string")
    ensures forall i | 0 <= i < |v.items| :: v.items[i].Str?
  {
    assert name == "array";
    forall i | 0 <= i < |v.items| ensures v.items[i].Str? { assert Conforms(v.items[i], ItemsOf(e)); }
  }

  /** A payload that already conforms to an object schema is not touched, and nothing is reported, as long as the
      evidence property, if its elements are to be strings, has a type. */
  lemma ConformingIsLeftAlone(fs: seq<Field>, schema: Schema, ops: TextOps)
    requires schema.typ == Named("object") && Conforms(Obj(fs), schema)
    requires WantsStringEvidence(schema) ==> ChecksElements(PropertySchema(schema.properties, "evidence").typ)
    ensures Sanitized(fs, schema, ops) == fs && Actions(fs, schema) == []
  {
    assert ConformsNamed(Obj(fs), schema, "object");
    var e, v := PropertySchema(schema.properties, "evidence"), GetOrNull(fs, "evidence");
    if WantsStringEvidence(schema) && v.Arr? {
      DeclaredSchema(schema.properties, "evidence");
      assert Conforms(Obj(fs).fields[IndexOf(fs, "evidence")].value, e);
      ConformingListHasConformingElements(v, e);
    }
    CleanIsLeftAlone(fs, schema, ops);
  }

  /** For a conforming payload the condition is exact: it is left alone if and only if its evidence list, where the
      schema asks for strings, holds only strings. Conformance implies this only when the evidence property has a
      type. */
  lemma ConformingIsLeftAloneExactlyWhen(fs: seq<Field>, schema: Schema, ops: TextOps)
    requires schema.typ == Named("object") && Conforms(Obj(fs), schema)
    ensures Sanitized(fs, schema, ops) == fs && Actions(fs, schema) == [] <==>
      (WantsStringEvidence(schema) && GetOrNull(fs, "evidence").Arr? ==>
         forall i | 0 <= i < |GetOrNull(fs, "evidence").items| :: GetOrNull(fs, "evidence").items[i].Str?)
  {
    assert ConformsNamed(Obj(fs), schema, "object");
    assert schema.closed ==> AllDeclared(fs, schema.properties);
    hide Sanitized, Actions, Conforms, ConformsNamed, WantsStringEvidence, AllDeclared;
    SanitizedIsClean(fs, schema, ops);
    if IsClean(fs, schema) { CleanIsLeftAlone(fs, schema, ops); }
  }

  /** Without a type on the evidence property the check never looks at its elements, but cleaning still rewrites
      them. */
  lemma UntypedEvidenceIsRewritten(ops: TextOps)
    ensures var e := Schema(Untyped, [], [], false, Some(Schema(Named("string"), [], [], false, None)));
      var schema := Schema(Named("object"), [], [Property("evidence", e)], true, None);
      var fs := [Field("evidence", Arr([Null]))];
      Conforms(Obj(fs), schema) && Sanitized(fs, schema, ops) != fs && Actions(fs, schema) != []
  {
    var e := Schema(Untyped, [], [], false, Some(Schema(Named("string"), [], [], false, None)));
    var p := Property("evidence", e);
    var schema := Schema(Named("object"), [], [p], true, None);
    var fs := [Field("evidence", Arr([Null]))];
    assert Declares([p], "evidence") by { assert [p][0].name == "evidence"; }
    assert ConformsNamed(Obj(fs), schema, "object");
    KeepsDeclared(fs, [p]);
    assert Kept(fs, schema) == fs && GetOrNull(fs, "evidence") == Arr([Null]);
    AllStrings([Null], 1, ops);
    assert Normalize(Null, ops).Str?;
    assert NormalizeAll([Null], ops)[0] != Null;
    assert Get(Sanitized(fs, schema, ops), "evidence") != Arr([Null]);
  }

  // ---- What cleaning repairs ----

  predicate Distinct(ps: seq<Property>) {
    forall i, j | 0 <= i < j < |ps| :: ps[i].name != ps[j].name
  }

  /** The evidence property is the plain list of strings of the service's own schema. */
  predicate StringListEvidence(schema: Schema) {
    WantsStringEvidence(schema) && PropertySchema(schema.properties, "evidence").typ == Named("array")
  }

  /** What a payload must satisfy before cleaning for the result to conform: the required fields that survive are there,
      and every declared field conforms, except that evidence need only be a list. */
  predicate Repairable(fs: seq<Field>, schema: Schema) {
    && (forall i | 0 <= i < |schema.required| ::
          HasKey(fs, schema.required[i]) && (schema.closed ==> Declares(schema.properties, schema.required[i])))
    && (forall p: Property | p in schema.properties && HasKey(fs, p.name) ::
          if p.name == "evidence" then Get(fs, p.name).Arr? else Conforms(Get(fs, p.name), p.schema))
  }

  lemma {:induction false} DistinctSchema(ps: seq<Property>, p: Property)
    requires Distinct(ps) && p in ps
    ensures PropertySchema(ps, p.name) == p.schema && Declares(ps, p.name)
  {
    var i :| 0 <= i < |ps| && ps[i] == p;
    if i > 0 {
      assert ps[1..][i - 1] == p && ps[0].name != p.name;
      DistinctSchema(ps[1..], p);
    }
  }

  lemma SanitizedLookup(fs: seq<Field>, schema: Schema, ops: TextOps, k: string)
    ensures HasKey(Sanitized(fs, schema, ops), k)
      <==> HasKey(fs, k) && (schema.closed ==> Declares(schema.properties, k))
    ensures HasKey(Sanitized(fs, schema, ops), k) && k != "evidence"
      ==> Get(Sanitized(fs, schema, ops), k) == Get(fs, k)
    ensures HasKey(Sanitized(fs, schema, ops), k) && k == "evidence" ==>
      Get(Sanitized(fs, schema, ops), k) ==
        if WantsStringEvidence(schema) && Get(fs, k).Arr? then Arr(NormalizeAll(Get(fs, k).items, ops)) else Get(fs, k)
  {
    hide Declares, NormalizeAll;
    DeclaredLookup(fs, schema.properties, k);
    DeclaredLookup(fs, schema.properties, "evidence");
    var evidence := GetOrNull(Kept(fs, schema), "evidence");
    if evidence.Arr? {
      PutThenGet(Kept(fs, schema), "evidence", Arr(NormalizeAll(evidence.items, ops)), k);
    }
  }

  // ---- What the evidence texts become ----

  /** Python's falsy values. */
  predicate IsEmptyValue(v: Json) {
    || v == Null || v == Bool(false) || v == Int(0) || v == Float(0.0) || v == Str("") || v == Arr([]) || v == Obj([])
  }

  /** `t` is `text` without the blanks at its ends. */
  ghost predicate StripsTo(text: string, t: string) {
    && (t != "" ==> !IsSpace(t[0]) && !IsSpace(t[|t| - 1]))
    && exists i, j :: StrippedAt(text, t, i, j)
  }

  predicate StrippedAt(text: string, t: string, i: int, j: int) {
    && 0 <= i <= j <= |text| && text[i..j] == t
    && (forall k | 0 <= k < i :: IsSpace(text[k])) && (forall k | j <= k < |text| :: IsSpace(text[k]))
  }

  /** The text an evidence entry gives under a key: nothing for an empty value, and otherwise the value as a text
      without the blanks at its ends. */
  ghost predicate GivesText(fs: seq<Field>, key: string, ops: TextOps, t: string) {
    var v := GetOrNull(fs, key);
    && (IsEmptyValue(v) ==> t == "")
    && (!IsEmptyValue(v) && v.Str? ==> StripsTo(v.s, t))
    && (!IsEmptyValue(v) && !v.Str? ==> StripsTo(ops.toStr(v), t))
  }

  lemma {:induction false} StripLeftIs(text: string, t: string, i: int)
    requires 0 <= i <= |text| && (forall k | 0 <= k < i :: IsSpace(text[k])) && t == text[i..]
    requires t != "" ==> !IsSpace(t[0])
    ensures StripLeft(text) == t
    decreases i
  {
    hide IsSpace;
    if i > 0 {
      assert text[1..][i - 1..] == t;
      StripLeftIs(text[1..], t, i - 1);
    } else {
      assert text[0..] == text;
    }
  }

  lemma {:induction false} StripRightIs(text: string, t: string, j: int)
    requires 0 <= j <= |text| && (forall k | j <= k < |text| :: IsSpace(text[k])) && t == text[..j]
    requires t != "" ==> !IsSpace(t[|t| - 1])
    ensures StripRight(text) == t
    decreases |text| - j
  {
    hide IsSpace;
    if j < |text| {
      assert text[..|text| - 1][..j] == t;
      StripRightIs(text[..|text| - 1], t, j);
    } else {
      assert text[..|text|] == text;
    }
  }

  lemma StripIs(text: string, t: string)
    requires StripsTo(text, t)
    ensures StripRight(StripLeft(text)) == t
  {
    hide IsSpace;
    var i, j :| StrippedAt(text, t, i, j);
    if t == "" {
      assert forall k | 0 <= k < |text| :: IsSpace(text[k]);
      StripLeftIs(text, "", |text|);
    } else {
      var right := text[i..];
      assert right[0] == t[0];
      StripLeftIs(text, right, i);
      assert right[..j - i] == t;
      StripRightIs(right, t, j - i);
    }
  }

  lemma FieldTextIs(fs: seq<Field>, key: string, ops: TextOps, t: string)
    requires GivesText(fs, key, ops, t)
    ensures FieldText(fs, key, ops) == t
  {
    hide StripLeft, StripRight, StripsTo, GetOrNull;
    var v := GetOrNull(fs, key);
    assert Truthy(v) <==> !IsEmptyValue(v);
    if IsEmptyValue(v) {
      NothingToStrip();
    } else {
      StripIs(if v.Str? then v.s else ops.toStr(v), t);
    }
  }

  lemma NothingToStrip()
    ensures StripRight(StripLeft("")) == ""
  {
  }

  /** What each element of an evidence list of strings becomes: a string stays; a dictionary becomes "source: content",
      or the one of the two that gives any text; anything else becomes its JSON text. */
  lemma EvidenceBecomes(fs: seq<Field>, schema: Schema, ops: TextOps, i: nat, source: string, content: string)
    requires WantsStringEvidence(schema) && (schema.closed ==> Declares(schema.properties, "evidence"))
    requires HasKey(fs, "evidence") && Get(fs, "evidence").Arr? && i < |Get(fs, "evidence").items|
    ensures HasKey(Sanitized(fs, schema, ops), "evidence")
    ensures var was, out := Get(fs, "evidence"), Get(Sanitized(fs, schema, ops), "evidence");
      && out.Arr? && |out.items| == |was.items|
      && (was.items[i].Str? ==> out.items[i] == was.items[i])
      && (!was.items[i].Str? && !was.items[i].Obj? ==> out.items[i] == Str(ops.dumps(was.items[i])))
      && (was.items[i].Obj? && GivesText(was.items[i].fields, "source", ops, source)
          && GivesText(was.items[i].fields, "content", ops, content) ==>
            && (source != "" && content != "" ==> out.items[i] == Str(source + ": " + content))
            && (source == "" ==> out.items[i] == Str(content))
            && (content == "" ==> out.items[i] == Str(source)))
  {
    hide Sanitized, Declares, WantsStringEvidence, IndexOf, FieldText, GivesText;
    SanitizedLookup(fs, schema, ops, "evidence");
    var item := Get(fs, "evidence").items[i];
    if item.Obj? && GivesText(item.fields, "source", ops, source) && GivesText(item.fields, "content", ops, content) {
      FieldTextIs(item.fields, "source", ops, source);
      FieldTextIs(item.fields, "content", ops, content);
    }
  }

  /** What is reported: each undeclared field of a closed schema as dropped, and each element of an evidence list of
      strings that was none as normalised, with its place and what it was. */
  lemma ActionsAre(fs: seq<Field>, schema: Schema, k: string, i: nat, from: string)
    ensures Dropped(k) in Actions(fs, schema)
      <==> schema.closed && HasKey(fs, k) && !Declares(schema.properties, k)
    ensures Normalized(i, from) in Actions(fs, schema) <==>
      && WantsStringEvidence(schema) && (schema.closed ==> Declares(schema.properties, "evidence"))
      && HasKey(fs, "evidence") && Get(fs, "evidence").Arr? && i < |Get(fs, "evidence").items|
      && !Get(fs, "evidence").items[i].Str? && from == TypeName(Get(fs, "evidence").items[i])
  {
    hide Declares, WantsStringEvidence, DropActions, NormalizeActions, DeclaredOnly, HasKey, Get;
    DropActionsAre(fs, schema.properties, k, i, from);
    DeclaredLookup(fs, schema.properties, "evidence");
    var evidence := GetOrNull(Kept(fs, schema), "evidence");
    if evidence.Arr? { NormalizeActionsAre(evidence.items, |evidence.items|, k, i, from); }
  }

  lemma {:induction false} DropActionsAre(fs: seq<Field>, ps: seq<Property>, k: string, i: nat, from: string)
    ensures Dropped(k) in DropActions(fs, ps) <==> HasKey(fs, k) && !Declares(ps, k)
    ensures Normalized(i, from) !in DropActions(fs, ps)
  {
    hide Declares, HasKey;
    if fs != [] {
      DropActionsAre(fs[1..], ps, k, i, from);
      ConsLookup(fs[0], fs[1..], k);
      assert fs == [fs[0]] + fs[1..];
    } else {
      EmptyLookup(k);
    }
  }

  lemma {:induction false} NormalizeActionsAre(items: seq<Json>, n: nat, k: string, i: nat, from: string)
    requires n <= |items|
    ensures Normalized(i, from) in NormalizeActions(items, n) <==> i < n && !items[i].Str? && from == TypeName(items[i])
    ensures Dropped(k) !in NormalizeActions(items, n)
  {
    hide TypeName;
    if n > 0 { NormalizeActionsAre(items, n - 1, k, i, from); }
  }

  /** For a schema with the service's evidence list, the cleaned payload conforms exactly when the payload was
      repairable. */
  lemma SanitizedConformsExactlyWhen(fs: seq<Field>, schema: Schema, ops: TextOps)
    requires schema.typ == Named("object") && Distinct(schema.properties) && StringListEvidence(schema)
    ensures Conforms(Obj(Sanitized(fs, schema, ops)), schema) <==> Repairable(fs, schema)
  {
    hide Sanitized, Conforms, Declares, PropertySchema, IndexOf;
    var out := Sanitized(fs, schema, ops);
    forall k: string
      ensures HasKey(out, k) <==> HasKey(fs, k) && (schema.closed ==> Declares(schema.properties, k))
    {
      SanitizedLookup(fs, schema, ops, k);
    }
    forall p: Property | p in schema.properties && HasKey(fs, p.name)
      ensures HasKey(out, p.name)
      ensures Conforms(Get(out, p.name), p.schema) <==>
        if p.name == "evidence" then Get(fs, p.name).Arr? else Conforms(Get(fs, p.name), p.schema)
    {
      SanitizedLookup(fs, schema, ops, p.name);
      DistinctSchema(schema.properties, p);
      if p.name == "evidence" { EvidenceConforms(Get(fs, p.name), p.schema, ops); }
    }
    SanitizedIsClean(fs, schema, ops);
    ObjectConforms(out, schema);
  }

  lemma ObjectConforms(fs: seq<Field>, schema: Schema)
    requires schema.typ == Named("object")
    ensures Conforms(Obj(fs), schema) <==>
      (&& (forall i | 0 <= i < |schema.required| :: HasKey(fs, schema.required[i]))
       && (schema.closed ==> AllDeclared(fs, schema.properties))
       && (forall p: Property | p in schema.properties && HasKey(fs, p.name) :: Conforms(Get(fs, p.name), p.schema)))
  {
    assert Conforms(Obj(fs), schema) == ConformsNamed(Obj(fs), schema, "object");
  }

  lemma EvidenceConforms(v: Json, e: Schema, ops: TextOps)
    requires e.typ == Named("array") && ItemsOf(e).typ == Named("string")
    ensures Conforms(if v.Arr? then Arr(NormalizeAll(v.items, ops)) else v, e) <==> v.Arr?
  {
    if v.Arr? {
      var w := Arr(NormalizeAll(v.items, ops));
      AllStrings(v.items, 0, ops);
      forall i | 0 <= i < |w.items| ensures Conforms(w.items[i], ItemsOf(e)) {
        assert ConformsNamed(w.items[i], ItemsOf(e), "string");
      }
      assert ConformsNamed(w, e, "array");
    } else {
      assert !ConformsNamed(v, e, "array");
    }
  }
}
