/** Checking a worker's result against its JSON schema
    (client_new/services/ticket_ai_analysis_service.py, `_collect_json_schema_violations`). */
module ResultSchema {
  import opened PyJson

  /** The `type` of a schema: absent, one name, or a union of names. */
  datatype TypeSpec = Untyped | Named(name: string) | AnyOf(names: seq<string>)

  datatype Schema = Schema(
    typ: TypeSpec, required: seq<string>, properties: seq<Property>, closed: bool, items: Option<Schema>)

  datatype Property = Property(name: string, schema: Schema)

  const ANYTHING := Schema(Untyped, [], [], false, None)

  function ItemsOf(schema: Schema): Schema {
    if schema.items.Some? then schema.items.value else ANYTHING
  }

  predicate Declares(ps: seq<Property>, key: string) {
    exists i :: 0 <= i < |ps| && ps[i].name == key
  }

  function TypeName(v: Json): string {
    match v
    case Null => "null"
    case Bool(_) => "boolean"
    case Int(_) => "number"
    case Float(_) => "number"
    case Str(_) => "string"
    case Arr(_) => "array"
    case Obj(_) => "object"
  }

  datatype Step = Key(key: string) | Index(index: nat)

  datatype Problem = Missing | Extra | Expected(names: seq<string>, actual: string)

  /** A violation and where it is, as a path from the root. */
  datatype Violation = Violation(path: seq<Step>, problem: Problem)

  /** What a named type accepts of a value by itself; a name the schema check does not know accepts everything. */
  predicate HasNamedType(v: Json, name: string) {
    if name == "object" then v.Obj?
    else if name == "array" then v.Arr?
    else if name == "string" then v.Str?
    else if name == "number" then v.Int? || v.Float?
    else if name == "integer" then v.Int?
    else if name == "null" then v.Null?
    else if name == "boolean" then v.Bool?
    else true
  }

  function MissingFields(required: seq<string>, fs: seq<Field>, path: seq<Step>): seq<Violation> {
    if required == [] then []
    else (if HasKey(fs, required[0]) then [] else [Violation(path + [Key(required[0])], Missing)])
         + MissingFields(required[1..], fs, path)
  }

  function ExtraFields(fs: seq<Field>, ps: seq<Property>, path: seq<Step>): seq<Violation> {
    if fs == [] then []
    else
      (if Declares(ps, fs[0].key) then [] else [Violation(path + [Key(fs[0].key)], Extra)])
      + ExtraFields(fs[1..], ps, path)
  }

  function Collect(v: Json, schema: Schema, path: seq<Step>): seq<Violation>
    decreases v, 2
  {
    match schema.typ
    case Untyped => []
    case Named(name) => CollectNamed(v, schema, name, path)
    case AnyOf(names) =>
      if forall i | 0 <= i < |names| :: CollectNamed(v, schema, names[i], path) != []
      then [Violation(path, Expected(names, TypeName(v)))]
      else []
  }

  function CollectNamed(v: Json, schema: Schema, name: string, path: seq<Step>): seq<Violation>
    decreases v, 1
  {
    if !HasNamedType(v, name) then [Violation(path, Expected([name], TypeName(v)))]
    else if name == "object" then
      MissingFields(schema.required, v.fields, path)
      + (if schema.closed then ExtraFields(v.fields, schema.properties, path) else [])
      + CollectProperties(v, schema.properties, path)
    else if name == "array" then CollectItems(v, |v.items|, ItemsOf(schema), path)
    else []
  }

  function CollectProperties(v: Json, ps: seq<Property>, path: seq<Step>): seq<Violation>
    requires v.Obj?
    decreases v, 0, |ps|
  {
    if ps == [] then []
    else (if HasKey(v.fields, ps[0].name)
          then Collect(v.fields[IndexOf(v.fields, ps[0].name)].value, ps[0].schema, path + [Key(ps[0].name)]) else [])
         + CollectProperties(v, ps[1..], path)
  }

  function CollectItems(v: Json, n: nat, items: Schema, path: seq<Step>): seq<Violation>
    requires v.Arr? && n <= |v.items|
    decreases v, 0, n
  {
    if n == 0 then [] else CollectItems(v, n - 1, items, path) + Collect(v.items[n - 1], items, path + [Index(n - 1)])
  }

  // ---- Conformance, stated without lists of violations ----

  predicate Conforms(v: Json, schema: Schema)
    decreases v, 1
  {
    match schema.typ
    case Untyped => true
    case Named(name) => ConformsNamed(v, schema, name)
    case AnyOf(names) => exists i :: 0 <= i < |names| && ConformsNamed(v, schema, names[i])
  }

  predicate ConformsNamed(v: Json, schema: Schema, name: string)
    decreases v, 0
  {
    && HasNamedType(v, name)
    && (name == "object" ==>
        && (forall i | 0 <= i < |schema.required| :: HasKey(v.fields, schema.required[i]))
        && (schema.closed ==> forall i | 0 <= i < |v.fields| :: Declares(schema.properties, v.fields[i].key))
        && (forall p: Property | p in schema.properties && HasKey(v.fields, p.name) ::
              Conforms(v.fields[IndexOf(v.fields, p.name)].value, p.schema)))
    && (name == "array" ==> forall i | 0 <= i < |v.items| :: Conforms(v.items[i], ItemsOf(schema)))
  }

  /** The scalar schemas, told by the values they accept: integers are numbers, booleans are neither, and a type name
      the check does not know accepts everything. */
  lemma ScalarSchemas(v: Json, schema: Schema, name: string)
    requires schema.typ == Named(name)
    ensures name == "string" ==> (Conforms(v, schema) <==> v.Str?)
    ensures name == "number" ==> (Conforms(v, schema) <==> v.Int? || v.Float?)
    ensures name == "integer" ==> (Conforms(v, schema) <==> v.Int?)
    ensures name == "boolean" ==> (Conforms(v, schema) <==> v.Bool?)
    ensures name == "null" ==> (Conforms(v, schema) <==> v.Null?)
    ensures name !in {"object", "array", "string", "number", "integer", "boolean", "null"} ==> Conforms(v, schema)
    ensures name == "object" && Conforms(v, schema) ==> v.Obj?
    ensures name == "array" && Conforms(v, schema) ==> v.Arr?
  {
    assert Conforms(v, schema) == ConformsNamed(v, schema, name);
  }

  /** The type a violation names as the actual one is the JSON type of the value, integers and fractions both being
      numbers. */
  lemma TypeNames(v: Json)
    ensures TypeName(v) == "null" <==> v.Null?
    ensures TypeName(v) == "boolean" <==> v.Bool?
    ensures TypeName(v) == "number" <==> v.Int? || v.Float?
    ensures TypeName(v) == "string" <==> v.Str?
    ensures TypeName(v) == "array" <==> v.Arr?
    ensures TypeName(v) == "object" <==> v.Obj?
  {
  }

  lemma {:induction false} NoMissingFields(required: seq<string>, fs: seq<Field>, path: seq<Step>)
    ensures MissingFields(required, fs, path) == [] <==> forall i | 0 <= i < |required| :: HasKey(fs, required[i])
  {
    if required != [] { NoMissingFields(required[1..], fs, path); }
    assert forall i | 0 < i < |required| :: required[i] == required[1..][i - 1];
  }

  lemma {:induction false} NoExtraFields(fs: seq<Field>, ps: seq<Property>, path: seq<Step>)
    ensures ExtraFields(fs, ps, path) == [] <==> forall i | 0 <= i < |fs| :: Declares(ps, fs[i].key)
  {
    if fs != [] { NoExtraFields(fs[1..], ps, path); }
    assert forall i | 0 < i < |fs| :: fs[i] == fs[1..][i - 1];
  }

  /** The schema check reports nothing exactly when the value conforms to the schema. */
  lemma {:induction false} NoViolationsIffConforms(v: Json, schema: Schema, path: seq<Step>)
    ensures Collect(v, schema, path) == [] <==> Conforms(v, schema)
    decreases v, 2
  {
    match schema.typ
    case Untyped =>
    case Named(name) => NamedIffConforms(v, schema, name, path);
    case AnyOf(names) =>
      forall i | 0 <= i < |names|
        ensures CollectNamed(v, schema, names[i], path) == [] <==> ConformsNamed(v, schema, names[i]) {
        NamedIffConforms(v, schema, names[i], path);
      }
  }

  lemma {:induction false} NamedIffConforms(v: Json, schema: Schema, name: string, path: seq<Step>)
    ensures CollectNamed(v, schema, name, path) == [] <==> ConformsNamed(v, schema, name)
    decreases v, 1
  {
    if HasNamedType(v, name) {
      if name == "object" {
        NoMissingFields(schema.required, v.fields, path);
        NoExtraFields(v.fields, schema.properties, path);
        PropertiesIffConform(v, schema.properties, path);
      } else if name == "array" {
        ItemsIffConform(v, |v.items|, ItemsOf(schema), path);
      }
    }
  }

  lemma {:induction false} PropertiesIffConform(v: Json, ps: seq<Property>, path: seq<Step>)
    requires v.Obj?
    ensures CollectProperties(v, ps, path) == [] <==>
      forall p: Property | p in ps
        && HasKey(v.fields, p.name) :: Conforms(v.fields[IndexOf(v.fields, p.name)].value, p.schema)
    decreases v, 0, |ps|
  {
    hide Collect, Conforms;
    if ps != [] {
      PropertiesIffConform(v, ps[1..], path);
      if HasKey(v.fields, ps[0].name) {
        NoViolationsIffConforms(v.fields[IndexOf(v.fields, ps[0].name)].value, ps[0].schema, path + [Key(ps[0].name)]);
      }
      assert ps == [ps[0]] + ps[1..];
    }
  }

  lemma {:induction false} ItemsIffConform(v: Json, n: nat, items: Schema, path: seq<Step>)
    requires v.Arr? && n <= |v.items|
    ensures CollectItems(v, n, items, path) == [] <==> forall i | 0 <= i < n :: Conforms(v.items[i], items)
    decreases v, 0, n
  {
    hide Collect, Conforms;
    if n > 0 {
      ItemsIffConform(v, n - 1, items, path);
      NoViolationsIffConforms(v.items[n - 1], items, path + [Index(n - 1)]);
    }
  }

  // ---- What is reported, stated without the check ----

  /** Value `v` breaks the schema in the way `problem` says, at `rel` below it. A union is broken as a whole and says
      no more; a value of the wrong type is reported and not looked into; an object lacks a required field, holds an
      undeclared one where the schema is closed, or has a declared field that breaks its own schema; so does an
      element. */
  predicate Breaks(v: Json, schema: Schema, rel: seq<Step>, problem: Problem)
    decreases |rel|, 2
  {
    match schema.typ
    case Untyped => false
    case Named(name) => BreaksNamed(v, schema, name, rel, problem)
    case AnyOf(names) => rel == [] && problem == Expected(names, TypeName(v)) && !Conforms(v, schema)
  }

  predicate BreaksNamed(v: Json, schema: Schema, name: string, rel: seq<Step>, problem: Problem)
    decreases |rel|, 1
  {
    if !HasNamedType(v, name) then rel == [] && problem == Expected([name], TypeName(v))
    else if name == "object" then
      || LacksRequired(v.fields, schema.required, rel, problem)
      || (schema.closed && HoldsUndeclared(v.fields, schema.properties, rel, problem))
      || BreaksProperty(v.fields, schema.properties, rel, problem)
    else if name == "array" then
      && rel != [] && rel[0].Index? && rel[0].index < |v.items|
      && Breaks(v.items[rel[0].index], ItemsOf(schema), rel[1..], problem)
    else false
  }

  predicate LacksRequired(fs: seq<Field>, required: seq<string>, rel: seq<Step>, problem: Problem) {
    problem == Missing && |rel| == 1 && rel[0].Key? && rel[0].key in required && !HasKey(fs, rel[0].key)
  }

  predicate HoldsUndeclared(fs: seq<Field>, ps: seq<Property>, rel: seq<Step>, problem: Problem) {
    problem == Extra && |rel| == 1 && rel[0].Key? && HasKey(fs, rel[0].key) && !Declares(ps, rel[0].key)
  }

  predicate BreaksProperty(fs: seq<Field>, ps: seq<Property>, rel: seq<Step>, problem: Problem)
    decreases |rel|, 0
  {
    && rel != [] && rel[0].Key? && HasKey(fs, rel[0].key)
    && exists i ::
         0 <= i < |ps| && ps[i].name == rel[0].key && Breaks(Get(fs, rel[0].key), ps[i].schema, rel[1..], problem)
  }

  /** `x` lies below `step` from `path`. */
  predicate Below(path: seq<Step>, step: Step, x: Violation) {
    path <= x.path && |path| < |x.path| && x.path[|path|] == step
  }

  lemma BelowIs(path: seq<Step>, step: Step, x: Violation)
    ensures path + [step] <= x.path <==> Below(path, step, x)
    ensures Below(path, step, x) ==>
      x.path[|path|..] != [] && x.path[|path|..][0] == step && x.path[|path|..][1..] == x.path[|path + [step]|..]
  {
    if Below(path, step, x) {
      assert x.path[..|path| + 1] == path + [step];
    }
  }

  lemma EndsHere(path: seq<Step>, rel: seq<Step>, x: Violation)
    ensures x.path == path + rel <==> path <= x.path && x.path[|path|..] == rel
  {
    if path <= x.path { assert x.path == path + x.path[|path|..]; }
  }

  lemma {:induction false} MissingAre(required: seq<string>, fs: seq<Field>, path: seq<Step>, x: Violation)
    ensures x in MissingFields(required, fs, path) <==>
      x.problem == Missing && exists k :: k in required && !HasKey(fs, k) && x.path == path + [Key(k)]
  {
    if required != [] {
      MissingAre(required[1..], fs, path, x);
      assert required == [required[0]] + required[1..];
    }
  }

  lemma {:induction false} ExtraAre(fs: seq<Field>, ps: seq<Property>, path: seq<Step>, x: Violation)
    ensures x in ExtraFields(fs, ps, path) <==>
      x.problem == Extra && exists i :: 0 <= i < |fs| && !Declares(ps, fs[i].key) && x.path == path + [Key(fs[i].key)]
  {
    hide Declares;
    if fs != [] {
      ExtraAre(fs[1..], ps, path, x);
      assert forall i | 0 < i < |fs| :: fs[i] == fs[1..][i - 1];
      assert forall i | 0 <= i < |fs[1..]| :: fs[1..][i] == fs[i + 1];
    }
  }

  predicate PropertyBreaks(fs: seq<Field>, ps: seq<Property>, i: int, path: seq<Step>, x: Violation) {
    && 0 <= i < |ps| && HasKey(fs, ps[i].name) && Below(path, Key(ps[i].name), x)
    && Breaks(Get(fs, ps[i].name), ps[i].schema, x.path[|path| + 1..], x.problem)
  }

  lemma {:induction false} PropertiesReported(v: Json, ps: seq<Property>, path: seq<Step>, x: Violation)
    requires v.Obj?
    ensures x in CollectProperties(v, ps, path) <==> exists i :: PropertyBreaks(v.fields, ps, i, path, x)
    decreases v, 0, |ps|
  {
    hide Collect, Breaks;
    if ps != [] {
      PropertiesReported(v, ps[1..], path, x);
      var k := ps[0].name;
      BelowIs(path, Key(k), x);
      if HasKey(v.fields, k) {
        ReportedExactlyWhen(v.fields[IndexOf(v.fields, k)].value, ps[0].schema, path + [Key(k)], x);
        assert x in Collect(Get(v.fields, k), ps[0].schema, path + [Key(k)])
          <==> PropertyBreaks(v.fields, ps, 0, path, x);
      }
      forall i ensures PropertyBreaks(v.fields, ps[1..], i, path, x)
        <==> i >= 0 && PropertyBreaks(v.fields, ps, i + 1, path, x) {}
      if i :| PropertyBreaks(v.fields, ps, i, path, x) {
        if i > 0 { assert PropertyBreaks(v.fields, ps[1..], i - 1, path, x); }
      }
    }
  }

  predicate ItemBreaks(v: Json, items: Schema, i: int, path: seq<Step>, x: Violation)
    requires v.Arr?
  {
    && 0 <= i < |v.items| && Below(path, Index(i), x)
    && Breaks(v.items[i], items, x.path[|path| + 1..], x.problem)
  }

  lemma {:induction false} ItemsReported(v: Json, n: nat, items: Schema, path: seq<Step>, x: Violation)
    requires v.Arr? && n <= |v.items|
    ensures x in CollectItems(v, n, items, path) <==> exists i :: i < n && ItemBreaks(v, items, i, path, x)
    decreases v, 0, n
  {
    hide Collect, Breaks;
    if n > 0 {
      ItemsReported(v, n - 1, items, path, x);
      BelowIs(path, Index(n - 1), x);
      ReportedExactlyWhen(v.items[n - 1], items, path + [Index(n - 1)], x);
      assert x in Collect(v.items[n - 1], items, path + [Index(n - 1)]) <==> ItemBreaks(v, items, n - 1, path, x);
    }
  }

  /** The schema check reports exactly what breaks the schema, each at its path: nothing that is not so, and nothing
      less. */
  lemma {:induction false} ReportedExactlyWhen(v: Json, schema: Schema, path: seq<Step>, x: Violation)
    ensures x in Collect(v, schema, path) <==> path <= x.path && Breaks(v, schema, x.path[|path|..], x.problem)
    decreases v, 2
  {
    match schema.typ
    case Untyped =>
    case Named(name) => NamedReported(v, schema, name, path, x);
    case AnyOf(names) =>
      NoViolationsIffConforms(v, schema, path);
      EndsHere(path, [], x);
      assert path + [] == path;
  }

  lemma {:induction false} NamedReported(v: Json, schema: Schema, name: string, path: seq<Step>, x: Violation)
    ensures x in CollectNamed(v, schema, name, path)
      <==> path <= x.path && BreaksNamed(v, schema, name, x.path[|path|..], x.problem)
    decreases v, 1
  {
    hide Breaks, MissingFields, ExtraFields, CollectProperties, CollectItems, LacksRequired, HoldsUndeclared,
      BreaksProperty;
    EndsHere(path, [], x);
    assert path + [] == path;
    if HasNamedType(v, name) {
      if name == "object" {
        MissingReported(v, schema, path, x);
        ExtraReported(v, schema, path, x);
        PropertiesReported(v, schema.properties, path, x);
        PropertiesBreak(v.fields, schema.properties, path, x);
      } else if name == "array" {
        ItemsReported(v, |v.items|, ItemsOf(schema), path, x);
        ElementBreaks(v, ItemsOf(schema), path, x);
      }
    }
  }

  lemma MissingReported(v: Json, schema: Schema, path: seq<Step>, x: Violation)
    requires v.Obj?
    ensures x in MissingFields(schema.required, v.fields, path) <==>
      path <= x.path && LacksRequired(v.fields, schema.required, x.path[|path|..], x.problem)
  {
    hide HasKey, MissingFields;
    MissingAre(schema.required, v.fields, path, x);
    forall k ensures x.path == path + [Key(k)] <==> path <= x.path && x.path[|path|..] == [Key(k)] {
      EndsHere(path, [Key(k)], x);
    }
    if path <= x.path && |x.path[|path|..]| == 1 && x.path[|path|].Key? {
      assert x.path[|path|..] == [Key(x.path[|path|].key)];
    }
  }

  lemma ExtraReported(v: Json, schema: Schema, path: seq<Step>, x: Violation)
    requires v.Obj?
    ensures x in ExtraFields(v.fields, schema.properties, path) <==>
      path <= x.path && HoldsUndeclared(v.fields, schema.properties, x.path[|path|..], x.problem)
  {
    hide Declares, ExtraFields;
    ExtraAre(v.fields, schema.properties, path, x);
    forall k ensures x.path == path + [Key(k)] <==> path <= x.path && x.path[|path|..] == [Key(k)] {
      EndsHere(path, [Key(k)], x);
    }
    forall i | 0 <= i < |v.fields| ensures HasKey(v.fields, v.fields[i].key) { PresentKey(v.fields, i); }
    hide IndexOf;
    if path <= x.path && |x.path[|path|..]| == 1 && x.path[|path|].Key? {
      var k := x.path[|path|].key;
      assert x.path[|path|..] == [Key(k)];
      if HasKey(v.fields, k) { assert v.fields[IndexOf(v.fields, k)].key == k; }
    }
  }

  lemma PresentKey(fs: seq<Field>, i: nat)
    requires i < |fs|
    ensures HasKey(fs, fs[i].key)
  {
  }

  lemma PropertiesBreak(fs: seq<Field>, ps: seq<Property>, path: seq<Step>, x: Violation)
    ensures (exists i :: PropertyBreaks(fs, ps, i, path, x)) <==>
      path <= x.path && BreaksProperty(fs, ps, x.path[|path|..], x.problem)
  {
    hide Breaks, HasKey, Get;
    if path <= x.path && |path| < |x.path| {
      assert x.path[|path|..][0] == x.path[|path|] && x.path[|path|..][1..] == x.path[|path| + 1..];
      if BreaksProperty(fs, ps, x.path[|path|..], x.problem) {
        var i :| 0 <= i < |ps| && ps[i].name == x.path[|path|].key
          && Breaks(Get(fs, x.path[|path|].key), ps[i].schema, x.path[|path|..][1..], x.problem);
        assert PropertyBreaks(fs, ps, i, path, x);
      }
    }
  }

  lemma ElementBreaks(v: Json, items: Schema, path: seq<Step>, x: Violation)
    requires v.Arr?
    ensures (exists i :: i < |v.items| && ItemBreaks(v, items, i, path, x)) <==>
      path <= x.path && var rel := x.path[|path|..];
        rel != [] && rel[0].Index? && rel[0].index < |v.items|
          && Breaks(v.items[rel[0].index], items, rel[1..], x.problem)
  {
    hide Breaks;
    if path <= x.path && |path| < |x.path| {
      var step := x.path[|path|];
      assert x.path[|path|..][0] == step && x.path[|path|..][1..] == x.path[|path| + 1..];
      if step.Index? && step.index < |v.items| && Breaks(v.items[step.index], items, x.path[|path| + 1..], x.problem) {
        assert ItemBreaks(v, items, step.index, path, x);
      }
    }
  }

  // ---- Where the reported values are ----

  /** The value at a path, if the path leads anywhere. */
  function At(v: Json, path: seq<Step>): Option<Json>
    decreases |path|
  {
    if path == [] then Some(v)
    else
      match path[0]
      case Key(k) => if v.Obj? && HasKey(v.fields, k) then At(Get(v.fields, k), path[1..]) else None
      case Index(i) => if v.Arr? && i < |v.items| then At(v.items[i], path[1..]) else None
  }

  /** What a violation says of the value at its path: its type, or that an object there lacks or holds the field. */
  predicate Real(v: Json, path: seq<Step>, problem: Problem) {
    match problem
    case Expected(_, actual) => At(v, path).Some? && TypeName(At(v, path).value) == actual
    case Missing => HoldsObject(v, path) && At(v, path) == None
    case Extra => HoldsObject(v, path) && At(v, path).Some?
  }

  predicate HoldsObject(v: Json, path: seq<Step>) {
    path != [] && path[|path| - 1].Key? && At(v, path[..|path| - 1]).Some? && At(v, path[..|path| - 1]).value.Obj?
  }

  lemma AtStep(v: Json, step: Step, part: Json, rel: seq<Step>)
    requires At(v, [step]) == Some(part)
    ensures At(v, [step] + rel) == At(part, rel)
  {
    assert ([step] + rel)[1..] == rel;
    assert At(part, []) == Some(part);
    assert [step][1..] == [];
  }

  lemma RealLift(v: Json, step: Step, part: Json, rel: seq<Step>, problem: Problem)
    requires At(v, [step]) == Some(part) && Real(part, rel, problem)
    ensures Real(v, [step] + rel, problem)
  {
    hide At;
    AtStep(v, step, part, rel);
    if rel != [] {
      var path := [step] + rel;
      AtStep(v, step, part, rel[..|rel| - 1]);
      assert path[..|path| - 1] == [step] + rel[..|rel| - 1];
      assert path[|path| - 1] == rel[|rel| - 1];
    }
  }

  lemma {:induction false} BreaksAreReal(v: Json, schema: Schema, rel: seq<Step>, problem: Problem)
    requires Breaks(v, schema, rel, problem)
    ensures Real(v, rel, problem)
    decreases |rel|
  {
    hide At, Real, HasKey, Get;
    if rel == [] {
      TypeIsReal(v, problem);
    } else if v.Obj? && BreaksProperty(v.fields, schema.properties, rel, problem) {
      var k := rel[0].key;
      var i :| 0 <= i < |schema.properties| && schema.properties[i].name == k
        && Breaks(Get(v.fields, k), schema.properties[i].schema, rel[1..], problem);
      BreaksAreReal(Get(v.fields, k), schema.properties[i].schema, rel[1..], problem);
      OneStep(v, rel[0]);
      assert [rel[0]] + rel[1..] == rel;
      RealLift(v, rel[0], Get(v.fields, k), rel[1..], problem);
    } else if v.Arr? {
      BreaksAreReal(v.items[rel[0].index], ItemsOf(schema), rel[1..], problem);
      OneStep(v, rel[0]);
      assert [rel[0]] + rel[1..] == rel;
      RealLift(v, rel[0], v.items[rel[0].index], rel[1..], problem);
    } else {
      OneStep(v, rel[0]);
      FieldIsReal(v, rel[0].key, problem);
      assert rel == [Key(rel[0].key)];
    }
  }

  lemma TypeIsReal(v: Json, problem: Problem)
    requires problem.Expected? && problem.actual == TypeName(v)
    ensures Real(v, [], problem)
  {
  }

  lemma OneStep(v: Json, step: Step)
    ensures At(v, [step]) == match step
      case Key(k) => if v.Obj? && HasKey(v.fields, k) then Some(Get(v.fields, k)) else None
      case Index(i) => if v.Arr? && i < |v.items| then Some(v.items[i]) else None
  {
    assert [step][1..] == [];
  }

  lemma FieldIsReal(v: Json, key: string, problem: Problem)
    requires v.Obj? && ((problem == Missing && !HasKey(v.fields, key)) || (problem == Extra && HasKey(v.fields, key)))
    ensures Real(v, [Key(key)], problem)
  {
    hide HasKey, Get;
    OneStep(v, Key(key));
    assert [Key(key)][..0] == [];
  }

  /** Every violation the schema check reports is real, and breaks the schema reached at its path. */
  lemma ViolationsAreReal(v: Json, schema: Schema, path: seq<Step>, x: Violation)
    requires x in Collect(v, schema, path)
    ensures path <= x.path
    ensures Real(v, x.path[|path|..], x.problem) && Breaks(v, schema, x.path[|path|..], x.problem)
  {
    hide Real, Breaks, Collect;
    ReportedExactlyWhen(v, schema, path, x);
    BreaksAreReal(v, schema, x.path[|path|..], x.problem);
  }
}
