/** The manifest index of published resources (client_new/services/agent_resource_storage.py). */
module ResourceManifest {
  import opened PyJson
  import opened Sorting

  datatype Result<+T> = Success(value: T) | Failure(problem: string)

  datatype Manifest = Manifest(
    resourceId: string, locator: string, originalFileName: string, mimeType: string, size: int,
    sha256: string, version: int, created: string, expires: string, lastUsed: string)

  /** Python's `str(v)` and `int(v)` on JSON values that are not already of that type. */
  datatype Conversions = Conversions(toStr: Json -> string, toInt: Json -> Option<int>)

  function PyStr(v: Json, conv: Conversions): string {
    if v.Str? then v.s else conv.toStr(v)
  }

  function PyInt(v: Json, conv: Conversions): Option<int> {
    match v
    case Int(i) => Some(i)
    case Bool(b) => Some(if b then 1 else 0)
    case _ => conv.toInt(v)
  }

  predicate IsLetterOrDigit(c: char) {
    'a' <= c <= 'z' || 'A' <= c <= 'Z' || '0' <= c <= '9'
  }

  predicate IsResourceId(s: string) {
    && 1 <= |s| <= 128
    && IsLetterOrDigit(s[0])
    && forall i | 1 <= i < |s| :: IsLetterOrDigit(s[i]) || s[i] == '.' || s[i] == '_' || s[i] == '-'
  }

  predicate IsHexDigit(c: char) {
    'a' <= c <= 'f' || 'A' <= c <= 'F' || '0' <= c <= '9'
  }

  predicate IsSha256(s: string) {
    |s| == 64 && forall i | 0 <= i < 64 :: IsHexDigit(s[i])
  }

  function Lower(s: string): (t: string)
    ensures |t| == |s|
  {
    seq(|s|, i requires 0 <= i < |s| => if 'A' <= s[i] <= 'Z' then s[i] - 'A' + 'a' else s[i])
  }

  lemma LowerSha256(s: string)
    ensures IsSha256(Lower(s)) <==> IsSha256(s)
    ensures Lower(Lower(s)) == Lower(s)
  {
    if IsSha256(Lower(s)) {
      forall i | 0 <= i < 64 ensures IsHexDigit(s[i]) { assert IsHexDigit(Lower(s)[i]); }
    }
  }

  // ---- Entries ----

  const NAMES: seq<string> :=
    ["resource_id", "locator", "original_file_name", "mime_type", "size", "sha256", "version", "created", "expires",
      "last_used"]

  function Values(m: Manifest): seq<Json> {
    [Str(m.resourceId), Str(m.locator), Str(m.originalFileName), Str(m.mimeType), Int(m.size), Str(m.sha256),
     Int(m.version), Str(m.created), Str(m.expires), Str(m.lastUsed)]
  }

  function ToDict(m: Manifest): seq<Field> {
    seq(10, i requires 0 <= i < 10 => Field(NAMES[i], Values(m)[i]))
  }

  predicate HasRequired(fs: seq<Field>) {
    forall i | 0 <= i < 10 :: HasKey(fs, NAMES[i])
  }

  /** The value of the i-th required field. */
  function At(fs: seq<Field>, i: nat): Json
    requires i < 10 && HasRequired(fs)
  {
    Get(fs, NAMES[i])
  }

  predicate NonEmptyText(v: Json) {
    v.Str? && v.s != ""
  }

  function FromMapping(fs: seq<Field>, conv: Conversions): Result<Manifest> {
    if !HasRequired(fs) then Failure("missing field")
    else FromValues(seq(10, i requires 0 <= i < 10 => At(fs, i)), conv)
  }

  function FromValues(v: seq<Json>, conv: Conversions): Result<Manifest>
    requires |v| == 10
  {
    var resourceId, locator, sha256 := PyStr(v[0], conv), PyStr(v[1], conv), PyStr(v[5], conv);
    var size, version := PyInt(v[4], conv), PyInt(v[6], conv);
    if !IsResourceId(resourceId) then Failure("resource_id")
    else if !IsSha256(sha256) then Failure("sha256")
    else if size.None? || version.None? then Failure("size or version")
    else if size.value < 0 || version.value < 1 then Failure("size or version")
    else if !NonEmptyText(v[2]) then Failure("original_file_name")
    else if !v[3].Str? then Failure("mime_type")
    else if !NonEmptyText(v[7]) || !NonEmptyText(v[8]) || !NonEmptyText(v[9])
      then Failure("created, expires or last_used")
    else Success(Manifest(resourceId, locator, v[2].s, v[3].s, size.value, Lower(sha256), version.value, v[7].s,
      v[8].s, v[9].s))
  }

  /** The fields a manifest needs to survive being written and read back. */
  predicate Loadable(m: Manifest) {
    && IsResourceId(m.resourceId) && IsSha256(m.sha256) && Lower(m.sha256) == m.sha256
    && 0 <= m.size && 1 <= m.version && m.originalFileName != ""
    && m.created != "" && m.expires != "" && m.lastUsed != ""
  }

  lemma DistinctNames(i: int, j: int)
    requires 0 <= i < j < 10
    ensures NAMES[i] != NAMES[j]
  {
    // Lengths 11, 7, 18, 9, 4, 6, 7, 7, 7, 9 separate most names; the first letter separates the rest.
    assert |NAMES[i]| == |NAMES[j]| ==> NAMES[i][0] != NAMES[j][0];
  }

  lemma DictValues(m: Manifest)
    ensures HasRequired(ToDict(m))
    ensures forall i | 0 <= i < 10 :: At(ToDict(m), i) == Values(m)[i]
  {
    var fs := ToDict(m);
    forall i, j | 0 <= i < j < 10 ensures fs[i].key != fs[j].key { DistinctNames(i, j); }
    forall i | 0 <= i < 10 ensures HasKey(fs, NAMES[i]) && Get(fs, NAMES[i]) == Values(m)[i] {
      IndexIsUnique(fs, i);
    }
  }

  /** A manifest as reading it back gives it: the digest in lower case. */
  function Normalized(m: Manifest): Manifest {
    m.(sha256 := Lower(m.sha256))
  }

  lemma LoadableIsNormalized(m: Manifest)
    ensures Loadable(m) <==> Loadable(Normalized(m)) && Normalized(m) == m
  {
    hide IsSha256, IsResourceId, Lower;
    LowerSha256(m.sha256);
  }

  /** Reading an entry back gives the manifest with its digest in lower case if that one is loadable, and fails
      otherwise; so it gives the manifest that was written exactly when its fields are loadable. */
  lemma EntryRoundTrip(m: Manifest, conv: Conversions)
    ensures FromMapping(ToDict(m), conv) == Success(m) <==> Loadable(m)
    ensures if Loadable(Normalized(m)) then FromMapping(ToDict(m), conv) == Success(Normalized(m))
            else FromMapping(ToDict(m), conv).Failure?
  {
    hide IsSha256, IsResourceId, Lower, HasRequired, At, ToDict;
    DictValues(m);
    assert seq(10, i requires 0 <= i < 10 => At(ToDict(m), i)) == Values(m);
    ValuesRoundTrip(m, conv);
    LoadableIsNormalized(m);
  }

  lemma ValuesRoundTrip(m: Manifest, conv: Conversions)
    ensures if Loadable(Normalized(m)) then FromValues(Values(m), conv) == Success(Normalized(m))
            else FromValues(Values(m), conv).Failure?
  {
    hide IsSha256, IsResourceId, Lower;
    LowerSha256(m.sha256);
  }

  lemma ReadEntriesAreLoadable(fs: seq<Field>, conv: Conversions)
    requires FromMapping(fs, conv).Success?
    ensures Loadable(FromMapping(fs, conv).value)
  {
    LowerSha256(PyStr(At(fs, 5), conv));
  }

  /** The dictionary holds these ten keys, and perhaps others. */
  predicate HoldsAllKeys(fs: seq<Field>) {
    && HasKey(fs, "resource_id") && HasKey(fs, "locator") && HasKey(fs, "original_file_name")
    && HasKey(fs, "mime_type") && HasKey(fs, "size") && HasKey(fs, "sha256") && HasKey(fs, "version")
    && HasKey(fs, "created") && HasKey(fs, "expires") && HasKey(fs, "last_used")
  }

  predicate ReadsAsText(v: Json, conv: Conversions, t: string) {
    v == Str(t) || (!v.Str? && conv.toStr(v) == t)
  }

  /** A boolean reads as 1 or 0. */
  predicate ReadsAsInt(v: Json, conv: Conversions, n: int) {
    || v == Int(n) || (v == Bool(true) && n == 1) || (v == Bool(false) && n == 0)
    || (!v.Int? && !v.Bool? && conv.toInt(v) == Some(n))
  }

  /** Which dictionaries load and as what, key by key. Id, locator and digest may be of any type that gives a text, the
      numbers of any that gives an integer; the other values have to be texts, all but the MIME type not empty. */
  lemma ReadsExactlyWhen(fs: seq<Field>, conv: Conversions, m: Manifest)
    ensures FromMapping(fs, conv) == Success(m) <==>
      && HoldsAllKeys(fs)
      && ReadsAsText(Get(fs, "resource_id"), conv, m.resourceId) && IsResourceId(m.resourceId)
      && ReadsAsText(Get(fs, "locator"), conv, m.locator)
      && (exists t :: ReadsAsText(Get(fs, "sha256"), conv, t) && m.sha256 == Lower(t)) && IsSha256(m.sha256)
      && ReadsAsInt(Get(fs, "size"), conv, m.size) && 0 <= m.size
      && ReadsAsInt(Get(fs, "version"), conv, m.version) && 1 <= m.version
      && Get(fs, "original_file_name") == Str(m.originalFileName) && m.originalFileName != ""
      && Get(fs, "mime_type") == Str(m.mimeType)
      && Get(fs, "created") == Str(m.created) && m.created != ""
      && Get(fs, "expires") == Str(m.expires) && m.expires != ""
      && Get(fs, "last_used") == Str(m.lastUsed) && m.lastUsed != ""
  {
    hide IsSha256, IsResourceId, Lower, HasKey, Get, PyStr, PyInt, ReadsAsText, ReadsAsInt;
    AllKeys(fs);
    if HoldsAllKeys(fs) {
      TextAndInt(Get(fs, "resource_id"), conv, m.resourceId, 0);
      TextAndInt(Get(fs, "locator"), conv, m.locator, 0);
      forall t { TextAndInt(Get(fs, "sha256"), conv, t, 0); }
      TextAndInt(Get(fs, "size"), conv, "", m.size);
      TextAndInt(Get(fs, "version"), conv, "", m.version);
      var v := seq(10, i requires 0 <= i < 10 => At(fs, i));
      assert v[0] == Get(fs, "resource_id") && v[1] == Get(fs, "locator") && v[2] == Get(fs, "original_file_name");
      assert v[3] == Get(fs, "mime_type") && v[4] == Get(fs, "size") && v[5] == Get(fs, "sha256");
      assert v[6] == Get(fs, "version") && v[7] == Get(fs, "created") && v[8] == Get(fs, "expires");
      assert v[9] == Get(fs, "last_used");
      LowerSha256(PyStr(v[5], conv));
    }
  }

  lemma TextAndInt(v: Json, conv: Conversions, t: string, n: int)
    ensures ReadsAsText(v, conv, t) <==> PyStr(v, conv) == t
    ensures ReadsAsInt(v, conv, n) <==> PyInt(v, conv) == Some(n)
  {
  }

  lemma AllKeys(fs: seq<Field>)
    ensures HasRequired(fs) <==> HoldsAllKeys(fs)
  {
    hide HasKey;
    if HasRequired(fs) {
      assert forall i | 0 <= i < 10 :: HasKey(fs, NAMES[i]);
      assert NAMES[0] == "resource_id" && NAMES[1] == "locator" && NAMES[2] == "original_file_name";
      assert NAMES[3] == "mime_type" && NAMES[4] == "size" && NAMES[5] == "sha256" && NAMES[6] == "version";
      assert NAMES[7] == "created" && NAMES[8] == "expires" && NAMES[9] == "last_used";
    }
  }

  // ---- Locators ----

  function OnePart(part: string): seq<string> {
    if part == "" || part == "." then [] else [part]
  }

  /** The parts of a relative POSIX path: empty and `.` components disappear. */
  function PosixParts(s: string, current: string): seq<string> {
    if s == "" then OnePart(current)
    else if s[0] == '/' then OnePart(current) + PosixParts(s[1..], "")
    else PosixParts(s[1..], current + [s[0]])
  }

  /** Accepts a locator of the form `resources/<id>` and gives its path below the storage root.
      A Windows-absolute locator is refused too: its first part is a drive, or it starts with a slash. */
  function ValidateLocator(locator: string, resourceId: string): (r: Result<seq<string>>)
    ensures r.Success? ==> r.value == ["resources", resourceId] && IsResourceId(resourceId)
  {
    if locator == "" || '\0' in locator || '\\' in locator then Failure("locator")
    else if locator[0] == '/' then Failure("absolute")
    else
      var parts := PosixParts(locator, "");
      if ".." in parts then Failure("parent")
      else if |parts| != 2 || parts[0] != "resources" then Failure("outside resources")
      else if !IsResourceId(parts[1]) then Failure("locator")
      else if parts[1] != resourceId then Failure("other resource")
      else Success(parts)
  }

  function LocatorFor(resourceId: string): string {
    "resources/" + resourceId
  }

  lemma {:induction false} PlainPart(s: string, current: string)
    requires '/' !in s
    ensures PosixParts(s, current) == OnePart(current + s)
  {
    if s == "" {
      assert current + s == current;
    } else {
      PlainPart(s[1..], current + [s[0]]);
      assert current + [s[0]] + s[1..] == current + s;
    }
  }

  lemma {:induction false} PartThenSlash(s: string, rest: string, current: string)
    requires '/' !in s
    ensures PosixParts(s + "/" + rest, current) == OnePart(current + s) + PosixParts(rest, "")
  {
    var whole := s + "/" + rest;
    if s == "" {
      assert current + s == current;
      assert whole[1..] == rest;
    } else {
      assert whole[1..] == s[1..] + "/" + rest;
      PartThenSlash(s[1..], rest, current + [s[0]]);
      assert current + [s[0]] + s[1..] == current + s;
    }
  }

  function JoinedBySlash(components: seq<string>): string
    requires components != []
  {
    if |components| == 1 then components[0] else components[0] + "/" + JoinedBySlash(components[1..])
  }

  /** The components that are neither empty nor a dot. */
  function NamedOnes(components: seq<string>): seq<string> {
    if components == [] then []
    else (if components[0] != "" && components[0] != "." then [components[0]] else []) + NamedOnes(components[1..])
  }

  /** The parts of a path are its components between slashes, without the empty ones and the dots. */
  lemma {:induction false} PartsOfJoined(components: seq<string>)
    requires components != [] && forall c | c in components :: '/' !in c
    ensures PosixParts(JoinedBySlash(components), "") == NamedOnes(components)
  {
    var first, rest := components[0], components[1..];
    assert "" + first == first;
    assert OnePart(first) == if first != "" && first != "." then [first] else [];
    hide PosixParts;
    if |components| == 1 {
      PlainPart(first, "");
      assert rest == [] && OnePart(first) + [] == OnePart(first);
    } else {
      PartsOfJoined(rest);
      PartThenSlash(first, JoinedBySlash(rest), "");
    }
  }

  lemma OwnLocatorIsValid(resourceId: string)
    requires IsResourceId(resourceId)
    ensures ValidateLocator(LocatorFor(resourceId), resourceId) == Success(["resources", resourceId])
  {
    hide PosixParts;
    var prefix := "resources";
    assert LocatorFor(resourceId) == prefix + "/" + resourceId;
    PartThenSlash(prefix, resourceId, "");
    PlainPart(resourceId, "");
    assert "" + prefix == prefix && "" + resourceId == resourceId;
    assert resourceId != "." && resourceId != "..";
    assert PosixParts(LocatorFor(resourceId), "") == [prefix, resourceId];
    forall i | 0 <= i < |LocatorFor(resourceId)|
      ensures LocatorFor(resourceId)[i] != '\0' && LocatorFor(resourceId)[i] != '\\'
    {
      if i >= 10 { assert LocatorFor(resourceId)[i] == resourceId[i - 10]; }
    }
  }

  lemma {:induction false} CharsStayInParts(s: string, current: string, c: char)
    requires c != '/' && c != '.' && (c in s || c in current)
    ensures exists i :: 0 <= i < |PosixParts(s, current)| && c in PosixParts(s, current)[i]
    decreases |s|
  {
    if s == "" {
      assert PosixParts(s, current)[0] == current;
    } else if s[0] == '/' {
      if c in current {
        assert PosixParts(s, current)[0] == current;
      } else {
        CharsStayInParts(s[1..], "", c);
        var i :| 0 <= i < |PosixParts(s[1..], "")| && c in PosixParts(s[1..], "")[i];
        assert PosixParts(s, current)[|OnePart(current)| + i] == PosixParts(s[1..], "")[i];
      }
    } else {
      CharsStayInParts(s[1..], current + [s[0]], c);
    }
  }

  /** Which locators are accepted for an id: the relative ones whose POSIX parts are `resources` and that id. No part
      can lead upwards, and no backslash or NUL can be in them. */
  lemma LocatorAcceptedExactlyWhen(locator: string, resourceId: string)
    ensures ValidateLocator(locator, resourceId).Success? <==>
      && IsResourceId(resourceId) && locator != "" && locator[0] != '/'
      && PosixParts(locator, "") == ["resources", resourceId]
  {
    hide PosixParts;
    if PosixParts(locator, "") == ["resources", resourceId] && IsResourceId(resourceId) {
      forall c | c == '\0' || c == '\\' ensures c !in locator {
        assert c !in "resources" && c !in resourceId;
        if c in locator { CharsStayInParts(locator, "", c); }
      }
      assert resourceId != "..";
    }
  }

  // ---- The document on disk ----

  datatype ManifestFile = Absent | Irregular | Unparsable | Parsed(raw: Json)

  /** The raw `resources` dictionary; a missing, damaged or misshapen file reads as empty. */
  function RawResources(file: ManifestFile): seq<Field> {
    if file.Parsed? && file.raw.Obj? && GetOrNull(file.raw.fields, "resources").Obj?
    then GetOrNull(file.raw.fields, "resources").fields else []
  }

  /** The manifest of one raw entry, if the entry passes validation. */
  function Accept(f: Field, conv: Conversions): Option<Manifest> {
    if !f.value.Obj? then None
    else
      match FromMapping(f.value.fields, conv)
      case Failure(_) => None
      case Success(m) => if m.resourceId == f.key && ValidateLocator(m.locator, m.resourceId).Success? then Some(m)
        else None
  }

  function Keep(valid: seq<Field>, f: Field, conv: Conversions): seq<Field> {
    match Accept(f, conv)
    case Some(m) => Put(valid, m.resourceId, Obj(ToDict(m)))
    case None => valid
  }

  function LoadEntries(raw: seq<Field>, conv: Conversions): seq<Field> {
    if raw == [] then [] else Keep(LoadEntries(raw[..|raw| - 1], conv), raw[|raw| - 1], conv)
  }

  function Resources(file: ManifestFile, conv: Conversions): seq<Field> {
    LoadEntries(RawResources(file), conv)
  }

  /** Python's order on texts. */
  predicate TextBefore(a: string, b: string) {
    a == "" || (b != "" && (a[0] < b[0] || (a[0] == b[0] && TextBefore(a[1..], b[1..]))))
  }

  predicate KeyBefore(f: Field, g: Field) {
    TextBefore(f.key, g.key)
  }

  /** What is written: the keys come out sorted. */
  function Document(resources: seq<Field>): ManifestFile {
    Parsed(Obj([Field("resources", Obj(Sort(resources, KeyBefore))), Field("version", Int(1))]))
  }

  /** `get`: the manifest stored under `id`. */
  function Find(file: ManifestFile, id: string, conv: Conversions): Option<Manifest> {
    var doc := Resources(file, conv);
    if HasKey(doc, id) && Get(doc, id).Obj? && FromMapping(Get(doc, id).fields, conv).Success?
    then Some(FromMapping(Get(doc, id).fields, conv).value) else None
  }

  function Saved(file: ManifestFile, m: Manifest, conv: Conversions): ManifestFile {
    Document(Put(Resources(file, conv), m.resourceId, Obj(ToDict(m))))
  }

  function Removed(file: ManifestFile, id: string, conv: Conversions): ManifestFile {
    var doc := Resources(file, conv);
    if HasKey(doc, id) then Document(Without(doc, id)) else file
  }

  // ---- What loading gives ----

  predicate Settled(f: Field, conv: Conversions) {
    Accept(f, conv).Some? && f.value == Obj(ToDict(Accept(f, conv).value))
  }

  predicate Clean(fs: seq<Field>, conv: Conversions) {
    DistinctKeys(fs) && forall i | 0 <= i < |fs| :: Settled(fs[i], conv)
  }

  lemma AcceptedIsSettled(f: Field, m: Manifest, conv: Conversions)
    requires Accept(f, conv) == Some(m)
    ensures m.resourceId == f.key && Loadable(m)
    ensures Settled(Field(m.resourceId, Obj(ToDict(m))), conv)
    ensures Accept(Field(m.resourceId, Obj(ToDict(m))), conv) == Some(m)
  {
    ReadEntriesAreLoadable(f.value.fields, conv);
    EntryRoundTrip(m, conv);
  }

  lemma PutKeepsClean(fs: seq<Field>, m: Manifest, conv: Conversions)
    requires Clean(fs, conv) && Settled(Field(m.resourceId, Obj(ToDict(m))), conv)
    ensures Clean(Put(fs, m.resourceId, Obj(ToDict(m))), conv)
  {
    var entry := Obj(ToDict(m));
    hide Settled, ToDict;
    PutThenGet(fs, m.resourceId, entry, "");
    PutFields(fs, m.resourceId, entry);
    hide DistinctKeys, Put;
    var fs' := Put(fs, m.resourceId, entry);
    forall i | 0 <= i < |fs'| ensures Settled(fs'[i], conv) { assert fs'[i] in fs'; }
  }

  lemma PutFields(fs: seq<Field>, k: string, v: Json)
    ensures forall f | f in Put(fs, k, v) :: f in fs || f == Field(k, v)
  {
  }

  lemma {:induction false} LoadedIsClean(raw: seq<Field>, conv: Conversions)
    ensures Clean(LoadEntries(raw, conv), conv)
  {
    if raw != [] {
      LoadedIsClean(raw[..|raw| - 1], conv);
      var f := raw[|raw| - 1];
      if Accept(f, conv).Some? {
        AcceptedIsSettled(f, Accept(f, conv).value, conv);
        PutKeepsClean(LoadEntries(raw[..|raw| - 1], conv), Accept(f, conv).value, conv);
      }
    }
  }

  /** What validation makes of the raw entry under `id`. */
  function AcceptedAt(raw: seq<Field>, id: string, conv: Conversions): Option<Manifest> {
    if HasKey(raw, id) then Accept(Field(id, Get(raw, id)), conv) else None
  }

  predicate Shows(doc: seq<Field>, id: string, entry: Option<Manifest>) {
    if entry.Some? then HasKey(doc, id) && Get(doc, id) == Obj(ToDict(entry.value)) else !HasKey(doc, id)
  }

  lemma KeepShows(doc: seq<Field>, f: Field, id: string, entry: Option<Manifest>, conv: Conversions)
    requires Shows(doc, id, entry) && (f.key == id ==> entry == None)
    ensures Shows(Keep(doc, f, conv), id, if f.key == id then Accept(f, conv) else entry)
  {
    if Accept(f, conv).Some? {
      PutThenGet(doc, f.key, Obj(ToDict(Accept(f, conv).value)), id);
    }
  }

  lemma AppendedIndex(init: seq<Field>, f: Field, id: string)
    ensures IndexOf(init + [f], id) == if HasKey(init, id) then IndexOf(init, id) else if f.key == id then |init|
      else |init| + 1
  {
    FirstIndex(init + [f], id,
      if HasKey(init, id) then IndexOf(init, id) else if f.key == id then |init| else |init| + 1);
  }

  /** In a document with distinct keys, what is loaded under a key is what validation makes of the entry at that key. */
  lemma {:induction false} LoadedAt(raw: seq<Field>, id: string, conv: Conversions)
    requires DistinctKeys(raw)
    ensures Shows(LoadEntries(raw, conv), id, AcceptedAt(raw, id, conv))
  {
    if raw != [] {
      var init, f := raw[..|raw| - 1], raw[|raw| - 1];
      assert raw == init + [f];
      LoadedAt(init, id, conv);
      AppendedIndex(init, f, id);
      if HasKey(init, id) { assert init[IndexOf(init, id)].key != f.key; }
      KeepShows(LoadEntries(init, conv), f, id, AcceptedAt(init, id, conv), conv);
    }
  }

  lemma FindIsAccept(file: ManifestFile, id: string, conv: Conversions)
    requires DistinctKeys(RawResources(file))
    ensures Find(file, id, conv) == AcceptedAt(RawResources(file), id, conv)
  {
    var raw := RawResources(file);
    LoadedAt(raw, id, conv);
    var entry := AcceptedAt(raw, id, conv);
    if entry.Some? {
      AcceptedIsSettled(Field(id, Get(raw, id)), entry.value, conv);
      EntryRoundTrip(entry.value, conv);
    }
  }

  lemma {:induction false} InsertKeepsKeysDistinct(f: Field, fs: seq<Field>)
    requires DistinctKeys(fs) && forall g | g in fs :: g.key != f.key
    ensures DistinctKeys(Insert(f, fs, KeyBefore))
  {
    hide TextBefore;
    if fs != [] && !KeyBefore(f, fs[0]) {
      var rest := Insert(f, fs[1..], KeyBefore);
      InsertKeepsKeysDistinct(f, fs[1..]);
      InsertElements(f, fs[1..], KeyBefore);
      forall g | g in rest ensures g.key != fs[0].key {
        assert g in multiset(rest);
        assert g == f || g in fs[1..];
      }
    }
  }

  lemma {:induction false} SortKeepsKeysDistinct(fs: seq<Field>)
    requires DistinctKeys(fs)
    ensures DistinctKeys(Sort(fs, KeyBefore))
  {
    if fs != [] {
      SortKeepsKeysDistinct(fs[1..]);
      SortElements(fs[1..], KeyBefore);
      InsertKeepsKeysDistinct(fs[0], Sort(fs[1..], KeyBefore));
    }
  }

  /** Sorting the keys changes nothing a lookup sees. */
  lemma SortedLookup(fs: seq<Field>, k: string)
    requires DistinctKeys(fs)
    ensures var sorted := Sort(fs, KeyBefore);
      HasKey(sorted, k) == HasKey(fs, k) && (HasKey(fs, k) ==> Get(sorted, k) == Get(fs, k))
  {
    var sorted := Sort(fs, KeyBefore);
    SortKeepsKeysDistinct(fs);
    SortElements(fs, KeyBefore);
    hide Sort;
    if HasKey(fs, k) { KeyIsShared(fs, sorted, k); }
    if HasKey(sorted, k) { KeyIsShared(sorted, fs, k); }
  }

  lemma KeyIsShared(fs: seq<Field>, gs: seq<Field>, k: string)
    requires HasKey(fs, k) && DistinctKeys(gs) && forall f | f in fs :: f in gs
    ensures HasKey(gs, k) && Get(gs, k) == Get(fs, k)
  {
    var f := fs[IndexOf(fs, k)];
    assert f in fs;
    var j :| 0 <= j < |gs| && gs[j] == f;
    IndexIsUnique(gs, j);
  }

  lemma {:induction false} TextTotal(a: string, b: string)
    ensures TextBefore(a, b) || TextBefore(b, a)
  {
    if a != "" && b != "" { TextTotal(a[1..], b[1..]); }
  }

  lemma {:induction false} TextTransitive(a: string, b: string, c: string)
    requires TextBefore(a, b) && TextBefore(b, c)
    ensures TextBefore(a, c)
  {
    if a != "" && a[0] == b[0] == c[0] { TextTransitive(a[1..], b[1..], c[1..]); }
  }

  /** The document is an object with the version and the resources, these in the order of their ids, which is the order
      cleanup takes them in. */
  lemma WrittenInKeyOrder(fs: seq<Field>)
    ensures SortedBy(RawResources(Document(fs)), KeyBefore)
    ensures Document(fs) == Parsed(Obj([Field("resources", Obj(RawResources(Document(fs)))), Field("version", Int(1))]))
  {
    hide TextBefore;
    forall f, g ensures KeyBefore(f, g) || KeyBefore(g, f) { TextTotal(f.key, g.key); }
    forall f, g, h | KeyBefore(f, g) && KeyBefore(g, h) ensures KeyBefore(f, h) {
      TextTransitive(f.key, g.key, h.key);
    }
    SortSorted(fs, KeyBefore);
    DocumentResources(fs);
  }

  lemma DocumentResources(fs: seq<Field>)
    ensures RawResources(Document(fs)) == Sort(fs, KeyBefore)
  {
    var top := [Field("resources", Obj(Sort(fs, KeyBefore))), Field("version", Int(1))];
    FirstIndex(top, "resources", 0);
  }

  /** Looking a key up in the loaded document is validating the entry stored there. */
  lemma FindInResources(file: ManifestFile, id: string, conv: Conversions)
    ensures Find(file, id, conv).Some? <==> HasKey(Resources(file, conv), id)
    ensures Find(file, id, conv).Some? ==>
      Accept(Field(id, Get(Resources(file, conv), id)), conv) == Find(file, id, conv)
    ensures Find(file, id, conv).Some? ==> Find(file, id, conv).value.resourceId == id
    ensures Find(file, id, conv).Some? ==> Loadable(Find(file, id, conv).value)
    ensures Find(file, id, conv).Some? ==> ValidateLocator(Find(file, id, conv).value.locator, id).Success?
  {
    var doc := Resources(file, conv);
    LoadedIsClean(RawResources(file), conv);
    if HasKey(doc, id) {
      var f := doc[IndexOf(doc, id)];
      assert Settled(f, conv) && f == Field(id, Get(doc, id));
      AcceptedIsSettled(f, Accept(f, conv).value, conv);
    }
  }

  /** The document `save` writes: distinct keys, the new entry under its id, every other entry as before. */
  lemma SavedDocument(file: ManifestFile, m: Manifest, other: string, conv: Conversions)
    ensures var doc, doc' := Resources(file, conv), RawResources(Saved(file, m, conv));
      && DistinctKeys(doc') && HasKey(doc', m.resourceId) && Get(doc', m.resourceId) == Obj(ToDict(m))
      && (other != m.resourceId ==> HasKey(doc', other) == HasKey(doc, other))
      && (other != m.resourceId && HasKey(doc, other) ==> Get(doc', other) == Get(doc, other))
  {
    hide ToDict, FromMapping, ValidateLocator, LoadEntries, RawResources, HasKey, Get, Put;
    var doc, entry := Resources(file, conv), Obj(ToDict(m));
    LoadedIsClean(RawResources(file), conv);
    PutThenGet(doc, m.resourceId, entry, other);
    var put := Put(doc, m.resourceId, entry);
    DocumentResources(put);
    SortKeepsKeysDistinct(put);
    SortedLookup(put, m.resourceId);
    SortedLookup(put, other);
    hide Sort, Document;
  }

  /** Saving then getting returns the manifest with its digest in lower case if that one is loadable; otherwise nothing
      is found under its id. */
  lemma SaveThenGetOwn(file: ManifestFile, m: Manifest, conv: Conversions)
    requires ValidateLocator(m.locator, m.resourceId).Success?
    ensures Find(Saved(file, m, conv), m.resourceId, conv) == if Loadable(Normalized(m)) then Some(Normalized(m))
      else None
  {
    hide ToDict, FromMapping, ValidateLocator, LoadEntries, RawResources, HasKey, Get, Put, Saved, Find, Loadable,
      DistinctKeys, Lower;
    SavedDocument(file, m, m.resourceId, conv);
    FindIsAccept(Saved(file, m, conv), m.resourceId, conv);
    EntryRoundTrip(m, conv);
  }

  lemma SaveThenGetOther(file: ManifestFile, m: Manifest, other: string, conv: Conversions)
    requires other != m.resourceId
    ensures Find(Saved(file, m, conv), other, conv) == Find(file, other, conv)
  {
    hide ToDict, FromMapping, ValidateLocator, LoadEntries, RawResources, HasKey, Get, Put, Saved, Find, Accept,
      DistinctKeys;
    SavedDocument(file, m, other, conv);
    FindIsAccept(Saved(file, m, conv), other, conv);
    FindInResources(file, other, conv);
  }

  /** Saving then getting: what is found under the id in every case, the very manifest exactly when it is loadable, and
      every other id as before. */
  lemma SaveThenGet(file: ManifestFile, m: Manifest, other: string, conv: Conversions)
    requires ValidateLocator(m.locator, m.resourceId).Success?
    ensures Find(Saved(file, m, conv), m.resourceId, conv) == if Loadable(Normalized(m)) then Some(Normalized(m))
      else None
    ensures Find(Saved(file, m, conv), m.resourceId, conv) == Some(m) <==> Loadable(m)
    ensures other != m.resourceId ==> Find(Saved(file, m, conv), other, conv) == Find(file, other, conv)
  {
    hide Find, Saved, Loadable, ValidateLocator, Normalized;
    SaveThenGetOwn(file, m, conv);
    LoadableIsNormalized(m);
    if other != m.resourceId { SaveThenGetOther(file, m, other, conv); }
  }

  lemma RemovedDocument(file: ManifestFile, id: string, other: string, conv: Conversions)
    requires HasKey(Resources(file, conv), id)
    ensures var doc, doc' := Resources(file, conv), RawResources(Removed(file, id, conv));
      && DistinctKeys(doc') && !HasKey(doc', id)
      && (other != id ==> HasKey(doc', other) == HasKey(doc, other))
      && (other != id && HasKey(doc, other) ==> Get(doc', other) == Get(doc, other))
  {
    hide LoadEntries, RawResources, HasKey, Get, Without;
    var doc := Resources(file, conv);
    LoadedIsClean(RawResources(file), conv);
    WithoutThenGet(doc, id, other);
    var left := Without(doc, id);
    DocumentResources(left);
    SortKeepsKeysDistinct(left);
    SortedLookup(left, id);
    SortedLookup(left, other);
    hide Sort, Document;
  }

  lemma RemoveThenGet(file: ManifestFile, id: string, other: string, conv: Conversions)
    ensures Find(Removed(file, id, conv), id, conv) == None
    ensures other != id ==> Find(Removed(file, id, conv), other, conv) == Find(file, other, conv)
  {
    var doc := Resources(file, conv);
    LoadedIsClean(RawResources(file), conv);
    FindInResources(file, id, conv);
    if HasKey(doc, id) {
      RemovedDocument(file, id, other, conv);
      hide Removed, Find, Resources, RawResources, HasKey, Get, DistinctKeys, Accept;
      FindIsAccept(Removed(file, id, conv), id, conv);
      FindIsAccept(Removed(file, id, conv), other, conv);
      FindInResources(file, other, conv);
    }
  }

  /** The store: one JSON document, read whole and replaced whole. */
  class ResourceManifestStore {
    const conv: Conversions
    var file: ManifestFile

    constructor (conv: Conversions, file: ManifestFile)
      ensures this.conv == conv && this.file == file
    {
      this.conv := conv;
      this.file := file;
    }

    method LoadDocument() returns (valid: seq<Field>)
      ensures valid == Resources(file, conv)
    {
      hide FromMapping, ValidateLocator, RawResources, Put;
      var raw := RawResources(file);
      valid := [];
      for i := 0 to |raw|
        invariant valid == LoadEntries(raw[..i], conv)
      {
        assert raw[..i + 1][..i] == raw[..i];
        if raw[i].value.Obj? {
          var item := FromMapping(raw[i].value.fields, conv);
          if item.Success? && item.value.resourceId == raw[i].key
             && ValidateLocator(item.value.locator, item.value.resourceId).Success?
          {
            valid := Put(valid, item.value.resourceId, Obj(ToDict(item.value)));
          }
        }
      }
      assert raw[..|raw|] == raw;
    }

    method Lookup(id: string) returns (m: Option<Manifest>)
      ensures m == Find(file, id, conv)
    {
      var doc := LoadDocument();
      m := None;
      if HasKey(doc, id) && Get(doc, id).Obj? {
        match FromMapping(Get(doc, id).fields, conv)
        case Success(item) => m := Some(item);
        case Failure(_) =>
      }
    }

    method Save(m: Manifest) returns (r: Result<Manifest>)
      modifies this
      ensures r.Success? <==> ValidateLocator(m.locator, m.resourceId).Success?
      ensures r.Success? ==> r.value == m && file == Saved(old(file), m, conv)
      ensures r.Failure? ==> file == old(file)
    {
      var path := ValidateLocator(m.locator, m.resourceId);
      if path.Failure? {
        return Failure(path.problem);
      }
      var doc := LoadDocument();
      doc := Put(doc, m.resourceId, Obj(ToDict(m)));
      file := Document(doc);
      r := Success(m);
    }

    method Remove(id: string) returns (removed: bool)
      modifies this
      ensures file == Removed(old(file), id, conv)
      ensures removed == Find(old(file), id, conv).Some?
    {
      FindInResources(file, id, conv);
      var doc := LoadDocument();
      removed := HasKey(doc, id);
      if removed {
        file := Document(Without(doc, id));
      }
    }
  }
}
