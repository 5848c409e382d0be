/** JSON values as Python holds them: objects are insertion-ordered dictionaries. */
module PyJson {

  datatype Option<+T> = None | Some(value: T)

  datatype Json =
    | Null
    | Bool(b: bool)
    | Int(i: int)
    | Float(r: real)
    | Str(s: string)
    | Arr(items: seq<Json>)
    | Obj(fields: seq<Field>)

  datatype Field = Field(key: string, value: Json)

  /** The position of key `k`, or the number of fields when the key is absent. */
  function IndexOf(fs: seq<Field>, k: string): (i: nat)
    ensures i <= |fs|
    ensures i < |fs| ==> fs[i].key == k
    ensures forall j | 0 <= j < i :: fs[j].key != k
  {
    if fs == [] || fs[0].key == k then 0 else 1 + IndexOf(fs[1..], k)
  }

  predicate HasKey(fs: seq<Field>, k: string) {
    IndexOf(fs, k) < |fs|
  }

  function Get(fs: seq<Field>, k: string): Json
    requires HasKey(fs, k)
  {
    fs[IndexOf(fs, k)].value
  }

  /** `dict.get(k)`: a missing key reads as None. */
  function GetOrNull(fs: seq<Field>, k: string): Json {
    if HasKey(fs, k) then Get(fs, k) else Null
  }

  /** `d[k] = v`: an existing key keeps its place, a new one goes to the end. */
  function Put(fs: seq<Field>, k: string, v: Json): seq<Field> {
    var i := IndexOf(fs, k);
    if i < |fs| then fs[i := Field(k, v)] else fs + [Field(k, v)]
  }

  predicate DistinctKeys(fs: seq<Field>) {
    forall i, j | 0 <= i < j < |fs| :: fs[i].key != fs[j].key
  }

  lemma IndexIsUnique(fs: seq<Field>, i: int)
    requires 0 <= i < |fs| && DistinctKeys(fs)
    ensures HasKey(fs, fs[i].key) && Get(fs, fs[i].key) == fs[i].value
  {
    FirstIndex(fs, fs[i].key, i);
  }

  lemma FirstIndex(fs: seq<Field>, k: string, i: int)
    requires 0 <= i <= |fs| && (i < |fs| ==> fs[i].key == k)
    requires forall j | 0 <= j < i :: fs[j].key != k
    ensures IndexOf(fs, k) == i
  {
  }

  lemma PutThenGet(fs: seq<Field>, k: string, v: Json, other: string)
    ensures HasKey(Put(fs, k, v), k) && Get(Put(fs, k, v), k) == v
    ensures other != k ==> HasKey(Put(fs, k, v), other) == HasKey(fs, other)
    ensures other != k && HasKey(fs, other) ==> Get(Put(fs, k, v), other) == Get(fs, other)
    ensures DistinctKeys(fs) ==> DistinctKeys(Put(fs, k, v))
  {
    var i := IndexOf(fs, k);
    var fs' := Put(fs, k, v);
    FirstIndex(fs', k, i);
    if other != k { PutIndex(fs, k, v, other); }
    hide IndexOf;
  }

  lemma PutIndex(fs: seq<Field>, k: string, v: Json, other: string)
    requires other != k
    ensures var j := IndexOf(fs, other); IndexOf(Put(fs, k, v), other) == if j < |fs| then j else |Put(fs, k, v)|
  {
    var j := IndexOf(fs, other);
    FirstIndex(Put(fs, k, v), other, if j < |fs| then j else |Put(fs, k, v)|);
  }

  /** The keys keep their order; a new one comes last. */
  lemma PutOrder(fs: seq<Field>, k: string, v: Json)
    ensures |fs| <= |Put(fs, k, v)| && forall i | 0 <= i < |fs| :: Put(fs, k, v)[i].key == fs[i].key
    ensures !HasKey(fs, k) ==> Put(fs, k, v) == fs + [Field(k, v)]
    ensures HasKey(fs, k) ==> |Put(fs, k, v)| == |fs|
  {
  }

  /** Writing back the value a key already has changes nothing, not even the order. */
  lemma PutSame(fs: seq<Field>, k: string)
    requires HasKey(fs, k)
    ensures Put(fs, k, Get(fs, k)) == fs
  {
  }

  /** `d.pop(k)`. */
  function Without(fs: seq<Field>, k: string): seq<Field> {
    var i := IndexOf(fs, k);
    if i < |fs| then fs[..i] + fs[i + 1..] else fs
  }

  lemma WithoutThenGet(fs: seq<Field>, k: string, other: string)
    requires DistinctKeys(fs)
    ensures DistinctKeys(Without(fs, k)) && !HasKey(Without(fs, k), k)
    ensures other != k ==> HasKey(Without(fs, k), other) == HasKey(fs, other)
    ensures other != k && HasKey(fs, other) ==> Get(Without(fs, k), other) == Get(fs, other)
  {
    WithoutKey(fs, k);
    if other != k {
      WithoutIndex(fs, k, other);
      hide IndexOf;
      WithoutAt(fs, k, other);
    }
    hide Without, HasKey, Get, DistinctKeys;
  }

  lemma WithoutAt(fs: seq<Field>, k: string, other: string)
    requires other != k
    requires var i, j := IndexOf(fs, k), IndexOf(fs, other);
      IndexOf(Without(fs, k), other) == if i < j && i < |fs| then j - 1 else j
    ensures HasKey(Without(fs, k), other) == HasKey(fs, other)
    ensures HasKey(fs, other) ==> Get(Without(fs, k), other) == Get(fs, other)
  {
    hide IndexOf;
  }

  lemma WithoutKey(fs: seq<Field>, k: string)
    requires DistinctKeys(fs)
    ensures DistinctKeys(Without(fs, k)) && !HasKey(Without(fs, k), k)
  {
    var fs', i := Without(fs, k), IndexOf(fs, k);
    hide IndexOf;
    if i < |fs| {
      assert fs' == fs[..i] + fs[i + 1..];
      forall j | 0 <= j < |fs'| ensures fs'[j].key != k {
        if i <= j { assert fs'[j] == fs[j + 1]; }
      }
    }
    FirstIndex(fs', k, |fs'|);
  }

  lemma WithoutIndex(fs: seq<Field>, k: string, other: string)
    requires other != k
    ensures var i, j := IndexOf(fs, k), IndexOf(fs, other);
      IndexOf(Without(fs, k), other) == if i < j && i < |fs| then j - 1 else j
  {
    var fs', i, j := Without(fs, k), IndexOf(fs, k), IndexOf(fs, other);
    FirstIndex(fs', other, if i < j && i < |fs| then j - 1 else j);
  }

  /** The characters `str.strip` removes. */
  predicate IsSpace(c: char) {
    || '\U{9}' <= c <= '\U{D}' || '\U{1C}' <= c <= ' ' || c == '\U{85}' || c == '\U{A0}' || c == '\U{1680}'
    || '\U{2000}' <= c <= '\U{200A}' || c == '\U{2028}' || c == '\U{2029}' || c == '\U{202F}' || c == '\U{205F}'
    || c == '\U{3000}'
  }
}
