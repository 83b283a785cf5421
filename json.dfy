/**
 * The part of a `serde_json::Value` that the transformation engine uses: whether
 * the value is an object, and if so its fields. Field values are never inspected,
 * so their type is the parameter `V`.
 */
module Json {
  import opened Wrappers

  /** The fields of an object, in the order in which iterating over the object visits them. */
  type Fields<V> = seq<(string, V)>

  /** An object, or any other JSON value (string, number, array, boolean, null). */
  datatype Value<V> = Object(fields: Fields<V>) | NotObject

  /** The keys that occur in `f`. */
  function KeysOf<V>(f: Fields<V>): (r: set<string>)
    ensures forall i :: 0 <= i < |f| ==> f[i].0 in r
    ensures forall k :: k in r ==> exists i :: 0 <= i < |f| && f[i].0 == k
  {
    if f == [] then {} else {f[0].0} + KeysOf(f[1..])
  }

  /** No key occurs twice: the shape of every `serde_json::Map`. */
  ghost predicate UniqueKeys<V>(f: Fields<V>)
  {
    forall i, j :: 0 <= i < j < |f| ==> f[i].0 != f[j].0
  }

  /** The value stored under `k`, if any: the lookup the properties of a built object are stated with. */
  function Get<V>(f: Fields<V>, k: string): (r: Option<V>)
    ensures r.None? <==> k !in KeysOf(f)
    ensures r.Some? ==> exists i :: 0 <= i < |f| && f[i] == (k, r.value)
  {
    if f == [] then None
    else if f[0].0 == k then Some(f[0].1)
    else Get(f[1..], k)
  }

  /** In a map whose keys are unique, every field is what `Get` finds under its key. */
  lemma {:induction false} GetField<V>(f: Fields<V>, i: int)
    requires UniqueKeys(f)
    requires 0 <= i < |f|
    ensures Get(f, f[i].0) == Some(f[i].1)
  {
    if i > 0 {
      assert f[0].0 != f[i].0;
      assert f[1..][i - 1] == f[i];
      GetField(f[1..], i - 1);
    }
  }

  /** How `KeysOf`, `Get` and `UniqueKeys` see a field put in front of others. */
  lemma Cons<V>(x: (string, V), f: Fields<V>)
    ensures KeysOf([x] + f) == {x.0} + KeysOf(f)
    ensures forall j :: Get([x] + f, j) == if x.0 == j then Some(x.1) else Get(f, j)
    ensures UniqueKeys([x] + f) <==> x.0 !in KeysOf(f) && UniqueKeys(f)
  {
    var g := [x] + f;
    assert g[1..] == f;
    if UniqueKeys(g) {
      forall i, j | 0 <= i < j < |f| ensures f[i].0 != f[j].0 {
        assert g[i + 1] == f[i] && g[j + 1] == f[j];
      }
    }
    if x.0 !in KeysOf(f) && UniqueKeys(f) {
      forall i, j | 0 <= i < j < |g| ensures g[i].0 != g[j].0 {
        if i > 0 {
          assert g[i] == f[i - 1];
        }
        assert g[j] == f[j - 1];
      }
    }
  }

  /** `Cons` read backwards: a non-empty field sequence seen as its head and its tail. */
  lemma Uncons<V>(f: Fields<V>)
    requires f != []
    ensures KeysOf(f) == {f[0].0} + KeysOf(f[1..])
    ensures forall j :: Get(f, j) == if f[0].0 == j then Some(f[0].1) else Get(f[1..], j)
    ensures UniqueKeys(f) <==> f[0].0 !in KeysOf(f[1..]) && UniqueKeys(f[1..])
  {
    assert f == [f[0]] + f[1..];
    Cons(f[0], f[1..]);
  }

  /**
   * `Map::insert`: afterwards `k` holds `v`, every other key holds what it held,
   * and no key has been duplicated. An existing entry is overwritten where it
   * stands; a new key is added at the end.
   */
  function Insert<V>(f: Fields<V>, k: string, v: V): (r: Fields<V>)
    ensures KeysOf(r) == KeysOf(f) + {k}
    ensures Get(r, k) == Some(v)
    ensures forall j :: j != k ==> Get(r, j) == Get(f, j)
    ensures UniqueKeys(f) ==> UniqueKeys(r)
  {
    if f == [] then
      Cons((k, v), f);
      [(k, v)]
    else
      Uncons(f);
      if f[0].0 == k then
        Cons((k, v), f[1..]);
        [(k, v)] + f[1..]
      else
        var rest := Insert(f[1..], k, v);
        Cons(f[0], rest);
        assert UniqueKeys(f) ==> f[0].0 !in KeysOf(rest) && UniqueKeys(rest);
        [f[0]] + rest
  }
}
