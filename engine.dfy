/**
 * The transformation engine: it looks up the first morphism that goes directly
 * from the requested source schema to the requested target schema and renames
 * the fields of a JSON object through that morphism's attribute map.
 */
module Engine {
  import opened Wrappers
  import opened Json
  import opened Category

  /** Why a transformation fails: no morphism goes directly from `source` to `target`. */
  datatype TransformError = NoDirectMorphism(source: string, target: string)

  /** Whether the `i`th field of `f` is renamed by `attributeMap` to `key`. */
  predicate RenamesTo<V>(f: Fields<V>, attributeMap: map<string, string>, i: int, key: string)
    requires 0 <= i < |f|
  {
    f[i].0 in attributeMap && attributeMap[f[i].0] == key
  }

  /**
   * The object built by visiting the fields of `f` in order and, for each one
   * whose key `attributeMap` maps, inserting its value under the mapped key.
   * The result is a map: no key occurs twice in it.
   */
  function Project<V>(f: Fields<V>, attributeMap: map<string, string>): (r: Fields<V>)
    ensures UniqueKeys(r)
  {
    if f == [] then []
    else
      var (k, v) := f[|f| - 1];
      var visited := Project(f[..|f| - 1], attributeMap);
      if k in attributeMap then Insert(visited, attributeMap[k], v) else visited
  }

  /** The projection of a non-empty sequence: that of all but its last field, then the last field inserted. */
  lemma ProjectLast<V>(f: Fields<V>, attributeMap: map<string, string>, key: string)
    requires f != []
    ensures var n := |f| - 1;
      Get(Project(f, attributeMap), key) ==
        if RenamesTo(f, attributeMap, n, key) then Some(f[n].1) else Get(Project(f[..n], attributeMap), key)
  {
  }

  /** The projection holds nothing under `key` exactly when no input field is renamed to `key`. */
  lemma {:induction false} ProjectGetNone<V>(f: Fields<V>, attributeMap: map<string, string>, key: string)
    ensures Get(Project(f, attributeMap), key).None? <==>
      forall i :: 0 <= i < |f| ==> !RenamesTo(f, attributeMap, i, key)
  {
    if f != [] {
      var n := |f| - 1;
      var init := f[..n];
      ProjectLast(f, attributeMap, key);
      ProjectGetNone(init, attributeMap, key);
      assert forall i :: 0 <= i < n ==> init[i] == f[i];
      assert forall i :: 0 <= i < n ==> (RenamesTo(init, attributeMap, i, key) <==> RenamesTo(f, attributeMap, i, key));
    }
  }

  /**
   * Otherwise it holds the unchanged value of the LAST input field renamed to
   * `key`: a later field overwrites an earlier one.
   */
  lemma {:induction false} ProjectGetSome<V>(f: Fields<V>, attributeMap: map<string, string>, key: string)
    requires Get(Project(f, attributeMap), key).Some?
    ensures exists i ::
      && 0 <= i < |f| && RenamesTo(f, attributeMap, i, key)
      && Get(Project(f, attributeMap), key).value == f[i].1
      && forall j :: i < j < |f| ==> !RenamesTo(f, attributeMap, j, key)
  {
    var n := |f| - 1;
    var init := f[..n];
    var r := Get(Project(f, attributeMap), key);
    ProjectLast(f, attributeMap, key);
    if RenamesTo(f, attributeMap, n, key) {
      assert r.value == f[n].1;
    } else {
      ProjectGetSome(init, attributeMap, key);
      var i :| 0 <= i < n && RenamesTo(init, attributeMap, i, key)
        && r.value == init[i].1
        && forall j :: i < j < n ==> !RenamesTo(init, attributeMap, j, key);
      LastRenamedExtends(f, init, attributeMap, key, i);
    }
  }

  /** The last field of all-but-the-last renamed to `key` stays the last one when the last field is not. */
  lemma LastRenamedExtends<V>(f: Fields<V>, init: Fields<V>, attributeMap: map<string, string>, key: string, i: int)
    requires f != [] && init == f[..|f| - 1] && 0 <= i < |init|
    requires RenamesTo(init, attributeMap, i, key)
    requires forall j :: i < j < |init| ==> !RenamesTo(init, attributeMap, j, key)
    requires !RenamesTo(f, attributeMap, |f| - 1, key)
    ensures init[i] == f[i] && RenamesTo(f, attributeMap, i, key)
    ensures forall j :: i < j < |f| ==> !RenamesTo(f, attributeMap, j, key)
  {
    forall j | i < j < |init| ensures !RenamesTo(f, attributeMap, j, key) {
      assert init[j] == f[j];
      assert !RenamesTo(init, attributeMap, j, key);
    }
  }

  /** The keys of the projection are exactly the images of the input keys that the map renames. */
  lemma ProjectKeys<V>(f: Fields<V>, attributeMap: map<string, string>)
    ensures KeysOf(Project(f, attributeMap)) ==
      set i | 0 <= i < |f| && f[i].0 in attributeMap :: attributeMap[f[i].0]
  {
    var images := set i | 0 <= i < |f| && f[i].0 in attributeMap :: attributeMap[f[i].0];
    forall key ensures key in KeysOf(Project(f, attributeMap)) <==> key in images {
      ProjectGetNone(f, attributeMap, key);
      if key in images {
        var i :| 0 <= i < |f| && f[i].0 in attributeMap && attributeMap[f[i].0] == key;
        assert RenamesTo(f, attributeMap, i, key);
      }
    }
  }

  /** A field whose key the map does not rename contributes nothing: dropping it leaves the projection as it was. */
  lemma {:induction false} ProjectSkipsUnmapped<V>(f: Fields<V>, attributeMap: map<string, string>, i: int)
    requires 0 <= i < |f| && f[i].0 !in attributeMap
    ensures Project(f[..i] + f[i + 1..], attributeMap) == Project(f, attributeMap)
  {
    var n := |f| - 1;
    var g := f[..i] + f[i + 1..];
    if i == n {
      assert g == f[..n];
    } else {
      var init := f[..n];
      assert g[..|g| - 1] == init[..i] + init[i + 1..];
      assert g[|g| - 1] == f[n];
      ProjectSkipsUnmapped(init, attributeMap, i);
    }
  }

  /** A map that sends distinct attributes to distinct attributes. */
  ghost predicate Injective(attributeMap: map<string, string>)
  {
    forall a, b :: a in attributeMap && b in attributeMap && a != b ==> attributeMap[a] != attributeMap[b]
  }

  /** Through an injective map nothing is overwritten: each renamed key holds the value its source key held. */
  lemma ProjectInjective<V>(f: Fields<V>, attributeMap: map<string, string>, k: string)
    requires UniqueKeys(f) && Injective(attributeMap) && k in attributeMap
    ensures Get(Project(f, attributeMap), attributeMap[k]) == Get(f, k)
  {
    var key := attributeMap[k];
    ProjectGetNone(f, attributeMap, key);
    var r := Get(Project(f, attributeMap), key);
    if r.Some? {
      ProjectGetSome(f, attributeMap, key);
      var i :| 0 <= i < |f| && RenamesTo(f, attributeMap, i, key) && r.value == f[i].1;
      assert f[i].0 == k;
      GetField(f, i);
    } else if k in KeysOf(f) {
      var i :| 0 <= i < |f| && f[i].0 == k;
      assert RenamesTo(f, attributeMap, i, key);
    }
  }

  /**
   * What one morphism makes of a value: a new object holding the renamed
   * fields of an object, and an empty object for anything that is not one.
   */
  function Apply<V>(m: SchemaMorphism, data: Value<V>): (r: Value<V>)
    ensures r.Object? && UniqueKeys(r.fields)
    ensures data.NotObject? ==> r.fields == []
    ensures data.Object? ==> r.fields == Project(data.fields, m.attributeMap)
  {
    Object(if data.Object? then Project(data.fields, m.attributeMap) else [])
  }

  /**
   * `transform_data` on the morphism list `ms`: fails with `NoDirectMorphism`
   * exactly when no morphism goes from `source` to `target`, and otherwise
   * applies the first one that does.
   */
  function Transform<V>(ms: seq<SchemaMorphism>, data: Value<V>, source: string, target: string)
    : (r: Result<Value<V>, TransformError>)
    ensures r.Err? <==> forall i :: 0 <= i < |ms| ==> !Connects(ms[i], source, target)
    ensures r.Err? ==> r.error == NoDirectMorphism(source, target)
    ensures r.Ok? ==>
      exists i :: 0 <= i < |ms| && Connects(ms[i], source, target)
        && (forall j :: 0 <= j < i ==> !Connects(ms[j], source, target))
        && r.value == Apply(ms[i], data)
  {
    match FindDirect(ms, source, target)
    case None => Err(NoDirectMorphism(source, target))
    case Some(i) => Ok(Apply(ms[i], data))
  }

  /**
   * Adding a morphism leaves every transformation that already succeeds as it
   * was; one that failed now applies the new morphism if it connects the names.
   */
  lemma TransformAfterAddMorphism<V>(ms: seq<SchemaMorphism>, m: SchemaMorphism, data: Value<V>, source: string, target: string)
    ensures Transform(ms + [m], data, source, target) ==
      if Transform(ms, data, source, target).Ok? then Transform(ms, data, source, target)
      else if Connects(m, source, target) then Ok(Apply(m, data))
      else Err(NoDirectMorphism(source, target))
  {
    FindDirectAppend(ms, m, source, target);
    match FindDirect(ms, source, target)
    case Some(i) => assert (ms + [m])[i] == ms[i];
    case None => assert (ms + [m])[|ms|] == m;
  }

  /** The engine, which owns the category it was built from. */
  class TransformEngine {
    const schemaCat: SchemaCategory

    /** `TransformEngine::new`. */
    constructor (cat: SchemaCategory)
      ensures schemaCat == cat
    {
      schemaCat := cat;
    }

    /**
     * `transform_data`: reads the category and the input and changes neither.
     * The fields are visited in order and each mapped one is inserted into the
     * result, overwriting what an earlier field put under the same key.
     */
    method TransformData<V>(sourceData: Value<V>, source: string, target: string)
      returns (r: Result<Value<V>, TransformError>)
      ensures r == Transform(schemaCat.morphisms, sourceData, source, target)
    {
      var directMorphism := FindDirect(schemaCat.morphisms, source, target);
      match directMorphism
      case None =>
        r := Err(NoDirectMorphism(source, target));
      case Some(index) =>
        var m := schemaCat.morphisms[index];
        var resultMap: Fields<V> := [];
        if sourceData.Object? {
          var obj := sourceData.fields;
          for n := 0 to |obj|
            invariant resultMap == Project(obj[..n], m.attributeMap)
          {
            var (k, v) := obj[n];
            assert obj[..n + 1][..n] == obj[..n];
            if k in m.attributeMap {
              resultMap := Insert(resultMap, m.attributeMap[k], v);
            }
          }
          assert obj[..|obj|] == obj;
        }
        r := Ok(Object(resultMap));
    }
  }

  /** The record of the scenario in `main`, renamed field by field. */
  lemma ScenarioProjection(fields: Fields<string>, attrMap: map<string, string>)
    requires fields == [("id", "abc-123"), ("name", "Alice")]
    requires attrMap == map["id" := "uuid", "name" := "fullName"]
    ensures KeysOf(Project(fields, attrMap)) == {"uuid", "fullName"}
    ensures Get(Project(fields, attrMap), "uuid") == Some("abc-123")
    ensures Get(Project(fields, attrMap), "fullName") == Some("Alice")
  {
    assert fields[..1] == [("id", "abc-123")];
    assert fields[..1][..0] == [];
    assert Project(fields[..1][..0], attrMap) == [];
    assert "id" in attrMap && attrMap["id"] == "uuid";
    var once := Project(fields[..1], attrMap);
    assert once == Insert([], "uuid", "abc-123");
    assert Project(fields, attrMap) == Insert(once, "fullName", "Alice");
  }

  /** With only the program's `UserV1` to `UserV2` morphism declared, the reverse request fails. */
  lemma ScenarioReverseFails<V>(data: Value<V>)
    ensures Transform([SchemaMorphism("UserV1", "UserV2", map["id" := "uuid", "name" := "fullName"])], data, "UserV2", "UserV1")
      == Err(NoDirectMorphism("UserV2", "UserV1"))
  {
  }

  /**
   * The scenario in `main`: two user schemas, one morphism renaming `id` to
   * `uuid` and `name` to `fullName`, and a record carried across it.
   */
  method Scenario() returns (output: Result<Value<string>, TransformError>)
    ensures output.Ok? && output.value.Object?
    ensures UniqueKeys(output.value.fields)
    ensures KeysOf(output.value.fields) == {"uuid", "fullName"}
    ensures Get(output.value.fields, "uuid") == Some("abc-123")
    ensures Get(output.value.fields, "fullName") == Some("Alice")
  {
    var cat := new SchemaCategory();
    cat.AddObject(SchemaObject("UserV1", ["id", "name"]));
    cat.AddObject(SchemaObject("UserV2", ["uuid", "fullName"]));
    var attrMap := map["id" := "uuid", "name" := "fullName"];
    var morphism := SchemaMorphism("UserV1", "UserV2", attrMap);
    cat.AddMorphism(morphism);
    var fields := [("id", "abc-123"), ("name", "Alice")];
    var userV1Data := Object(fields);
    var engine := new TransformEngine(cat);
    output := engine.TransformData(userV1Data, "UserV1", "UserV2");
    ScenarioProjection(fields, attrMap);
    assert cat.morphisms == [morphism];
    assert FindDirect([morphism], "UserV1", "UserV2") == Some(0);
  }
}
