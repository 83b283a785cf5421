/**
 * Schema objects, the morphisms between them, and the category that holds both:
 * a table of objects keyed by name and a list of morphisms in insertion order.
 */
module Category {
  import opened Wrappers

  /** One schema version: its name and the attribute names it declares. */
  datatype SchemaObject = SchemaObject(name: string, attributes: seq<string>)

  /** A declared transformation from the schema named `source` to the one named `target`,
      renaming each attribute that is a key of `attributeMap` to the attribute it maps to. */
  datatype SchemaMorphism = SchemaMorphism(source: string, target: string, attributeMap: map<string, string>)

  /** Whether `m` goes directly from `source` to `target`. */
  predicate Connects(m: SchemaMorphism, source: string, target: string)
  {
    m.source == source && m.target == target
  }

  /**
   * The position of the first morphism in `ms` that goes from `source` to
   * `target`, as a front-to-back search finds it; `None` when no morphism does.
   */
  function FindDirect(ms: seq<SchemaMorphism>, source: string, target: string): (r: Option<nat>)
    ensures r.None? <==> forall i :: 0 <= i < |ms| ==> !Connects(ms[i], source, target)
    ensures r.Some? ==> r.value < |ms| && Connects(ms[r.value], source, target)
    ensures r.Some? ==> forall i :: 0 <= i < r.value ==> !Connects(ms[i], source, target)
  {
    if ms == [] then None
    else if Connects(ms[0], source, target) then Some(0)
    else
      match FindDirect(ms[1..], source, target)
      case None => None
      case Some(i) => Some(i + 1)
  }

  /**
   * Appending a morphism never changes a lookup that already succeeds (the
   * earlier morphism still comes first); a lookup that failed finds the new
   * morphism exactly when it connects the two names.
   */
  lemma {:induction false} FindDirectAppend(ms: seq<SchemaMorphism>, m: SchemaMorphism, source: string, target: string)
    ensures FindDirect(ms + [m], source, target) ==
      if FindDirect(ms, source, target).Some? then FindDirect(ms, source, target)
      else if Connects(m, source, target) then Some(|ms|)
      else None
  {
    var ms' := ms + [m];
    var before := FindDirect(ms, source, target);
    var after := FindDirect(ms', source, target);
    match before
    case Some(i) =>
      assert ms'[i] == ms[i];
    case None =>
      assert ms'[|ms|] == m;
  }

  /** The category: schema objects by name and the declared morphisms in the order they were added. */
  class SchemaCategory {
    var objects: map<string, SchemaObject>
    var morphisms: seq<SchemaMorphism>

    /** Every object is filed under its own name. */
    ghost predicate Valid()
      reads this
    {
      forall n :: n in objects ==> objects[n].name == n
    }

    /** `SchemaCategory::new`: no objects and no morphisms. */
    constructor ()
      ensures Valid()
      ensures objects == map[] && morphisms == []
    {
      objects := map[];
      morphisms := [];
    }

    /**
     * `add_object`: files `obj` under its name, silently replacing any object
     * already filed there; every other name and the morphism list are untouched.
     */
    method AddObject(obj: SchemaObject)
      modifies this
      ensures old(Valid()) ==> Valid()
      ensures obj.name in objects && objects[obj.name] == obj
      ensures forall n :: n != obj.name ==> (n in objects <==> n in old(objects))
      ensures forall n :: n != obj.name && n in objects ==> objects[n] == old(objects)[n]
      ensures morphisms == old(morphisms)
    {
      objects := objects[obj.name := obj];
    }

    /**
     * `add_morphism`: appends `m` to the morphism list, without checking that
     * its source and target are objects of the category; the objects are untouched.
     */
    method AddMorphism(m: SchemaMorphism)
      modifies this
      ensures old(Valid()) ==> Valid()
      ensures morphisms == old(morphisms) + [m]
      ensures objects == old(objects)
    {
      morphisms := morphisms + [m];
    }

    /** `find_morphism_chain`: a placeholder that finds no chain, whatever the names. */
    function FindMorphismChain(start: string, end: string): (r: Option<seq<SchemaMorphism>>)
      reads this
      ensures r.None?
    {
      None
    }
  }
}
