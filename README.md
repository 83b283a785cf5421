# Schema category and transformation engine (`onDemandMigration.rs`)

A Dafny model of the repository's one program, `onDemandMigration.rs`. It has two parts.

- **The schema category.** Schema objects are filed by name in a table. Morphisms (declared renamings from one schema to another) are kept in a list, in the order they were added.
- **The transformation engine.** `transform_data` finds the first morphism that goes directly from the requested source schema to the requested target schema. It fails if there is none. Otherwise it builds a new JSON object: each input field whose key the morphism's attribute map renames is copied, with its value unchanged, under the renamed key.

Files:

- `wrappers.dfy` (`Wrappers`): `Option` and `Result`.
- `json.dfy` (`Json`): the part of a `serde_json::Value` the engine uses.
  - An object is a sequence of `(key, value)` fields in iteration order. Anything else is `NotObject`.
  - Field values are an opaque type parameter `V`.
  - `Get` is the lookup by key that the properties of the result are stated with; the code itself never reads the object it builds. `Insert` is `serde_json::Map::insert`, which overwrites an existing key or adds a new one.
- `category.dfy` (`Category`): `SchemaObject`, `SchemaMorphism`, the first-match lookup `FindDirect`, and the class `SchemaCategory`. The class has a `map` field for the object table and a `seq` field for the morphism list, and its methods update those fields.
- `engine.dfy` (`Engine`): the error type, the specification of `transform_data` (`Project`, `Apply`, `Transform`) with lemmas about it, the class `TransformEngine`, and the scenario in `main` (`Scenario`).
  - `TransformEngine.TransformData` has the source's `for` loop of `insert` calls. The loop invariant is that the fields built so far are the projection of the input fields visited so far.

The code does less than a full schema-migration tool would, and the model does exactly what the code does:

- `add_morphism` does not check that the morphism's endpoints are registered objects.
- `transform_data` does not check that the source and target names are registered objects, so there is no unknown-object error.
- There is no path search and no composition of morphism chains: `find_morphism_chain` always returns `None`, and `transform_data` only looks for a direct morphism.
- No diagnostics are produced, and there is no strict mode.
- `add_object` always replaces an existing entry with the same name.

## Model

| member | source | states |
|---|---|---|
| `Category.FindDirect` | onDemandMigration.rs:79-80 | Finds nothing exactly when no morphism has the requested source and target. Otherwise it returns the lowest position whose morphism has them: every earlier morphism has a different source or target. |
| `Category.FindDirectAppend` | onDemandMigration.rs:79-80 | Appending a morphism does not change a lookup that already succeeded. A lookup that failed before now finds the new morphism exactly when it connects the two names. |
| `Category.SchemaCategory.constructor` | onDemandMigration.rs:40-45 | A new category has an empty object table and an empty morphism list. It satisfies the invariant that every object is filed under its own name. |
| `Category.SchemaCategory.AddObject` | onDemandMigration.rs:47-49 | Afterwards `objects[obj.name] == obj`, whether or not that name was already present (silent replace). Every other name's presence and entry are unchanged, the morphism list is unchanged, and the filed-under-own-name invariant is kept. |
| `Category.SchemaCategory.AddMorphism` | onDemandMigration.rs:51-53 | The morphism list becomes the old list with `m` appended, and the object table is unchanged. The method has no precondition, so `m`'s endpoints need not be registered. |
| `Category.SchemaCategory.FindMorphismChain` | onDemandMigration.rs:56-60 | Returns `None` for every `start` and `end`. As a function it reads the category and does not change it. |
| `Json.Insert` | onDemandMigration.rs:88 | After inserting, `k` maps to `v` and every other key maps to what it did before. The key set grows by `k` only. A map without duplicate keys stays without duplicate keys. |
| `Engine.Project` | onDemandMigration.rs:84-91 | The object built by the loop never holds a key twice. |
| `Engine.ProjectGetNone` | onDemandMigration.rs:86-90 | The output holds nothing under `key` exactly when no input field's key is renamed to `key` by the attribute map. |
| `Engine.ProjectGetSome` | onDemandMigration.rs:86-90 | When the output holds a value under `key`, that value is the unchanged value of the last input field renamed to `key`. Where two input keys map to the same target key, the one visited later overwrites the earlier one. |
| `Engine.ProjectKeys` | onDemandMigration.rs:86-90 | The output keys are exactly the images `attribute_map[k]` of the input keys `k` that the attribute map contains. |
| `Engine.ProjectSkipsUnmapped` | onDemandMigration.rs:87 | An input field whose key is not in the attribute map contributes nothing: deleting it from the input leaves the output the same. |
| `Engine.ProjectInjective` | onDemandMigration.rs:86-90 | Take an input object without duplicate keys and an attribute map that sends different attributes to different attributes. Then each renamed key holds exactly what its source key held in the input. |
| `Engine.Apply` | onDemandMigration.rs:84-92 | Applying a morphism always yields an object without duplicate keys. A non-object input yields the empty object. An object input yields the projection of its fields. |
| `Engine.Transform` | onDemandMigration.rs:79-96 | Fails exactly when no morphism connects `source` to `target`, and the error then carries exactly those two names. Otherwise the result is the application of the lowest-position connecting morphism. |
| `Engine.TransformAfterAddMorphism` | onDemandMigration.rs:79-82 | After a morphism is added, every transformation that already succeeded gives the same result. A transformation that failed now applies the new morphism if that morphism connects the names, and fails as before otherwise. |
| `Engine.TransformEngine.constructor` | onDemandMigration.rs:70-72 | The engine holds the category it was given. |
| `Engine.TransformEngine.TransformData` | onDemandMigration.rs:74-97 | The loop's result equals `Transform` on the category's morphism list, so it has every property proved above. The method has no `modifies` clause, so it changes neither the category nor the input. |
| `Engine.ScenarioProjection` | onDemandMigration.rs:115-129 | In the scenario in `main`, renaming `{id: "abc-123", name: "Alice"}` through `{id→uuid, name→fullName}` gives exactly the keys `uuid` and `fullName`, holding `"abc-123"` and `"Alice"`. |
| `Engine.ScenarioReverseFails` | onDemandMigration.rs:93-96 | With only the `UserV1→UserV2` morphism declared, a `UserV2→UserV1` request fails with `NoDirectMorphism("UserV2", "UserV1")` for any input. |
| `Engine.Scenario` | onDemandMigration.rs:100-137 | The scenario in `main`: building the category with the two user schemas and one morphism, then transforming the sample record, succeeds. Its output is an object without duplicate keys whose keys are exactly `uuid` and `fullName`, holding `"abc-123"` and `"Alice"`. |

## Left out

- JSON representation: `serde_json::Map` keeps its keys sorted, and a new key goes to its sorted place. The model's `Insert` appends a new key at the end instead. Every property above is stated by content (`Get`, `KeysOf`), not by position. An input object's iteration order is whatever order its field sequence has.
- Values are never cloned or inspected. Field values are an opaque type parameter, and non-object values carry no content.
- Error messages: the `anyhow` error and its text are reduced to the single variant `NoDirectMorphism(source, target)`.
- I/O: the `println!` in `main` and the Cargo header comment are not modelled. `main`'s `?` propagation becomes the result that `Scenario` returns.
- `SchemaObject.attributes` is stored but never read by any operation.
- Aliasing: in Rust, `TransformEngine::new` takes ownership of the category, so nothing else can change it afterwards. In the model the engine holds a reference, and others could still call `AddObject` or `AddMorphism` on it. `TransformData` is specified against the morphism list as it is when the call is made.
- Path search, chain composition, diagnostics, strict modes and endpoint validation are not in the code (`find_morphism_chain` is a stub), so they are not in the model.
