/** `SchemaStore`: the content type schemas known to the client, looked up by name with
    inheritance resolved. A schema found by name gets its parent type's resolved field
    settings appended to its own; a name with no schema falls back to the schema of
    `GenericContent`. Resolved schemas are cached by name until the schema list is
    replaced.

    The source's lookup recurses through parent types and the fallback, and returns
    only when that chain ends. With a cycle (a type that is its own ancestor), or an
    unknown name and no `GenericContent`, it recurses until the call stack overflows and
    throws a `RangeError`; the model excludes those calls. It does so with `fuel`:
    `Lookup(schemas, name, fuel)` is the lookup with at most `fuel` nested calls, and
    the store's methods take, as a ghost argument, a fuel within which the lookup
    finishes, which exists exactly when the source's call returns. */
module Schemas {

  datatype Option<T> = None | Some(value: T)

  /** One field of a content type. */
  datatype FieldSetting = FieldSetting(Name: string, Type: string)

  /** A content type schema; `ParentTypeName` is absent (`undefined`) for a root type. */
  datatype Schema = Schema(
    ContentTypeName: string,
    ParentTypeName: Option<string>,
    FieldSettings: seq<FieldSetting>,
    DisplayName: string)

  /** The name of the fallback type, the constructor name of `GenericContent`. */
  const GenericContentName: string := "GenericContent"

  /** The `schema.ParentTypeName && ...` test: a parent is followed when the name is
      present and not empty. */
  predicate HasParent(s: Schema)
  {
    s.ParentTypeName.Some? && s.ParentTypeName.value != ""
  }

  /** `schemas.find(s => s.ContentTypeName === name)`: the index of the first schema
      with that name, if any. */
  function FindIndex(schemas: seq<Schema>, name: string): (r: Option<nat>)
    ensures r.Some? ==> r.value < |schemas| && schemas[r.value].ContentTypeName == name
    ensures r.Some? ==> forall j :: 0 <= j < r.value ==> schemas[j].ContentTypeName != name
    ensures r.None? ==> forall j :: 0 <= j < |schemas| ==> schemas[j].ContentTypeName != name
  {
    if schemas == [] then None
    else if schemas[0].ContentTypeName == name then Some(0)
    else
      match FindIndex(schemas[1..], name)
      case None => None
      case Some(i) => Some(i + 1)
  }

  function FirstMatch(schemas: seq<Schema>, name: string): Option<Schema>
  {
    match FindIndex(schemas, name)
    case None => None
    case Some(i) => Some(schemas[i])
  }

  /** `GetSchemaByName` with at most `fuel` nested calls; `None` when the chain of
      parents and fallbacks is longer, or endless. */
  function Lookup(schemas: seq<Schema>, name: string, fuel: nat): Option<Schema>
    decreases fuel
  {
    if fuel == 0 then None
    else
      match FirstMatch(schemas, name)
      case None => Lookup(schemas, GenericContentName, fuel - 1)
      case Some(s) =>
        if !HasParent(s) then Some(s)
        else
          match Lookup(schemas, s.ParentTypeName.value, fuel - 1)
          case None => None
          case Some(p) => Some(s.(FieldSettings := s.FieldSettings + p.FieldSettings))
  }

  /** More fuel does not change a lookup that finishes: whatever fuel is used, a
      finished lookup gives the same schema. */
  lemma {:induction false} LookupFuelMono(schemas: seq<Schema>, name: string, f1: nat, f2: nat)
    requires f1 <= f2 && Lookup(schemas, name, f1).Some?
    ensures Lookup(schemas, name, f2) == Lookup(schemas, name, f1)
    decreases f1
  {
    match FirstMatch(schemas, name)
    case None =>
      LookupFuelMono(schemas, GenericContentName, f1 - 1, f2 - 1);
    case Some(s) =>
      if HasParent(s) {
        LookupFuelMono(schemas, s.ParentTypeName.value, f1 - 1, f2 - 1);
      }
  }

  lemma LookupUnique(schemas: seq<Schema>, name: string, f1: nat, f2: nat)
    requires Lookup(schemas, name, f1).Some? && Lookup(schemas, name, f2).Some?
    ensures Lookup(schemas, name, f1) == Lookup(schemas, name, f2)
  {
    if f1 <= f2 {
      LookupFuelMono(schemas, name, f1, f2);
    } else {
      LookupFuelMono(schemas, name, f2, f1);
    }
  }

  /** Every cached schema is the resolved schema of a name the list holds, within the
      fuel recorded for it. */
  ghost predicate CacheSound(schemas: seq<Schema>, cache: map<string, Schema>, fuelOf: map<string, nat>)
  {
    forall k :: k in cache ==>
      && k in fuelOf
      && FindIndex(schemas, k).Some?
      && Lookup(schemas, k, fuelOf[k]) == Some(cache[k])
  }

  /** Caching the resolved schema of a name the list holds keeps the cache sound. */
  lemma CacheInsert(schemas: seq<Schema>, cache: map<string, Schema>, fuelOf: map<string, nat>,
                    name: string, s: Schema, fuel: nat)
    requires CacheSound(schemas, cache, fuelOf)
    requires FindIndex(schemas, name).Some? && Lookup(schemas, name, fuel) == Some(s)
    ensures CacheSound(schemas, cache[name := s], fuelOf[name := fuel])
  {
  }

  /** The store. `cache` is `byNameSchemaCache` (an absent map behaves as an empty one);
      `fuelOf` records, for each cached name, a fuel its lookup finished within. */
  class SchemaStore {
    var schemas: seq<Schema>
    var cache: map<string, Schema>
    ghost var fuelOf: map<string, nat>

    /** Every cached schema is the resolved schema of a name the list holds. */
    ghost predicate Valid()
      reads this
    {
      CacheSound(schemas, cache, fuelOf)
    }

    constructor (schemas: seq<Schema>)
      ensures this.schemas == schemas && cache == map[] && Valid()
    {
      this.schemas := schemas;
      cache := map[];
      fuelOf := map[];
    }

    /** `SetSchemas`: replace the list and empty the cache. */
    method SetSchemas(newSchemas: seq<Schema>)
      modifies this
      ensures schemas == newSchemas && cache == map[] && Valid()
    {
      schemas := newSchemas;
      cache := map[];
      fuelOf := map[];
    }

    /** `GetSchema`: the schema of a content type, by its constructor's name. */
    method GetSchema(typeName: string, ghost fuel: nat) returns (schema: Schema)
      requires Valid() && Lookup(schemas, typeName, fuel).Some?
      modifies this
      ensures Valid() && schemas == old(schemas)
      ensures schema == Lookup(schemas, typeName, fuel).value
      ensures forall k :: k in old(cache) ==> k in cache && cache[k] == old(cache)[k]
      ensures FindIndex(schemas, typeName).Some? ==> typeName in cache && cache[typeName] == schema
      ensures FindIndex(schemas, typeName).None? ==> typeName !in cache
      decreases fuel, 2
    {
      schema := GetSchemaByName(typeName, fuel);
    }

    /** `GetSchemaByName`: the cached schema when there is one; otherwise the first
      schema of that name with its parent's resolved fields appended, cached; or, when
      the list has no such schema, the schema of `GenericContent`, not cached under the
      unknown name. The result is the resolved schema whatever the cache holds. */
    method GetSchemaByName(name: string, ghost fuel: nat) returns (schema: Schema)
      requires Valid() && Lookup(schemas, name, fuel).Some?
      modifies this
      ensures Valid() && schemas == old(schemas)
      ensures schema == Lookup(schemas, name, fuel).value
      ensures forall k :: k in old(cache) ==> k in cache && cache[k] == old(cache)[k]
      ensures FindIndex(schemas, name).Some? ==> name in cache && cache[name] == schema
      ensures FindIndex(schemas, name).None? ==> name !in cache
      decreases fuel, 1
    {
      if name in cache {
        LookupUnique(schemas, name, fuelOf[name], fuel);
        // `Object.assign({}, cached)`: a copy with the same contents
        return cache[name];
      }
      var found := FirstMatch(schemas, name);
      if found.None? {
        schema := GetSchema(GenericContentName, fuel - 1);
        return;
      }
      var s := found.value;
      if HasParent(s) {
        var parentSchema := GetSchemaByName(s.ParentTypeName.value, fuel - 1);
        s := s.(FieldSettings := s.FieldSettings + parentSchema.FieldSettings);
      }
      CacheInsert(schemas, cache, fuelOf, name, s, fuel);
      cache := cache[name := s];
      fuelOf := fuelOf[name := fuel];
      schema := s;
    }
  }

  /** The schemas a lookup visits, nearest first: the named one (or `GenericContent`'s
      when the name is unknown), then each ancestor in turn. */
  function Chain(schemas: seq<Schema>, name: string, fuel: nat): seq<Schema>
    decreases fuel
  {
    if fuel == 0 then []
    else
      match FirstMatch(schemas, name)
      case None => Chain(schemas, GenericContentName, fuel - 1)
      case Some(s) => [s] + (if HasParent(s) then Chain(schemas, s.ParentTypeName.value, fuel - 1) else [])
  }

  /** The field settings of every schema of a chain, in chain order. */
  function AllFields(chain: seq<Schema>): seq<FieldSetting>
  {
    if chain == [] then [] else chain[0].FieldSettings + AllFields(chain[1..])
  }

  /** The type a schema's lookup continues with: its parent, or `GenericContent` when
      the list has no schema of the parent's name. */
  function NextType(schemas: seq<Schema>, s: Schema): string
    requires HasParent(s)
  {
    if FindIndex(schemas, s.ParentTypeName.value).Some? then s.ParentTypeName.value else GenericContentName
  }

  predicate AllInList(schemas: seq<Schema>, chain: seq<Schema>)
  {
    forall i :: 0 <= i < |chain| ==> chain[i] in schemas
  }

  /** Each schema but the last has a parent, and the next one is the first schema of
      the list named by its `NextType`, the one `find` returns. */
  predicate Linked(schemas: seq<Schema>, chain: seq<Schema>)
  {
    forall i :: 0 <= i < |chain| - 1 ==>
      HasParent(chain[i]) && FirstMatch(schemas, NextType(schemas, chain[i])) == Some(chain[i + 1])
  }

  /** Each schema of the chain is in the list; the chain starts at the first schema of
      the name, or at the first `GenericContent` when the name is unknown; each later
      schema is the first schema of the parent named by the one before it, or the first
      `GenericContent` when that parent is unknown; the last has no parent. */
  predicate LinkedChain(schemas: seq<Schema>, name: string, chain: seq<Schema>)
  {
    && chain != []
    && AllInList(schemas, chain)
    && chain[0].ContentTypeName == (if FindIndex(schemas, name).Some? then name else GenericContentName)
    && FirstMatch(schemas, if FindIndex(schemas, name).Some? then name else GenericContentName) == Some(chain[0])
    && Linked(schemas, chain)
    && !HasParent(chain[|chain| - 1])
  }

  /** Two linked chains that start at the same schema and end at one without a parent
      are the same chain. */
  lemma {:induction false} LinkedFromSame(schemas: seq<Schema>, c1: seq<Schema>, c2: seq<Schema>)
    requires c1 != [] && c2 != [] && c1[0] == c2[0]
    requires Linked(schemas, c1) && Linked(schemas, c2)
    requires !HasParent(c1[|c1| - 1]) && !HasParent(c2[|c2| - 1])
    ensures c1 == c2
    decreases |c1|
  {
    if HasParent(c1[0]) {
      assert |c1| > 1 && |c2| > 1;
      assert c1[1] == c2[1];
      assert Linked(schemas, c1[1..]) by {
        forall i | 0 <= i < |c1[1..]| - 1
          ensures HasParent(c1[1..][i]) && FirstMatch(schemas, NextType(schemas, c1[1..][i])) == Some(c1[1..][i + 1])
        {
          assert c1[1..][i] == c1[i + 1] && c1[1..][i + 1] == c1[i + 2];
        }
      }
      assert Linked(schemas, c2[1..]) by {
        forall i | 0 <= i < |c2[1..]| - 1
          ensures HasParent(c2[1..][i]) && FirstMatch(schemas, NextType(schemas, c2[1..][i])) == Some(c2[1..][i + 1])
        {
          assert c2[1..][i] == c2[i + 1] && c2[1..][i + 1] == c2[i + 2];
        }
      }
      LinkedFromSame(schemas, c1[1..], c2[1..]);
      assert c1 == [c1[0]] + c1[1..] && c2 == [c2[0]] + c2[1..];
    } else {
      assert |c1| == 1 && |c2| == 1;
    }
  }

  /** The chain of a name is determined by the list: with duplicate names it still
      runs through the first schema of each name, so only one chain exists. */
  lemma LinkedChainUnique(schemas: seq<Schema>, name: string, c1: seq<Schema>, c2: seq<Schema>)
    requires LinkedChain(schemas, name, c1) && LinkedChain(schemas, name, c2)
    ensures c1 == c2
  {
    LinkedFromSame(schemas, c1, c2);
  }

  lemma FirstMatchIn(schemas: seq<Schema>, name: string)
    ensures FirstMatch(schemas, name).Some? <==> FindIndex(schemas, name).Some?
    ensures FirstMatch(schemas, name).Some? ==>
      FirstMatch(schemas, name).value in schemas && FirstMatch(schemas, name).value.ContentTypeName == name
  {
  }

  /** The schemas a finished lookup visits form a linked chain: the named schema (or
      `GenericContent`'s when the name is unknown), then each ancestor in turn, up to
      one without a parent. */
  lemma {:induction false} LookupFollowsChain(schemas: seq<Schema>, name: string, fuel: nat)
    requires Lookup(schemas, name, fuel).Some?
    ensures LinkedChain(schemas, name, Chain(schemas, name, fuel))
    decreases fuel
  {
    FirstMatchIn(schemas, name);
    var chain := Chain(schemas, name, fuel);
    match FirstMatch(schemas, name)
    case None =>
      LookupFollowsChain(schemas, GenericContentName, fuel - 1);
      FirstMatchIn(schemas, GenericContentName);
    case Some(s) =>
      if HasParent(s) {
        var parent := s.ParentTypeName.value;
        LookupFollowsChain(schemas, parent, fuel - 1);
        FirstMatchIn(schemas, parent);
        ChainCons(schemas, name, s, Chain(schemas, parent, fuel - 1));
      }
  }

  /** Putting the named schema in front of its parent's linked chain gives a linked
      chain. */
  lemma ChainCons(schemas: seq<Schema>, name: string, s: Schema, rest: seq<Schema>)
    requires FindIndex(schemas, name).Some? && FirstMatch(schemas, name) == Some(s) && HasParent(s)
    requires LinkedChain(schemas, s.ParentTypeName.value, rest)
    ensures LinkedChain(schemas, name, [s] + rest)
  {
    FirstMatchIn(schemas, name);
    ConsInList(schemas, s, rest);
    ConsLinked(schemas, s, rest);
    assert ([s] + rest)[|[s] + rest| - 1] == rest[|rest| - 1];
  }

  lemma ConsInList(schemas: seq<Schema>, s: Schema, rest: seq<Schema>)
    requires s in schemas && AllInList(schemas, rest)
    ensures AllInList(schemas, [s] + rest)
  {
    forall i | 0 < i < |[s] + rest|
      ensures ([s] + rest)[i] in schemas
    {
      assert ([s] + rest)[i] == rest[i - 1];
    }
  }

  lemma ConsLinked(schemas: seq<Schema>, s: Schema, rest: seq<Schema>)
    requires HasParent(s) && rest != [] && FirstMatch(schemas, NextType(schemas, s)) == Some(rest[0])
    requires Linked(schemas, rest)
    ensures Linked(schemas, [s] + rest)
  {
    var chain := [s] + rest;
    forall i | 0 < i < |chain| - 1
      ensures HasParent(chain[i]) && FirstMatch(schemas, NextType(schemas, chain[i])) == Some(chain[i + 1])
    {
      assert chain[i] == rest[i - 1] && chain[i + 1] == rest[i];
    }
  }

  /** A finished lookup gives the first schema of its chain with the field settings of
      every schema of the chain, nearest first: its own fields, then each ancestor's.
      Only the field settings differ from the schema in the list. */
  lemma {:induction false} LookupCollectsFields(schemas: seq<Schema>, name: string, fuel: nat)
    requires Lookup(schemas, name, fuel).Some?
    ensures var chain := Chain(schemas, name, fuel);
      chain != [] && Lookup(schemas, name, fuel).value == chain[0].(FieldSettings := AllFields(chain))
    decreases fuel
  {
    match FirstMatch(schemas, name)
    case None =>
      LookupCollectsFields(schemas, GenericContentName, fuel - 1);
    case Some(s) =>
      var chain := Chain(schemas, name, fuel);
      if HasParent(s) {
        var rest := Chain(schemas, s.ParentTypeName.value, fuel - 1);
        LookupCollectsFields(schemas, s.ParentTypeName.value, fuel - 1);
        assert chain == [s] + rest;
        assert chain[1..] == rest;
      } else {
        assert chain == [s];
        assert AllFields(chain) == s.FieldSettings + AllFields([]);
      }
  }

  /** A type that names itself as its parent never resolves: the source recurses
      until the call stack overflows. */
  lemma {:induction false} SelfParentDiverges(schemas: seq<Schema>, name: string, fuel: nat)
    requires FirstMatch(schemas, name).Some?
    requires HasParent(FirstMatch(schemas, name).value)
    requires FirstMatch(schemas, name).value.ParentTypeName.value == name
    ensures Lookup(schemas, name, fuel).None?
    decreases fuel
  {
    if fuel > 0 {
      SelfParentDiverges(schemas, name, fuel - 1);
    }
  }

  /** Without a `GenericContent` schema an unknown name never resolves: the fallback
      calls itself until the call stack overflows. */
  lemma {:induction false} UnknownWithoutGenericContentDiverges(schemas: seq<Schema>, name: string, fuel: nat)
    requires FindIndex(schemas, name).None? && FindIndex(schemas, GenericContentName).None?
    ensures Lookup(schemas, name, fuel).None?
    decreases fuel
  {
    if fuel > 0 {
      UnknownWithoutGenericContentDiverges(schemas, GenericContentName, fuel - 1);
    }
  }

  /** An unknown name resolves exactly when `GenericContent` does, to the same schema. */
  lemma UnknownFallsBack(schemas: seq<Schema>, name: string, fuel: nat)
    requires FindIndex(schemas, name).None?
    ensures Lookup(schemas, name, fuel + 1) == Lookup(schemas, GenericContentName, fuel)
    ensures Lookup(schemas, name, fuel + 1).Some? ==>
      Lookup(schemas, name, fuel + 1).value.ContentTypeName == GenericContentName
  {
    if Lookup(schemas, GenericContentName, fuel).Some? {
      LookupFollowsChain(schemas, GenericContentName, fuel);
      LookupCollectsFields(schemas, GenericContentName, fuel);
      FirstMatchIn(schemas, GenericContentName);
    }
  }
}
