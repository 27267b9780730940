/** The Resource engine as the PHP class runs it: an object whose
    attributes `fill` and `__set` update in place, and whose `toArray`,
    `getResourcePath` and `buildRelationship` build their results in loops.
    Each method is proved to compute the value-level function of the same
    name, whose properties the other modules prove. */
module Resources {
  import opened Failures
  import opened PhpValues
  import opened PhpStrings
  import opened Kinds
  import opened AttributeStore
  import opened PathResolver
  import Relationships

  /** An instance of the resource kind `kind`. The kind's configuration
      (paths, whitelist, relationship and cast maps) is read from `registry`. */
  class Resource {
    const registry: Registry
    const kind: string
    /** `protected $attributes`, an ordered map. */
    var attributes: Entries

    ghost predicate Valid()
      reads this
    {
      kind in registry && DistinctKeys(attributes)
    }

    /** The instance as a value: what a parent resource stores for it. */
    function Snapshot(): (v: Value)
      reads this
      ensures v.Res? && v.kind == kind && v.attributes == attributes
    {
      Res(kind, attributes)
    }

    /** `new Kind()`: the constructor filling the default empty array. */
    constructor (registry: Registry, kind: string)
      requires kind in registry
      ensures Valid()
      ensures this.registry == registry && this.kind == kind && attributes == []
    {
      this.registry := registry;
      this.kind := kind;
      attributes := [];
    }

    /** `new $className($data)`: a new instance filled with `data`, or the
        exception its `fill` raised. */
    static method Create(registry: Registry, kind: string, data: Value) returns (r: Result<Resource>)
      requires kind in registry
      ensures r.Ok? <==> Construct(registry, kind, data).Ok?
      ensures r.Err? ==> r.error == Construct(registry, kind, data).error
      ensures r.Ok? ==> fresh(r.value) && r.value.Valid()
      ensures r.Ok? ==> r.value.registry == registry && r.value.kind == kind
      ensures r.Ok? ==> r.value.Snapshot() == Construct(registry, kind, data).value
      decreases Size(data), 1
    {
      var resource := new Resource(registry, kind);
      var failure := resource.Fill(data);
      if failure.Some? {
        return Err(failure.value);
      }
      return Ok(resource);
    }

    /** `hasToCast($name)`: whether `__set` builds an instance for `name`
        instead of storing the value as given. */
    predicate HasToCast(name: string)
      requires kind in registry
      ensures !HasToCast(name) ==> forall v :: Coerce(registry, kind, name, v) == Ok(v)
      ensures HasToCast(name) ==>
                forall v :: Coerce(registry, kind, name, v).Ok? ==>
                  v.Arr? && Coerce(registry, kind, name, v).value.Res?
    {
      name in registry[kind].cast
    }

    /** `fill($data)`: refuses a non-array, otherwise assigns every pair in
        order through `__set`; an exception stops the loop and leaves the
        assignments already made in place. */
    method Fill(data: Value) returns (failure: Option<Error>)
      requires Valid()
      modifies this
      ensures Valid()
      ensures !data.Arr? ==> failure == Some(MalformedData) && attributes == old(attributes)
      ensures data.Arr? ==> Filled(attributes, failure) == FillEntries(registry, kind, old(attributes), data.entries)
      decreases Size(data), 0
    {
      if !data.Arr? {
        return Some(MalformedData);
      }
      var es := data.entries;
      var i := 0;
      while i < |es|
        invariant 0 <= i <= |es|
        invariant Valid()
        invariant FillEntries(registry, kind, attributes, es[i..]) == FillEntries(registry, kind, old(attributes), es)
      {
        assert es[i..][1..] == es[i + 1..];
        SizeOfMember(es, i);
        failure := Set(es[i].0, es[i].1);
        if failure.Some? {
          return;
        }
        i := i + 1;
      }
      assert es[i..] == [];
      return None;
    }

    /** `__set($name, $value)`: a cast attribute stores a new instance of the
        mapped class built from the value (an unregistered class is
        refused); any other attribute stores the value. */
    method Set(name: string, value: Value) returns (failure: Option<Error>)
      requires Valid()
      modifies this
      ensures Valid()
      ensures Assign(registry, kind, old(attributes), name, value).Ok? ==>
                failure.None? && attributes == Assign(registry, kind, old(attributes), name, value).value
      ensures Assign(registry, kind, old(attributes), name, value).Err? ==>
                failure == Some(Assign(registry, kind, old(attributes), name, value).error) &&
                attributes == old(attributes)
      decreases Size(value), 2
    {
      if HasToCast(name) {
        var className := registry[kind].cast[name];
        if className !in registry {
          assert Coerce(registry, kind, name, value) == Err(InvalidClassName(className));
          return Some(InvalidClassName(className));
        }
        var nested := Create(registry, className, value);
        assert Coerce(registry, kind, name, value) == Construct(registry, className, value);
        if nested.Err? {
          return Some(nested.error);
        }
        attributes := Put(attributes, name, nested.value.Snapshot());
      } else {
        assert Coerce(registry, kind, name, value) == Ok(value);
        attributes := Put(attributes, name, value);
      }
      return None;
    }

    /** `__get($name)`: the stored value, or null for a name never set. */
    function Get(name: string): (v: Value)
      reads this
      ensures Lookup(attributes, name).None? ==> v == Null
      ensures Lookup(attributes, name).Some? ==> v == Lookup(attributes, name).value
    {
      match Lookup(attributes, name)
      case Some(v) => v
      case None => Null
    }

    /** `toArray()`: a new array with every attribute in order, a cast one
        through its own `toArray()`. */
    method ToArray() returns (r: Entries)
      requires Valid()
      ensures r == Serialize(registry, kind, attributes)
    {
      r := [];
      var i := 0;
      while i < |attributes|
        invariant 0 <= i <= |attributes|
        invariant r == Serialize(registry, kind, attributes[..i])
      {
        var key := attributes[i].0;
        var value := attributes[i].1;
        ToArrayStep(registry, kind, attributes, i, r);
        if key in registry[kind].cast {
          r := Put(r, key, Unwrap(registry, value));
        } else {
          r := Put(r, key, value);
        }
        i := i + 1;
      }
      assert attributes[..i] == attributes;
    }

    /** `getResourcePath()`: the instance path checked against `^/\S+$`, then
        each placeholder match in turn checked and replaced. */
    method GetResourcePath() returns (r: Result<string>)
      requires Valid() && registry[kind].path.Some?
      ensures r == ResourcePath(kind, registry[kind].path.value, attributes)
    {
      var path := registry[kind].path.value;
      if !MatchesPathPattern(path) {
        return Err(InvalidPath(kind));
      }
      var remotePath := path;
      var parts := Placeholders(path);
      var i := 0;
      while i < |parts|
        invariant 0 <= i <= |parts|
        invariant Substitute(kind, attributes, parts[i..], remotePath) == Substitute(kind, attributes, parts, path)
      {
        assert parts[i..][1..] == parts[i + 1..];
        var attributeName := parts[i].name;
        var value := Get(attributeName);
        if value == Null {
          return Err(UndefinedAttribute(kind, attributeName));
        }
        var text := ToPhpString(value);
        if text.None? {
          return Err(NotStringable(kind, attributeName));
        }
        remotePath := StrReplace(parts[i].token, UrlEncode(text.value), remotePath);
        i := i + 1;
      }
      return Ok(remotePath);
    }

    /** `getRemotePath()`. */
    method GetRemotePath() returns (r: Result<string>)
      requires Valid()
      ensures r == RemotePath(registry, kind, attributes)
    {
      var basePath := BasePath(registry, kind);
      if basePath.Err? {
        return basePath;
      }
      if registry[kind].path.None? {
        return basePath;
      }
      var resourcePath := GetResourcePath();
      if resourcePath.Err? {
        return resourcePath;
      }
      return Ok(basePath.value + resourcePath.value);
    }

    /** `getRelationshipRemotePath($name)`. */
    method GetRelationshipRemotePath(name: string) returns (r: Result<string>)
      requires Valid()
      ensures r == Relationships.RelationshipRemotePath(registry, kind, attributes, name)
    {
      var className := Relationships.RelationshipClass(registry, kind, name);
      if className.Err? {
        return Err(className.error);
      }
      if className.value !in registry {
        return Err(InvalidClassName(className.value));
      }
      var relationshipPath := BasePath(registry, className.value);
      if relationshipPath.Err? {
        return relationshipPath;
      }
      var remotePath := GetRemotePath();
      if remotePath.Err? {
        return remotePath;
      }
      return Ok(remotePath.value + relationshipPath.value);
    }

    /** `buildRelationship($name, $rawData)`: one new instance of the target
        class per item of the slice, in order. */
    method BuildRelationship(name: string, rawData: Value) returns (r: Result<seq<Resource>>)
      requires Valid()
      ensures r.Err? ==> Relationships.BuildRelationship(registry, kind, name, rawData) == Err(r.error)
      ensures r.Ok? ==> Relationships.BuildRelationship(registry, kind, name, rawData) == Ok(Snapshots(r.value))
      ensures r.Ok? ==> forall i :: 0 <= i < |r.value| ==> fresh(r.value[i]) && r.value[i].Valid()
    {
      var className := Relationships.RelationshipClass(registry, kind, name);
      if className.Err? {
        return Err(className.error);
      }
      var target := className.value;
      if target !in registry {
        return Err(InvalidClassName(target));
      }
      var data := Relationships.RelationshipData(rawData, name);
      if data.Err? {
        return Err(data.error);
      }
      var items := Relationships.Members(data.value);
      assert Relationships.BuildRelationship(registry, kind, name, rawData) ==
             Relationships.ConstructAll(registry, target, items);
      var relationship: seq<Resource> := [];
      ghost var built: seq<Value> := [];
      var i := 0;
      assert items[i..] == items;
      assert Glue([], Relationships.ConstructAll(registry, target, items)) ==
             Relationships.ConstructAll(registry, target, items) by {
        if Relationships.ConstructAll(registry, target, items).Ok? {
          assert [] + Relationships.ConstructAll(registry, target, items).value ==
                 Relationships.ConstructAll(registry, target, items).value;
        }
      }
      while i < |items|
        invariant 0 <= i <= |items| && |built| == |relationship|
        invariant Glue(built, Relationships.ConstructAll(registry, target, items[i..])) ==
                  Relationships.ConstructAll(registry, target, items)
        invariant forall j :: 0 <= j < |relationship| ==>
                    fresh(relationship[j]) && relationship[j].Valid() && relationship[j].Snapshot() == built[j]
      {
        var item := Create(registry, target, items[i]);
        ConstructAllStep(registry, target, items, i);
        if item.Err? {
          return Err(item.error);
        }
        GlueStep(built, item.value.Snapshot(), Relationships.ConstructAll(registry, target, items[i + 1..]));
        built := built + [item.value.Snapshot()];
        relationship := relationship + [item.value];
        i := i + 1;
      }
      assert items[i..] == [];
      assert built + [] == built;
      SnapshotsOf(relationship, built);
      return Ok(relationship);
    }
  }

  /** The values of the instances `rs`, in order. */
  function Snapshots(rs: seq<Resource>): (vs: seq<Value>)
    reads set r | r in rs
    ensures |vs| == |rs|
  {
    if rs == [] then [] else [rs[0].Snapshot()] + Snapshots(rs[1..])
  }

  lemma {:induction false} SnapshotsAppend(rs: seq<Resource>, r: Resource)
    ensures Snapshots(rs + [r]) == Snapshots(rs) + [r.Snapshot()]
  {
    if rs == [] {
      assert rs + [r] == [r];
    } else {
      assert (rs + [r])[1..] == rs[1..] + [r];
      SnapshotsAppend(rs[1..], r);
    }
  }

  /** Instances whose values are `vs`, one by one, have the values `vs`. */
  lemma {:induction false} SnapshotsOf(rs: seq<Resource>, vs: seq<Value>)
    requires |rs| == |vs| && forall j :: 0 <= j < |rs| ==> rs[j].Snapshot() == vs[j]
    ensures Snapshots(rs) == vs
  {
    if rs != [] {
      SnapshotsOf(rs[1..], vs[1..]);
      assert vs == [vs[0]] + vs[1..];
    }
  }

  /** Building the items from position `i` on: item `i` first, then the rest. */
  lemma ConstructAllStep(reg: Registry, className: string, items: seq<Value>, i: nat)
    requires className in reg && i < |items|
    ensures Construct(reg, className, items[i]).Err? ==>
              Relationships.ConstructAll(reg, className, items[i..]) == Err(Construct(reg, className, items[i]).error)
    ensures Construct(reg, className, items[i]).Ok? ==>
              Relationships.ConstructAll(reg, className, items[i..]) ==
              Glue([Construct(reg, className, items[i]).value], Relationships.ConstructAll(reg, className, items[i + 1..]))
  {
    assert items[i..][0] == items[i] && items[i..][1..] == items[i + 1..];
  }

  /** The instances built so far in front of the outcome of the rest. */
  function Glue(prefix: seq<Value>, rest: Result<seq<Value>>): Result<seq<Value>>
  {
    match rest
    case Ok(vs) => Ok(prefix + vs)
    case Err(e) => Err(e)
  }

  lemma GlueStep(prefix: seq<Value>, v: Value, rest: Result<seq<Value>>)
    ensures Glue(prefix, Glue([v], rest)) == Glue(prefix + [v], rest)
  {
    if rest.Ok? {
      AppendAssoc(prefix, [v], rest.value);
    }
  }

  /** One pass of toArray's loop appends the next serialised attribute. */
  lemma ToArrayStep(reg: Registry, kind: string, attrs: Entries, i: nat, r: Entries)
    requires kind in reg && DistinctKeys(attrs) && i < |attrs|
    requires r == Serialize(reg, kind, attrs[..i])
    ensures var (key, value) := attrs[i];
            Serialize(reg, kind, attrs[..i + 1]) ==
            Put(r, key, if key in reg[kind].cast then Unwrap(reg, value) else value)
  {
    var (key, value) := attrs[i];
    var v := if key in reg[kind].cast then Unwrap(reg, value) else value;
    FreshAttribute(attrs, i);
    assert Keys(r) == Keys(attrs[..i]);
    assert Put(r, key, v) == r + [(key, v)];
    SerializeOne(reg, kind, attrs[i]);
    SerializeAppend(reg, kind, attrs[..i], [attrs[i]]);
    assert attrs[..i + 1] == attrs[..i] + [attrs[i]];
  }

  /** With distinct keys, the key at `i` is not among the keys before it. */
  lemma FreshAttribute(attrs: Entries, i: nat)
    requires DistinctKeys(attrs) && i < |attrs|
    ensures attrs[i].0 !in Keys(attrs[..i])
  {
    var ks := Keys(attrs[..i]);
    forall j | 0 <= j < |ks| ensures ks[j] != attrs[i].0 {
      assert ks[j] == attrs[j].0;
    }
  }

  /** toArray of a single attribute. */
  lemma SerializeOne(reg: Registry, kind: string, e: (string, Value))
    requires kind in reg
    ensures Serialize(reg, kind, [e]) ==
            [(e.0, if e.0 in reg[kind].cast then Unwrap(reg, e.1) else e.1)]
  {
    assert [e][1..] == [];
  }

  /** toArray distributes over the attributes. */
  lemma SerializeAppend(reg: Registry, kind: string, a: Entries, b: Entries)
    ensures Serialize(reg, kind, a + b) == Serialize(reg, kind, a) + Serialize(reg, kind, b)
  {
    var l, r := Serialize(reg, kind, a + b), Serialize(reg, kind, a) + Serialize(reg, kind, b);
    assert |l| == |a + b| == |r| by {
      assert |Keys(l)| == |Keys(a + b)|;
    }
    forall i | 0 <= i < |l| ensures l[i] == r[i] {
      SerializeAt(reg, kind, a + b, i);
      if i < |a| {
        SerializeAt(reg, kind, a, i);
      } else {
        SerializeAt(reg, kind, b, i - |a|);
      }
    }
  }

  /** The attribute toArray puts at position `i`. */
  function Exported(reg: Registry, kind: string, e: (string, Value)): (string, Value)
  {
    (e.0, if e.0 in CastOf(reg, kind) then Unwrap(reg, e.1) else e.1)
  }

  /** toArray works attribute by attribute. */
  lemma {:induction false} SerializeAt(reg: Registry, kind: string, attrs: Entries, i: nat)
    requires i < |attrs|
    ensures |Serialize(reg, kind, attrs)| == |attrs|
    ensures Serialize(reg, kind, attrs)[i] == Exported(reg, kind, attrs[i])
  {
    assert |Keys(Serialize(reg, kind, attrs))| == |Keys(attrs)|;
    if i > 0 {
      SerializeAt(reg, kind, attrs[1..], i - 1);
    }
  }
}
