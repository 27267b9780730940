/** Relationships and the update whitelist: `getRelationshipClass`,
    `getRelationshipData`, `buildRelationship`, `getRelationshipRemotePath`
    and `filterWhiteList`, as values. */
module Relationships {
  import opened Failures
  import opened PhpValues
  import opened Kinds
  import opened AttributeStore
  import opened PathResolver

  /** `getRelationshipClass($name)`: the class a relationship name maps to. */
  function RelationshipClass(reg: Registry, kind: string, name: string): (r: Result<string>)
    requires kind in reg
    ensures r.Ok? <==> name in reg[kind].relationships
    ensures r.Ok? ==> r.value == reg[kind].relationships[name]
    ensures r.Err? ==> r.error == UndefinedRelationship(name)
  {
    if name !in reg[kind].relationships then Err(UndefinedRelationship(name))
    else Ok(reg[kind].relationships[name])
  }

  /** `getRelationshipData($rawData, $name)`: the slice of the raw data under
      the relationship name; raw data that is not an array, or lacks the key,
      is refused. */
  function RelationshipData(rawData: Value, name: string): (r: Result<Value>)
    ensures r.Ok? <==> rawData.Arr? && name in Keys(rawData.entries)
    ensures r.Ok? ==> Lookup(rawData.entries, name) == Some(r.value)
    ensures r.Err? ==> r.error == InvalidRelationshipData
  {
    if !rawData.Arr? then Err(InvalidRelationshipData)
    else match Lookup(rawData.entries, name)
      case None => Err(InvalidRelationshipData)
      case Some(v) => Ok(v)
  }

  /** The values `foreach` visits, in order. A slice that is not an array is
      not iterated (PHP only warns), so it yields nothing. */
  function Members(data: Value): (vs: seq<Value>)
    ensures data.Arr? ==> |vs| == |data.entries| && forall i :: 0 <= i < |vs| ==> vs[i] == data.entries[i].1
    ensures !data.Arr? ==> vs == []
  {
    if data.Arr? then Values(data.entries) else []
  }

  function Values(es: Entries): (vs: seq<Value>)
    ensures |vs| == |es|
    ensures forall i :: 0 <= i < |es| ==> vs[i] == es[i].1
  {
    if es == [] then [] else [es[0].1] + Values(es[1..])
  }

  /** One `new $className($item)` per item, in order; the first failing
      construction ends the loop. */
  function ConstructAll(reg: Registry, className: string, vs: seq<Value>): (r: Result<seq<Value>>)
    requires className in reg
    ensures r.Ok? ==> |r.value| == |vs|
    ensures r.Ok? ==> forall i :: 0 <= i < |vs| ==> r.value[i].Res? && r.value[i].kind == className
  {
    if vs == [] then Ok([])
    else match Construct(reg, className, vs[0])
      case Err(e) => Err(e)
      case Ok(v) =>
        match ConstructAll(reg, className, vs[1..])
        case Err(e) => Err(e)
        case Ok(rest) => Ok([v] + rest)
  }

  /** `buildRelationship($name, $rawData)`. */
  function BuildRelationship(reg: Registry, kind: string, name: string, rawData: Value): (r: Result<seq<Value>>)
    requires kind in reg
    ensures name !in reg[kind].relationships ==> r == Err(UndefinedRelationship(name))
    ensures r.Ok? ==>
              (name in reg[kind].relationships && reg[kind].relationships[name] in reg &&
               rawData.Arr? && name in Keys(rawData.entries) &&
               forall v :: v in r.value ==> v.Res? && v.kind == reg[kind].relationships[name])
  {
    match RelationshipClass(reg, kind, name)
    case Err(e) => Err(e)
    case Ok(className) =>
      if className !in reg then Err(InvalidClassName(className))
      else match RelationshipData(rawData, name)
        case Err(e) => Err(e)
        case Ok(data) => ConstructAll(reg, className, Members(data))
  }

  /** `getRelationshipRemotePath($name)`: the target class's base path is
      resolved before this resource's own remote path, and appended to it. */
  function RelationshipRemotePath(reg: Registry, kind: string, attrs: Entries, name: string): (r: Result<string>)
    requires kind in reg
    ensures name !in reg[kind].relationships ==> r == Err(UndefinedRelationship(name))
    ensures r.Ok? ==>
              (name in reg[kind].relationships && reg[kind].relationships[name] in reg &&
               RemotePath(reg, kind, attrs).Ok? && BasePath(reg, reg[kind].relationships[name]).Ok? &&
               |r.value| == |RemotePath(reg, kind, attrs).value| + |BasePath(reg, reg[kind].relationships[name]).value| &&
               r.value[..|RemotePath(reg, kind, attrs).value|] == RemotePath(reg, kind, attrs).value &&
               r.value[|RemotePath(reg, kind, attrs).value|..] == BasePath(reg, reg[kind].relationships[name]).value)
  {
    match RelationshipClass(reg, kind, name)
    case Err(e) => Err(e)
    case Ok(className) =>
      if className !in reg then Err(InvalidClassName(className))
      else match BasePath(reg, className)
        case Err(e) => Err(e)
        case Ok(relationshipPath) =>
          match RemotePath(reg, kind, attrs)
          case Err(e) => Err(e)
          case Ok(remote) => Ok(remote + relationshipPath)
  }

  /** `filterWhiteList($data)`: `array_intersect_key` with the flipped
      whitelist keeps the pairs whose key is whitelisted, in their order. */
  function FilterWhiteList(whiteList: seq<string>, data: Entries): (r: Entries)
    ensures forall p :: p in r <==> p in data && p.0 in whiteList
    ensures |r| <= |data|
  {
    if data == [] then []
    else if data[0].0 in whiteList then [data[0]] + FilterWhiteList(whiteList, data[1..])
    else FilterWhiteList(whiteList, data[1..])
  }

  // ---------------------------------------------------------------------
  // buildRelationship

  /** The first construction failure among `vs`, if any. */
  function FirstConstructFailure(reg: Registry, className: string, vs: seq<Value>): Option<Error>
    requires className in reg
  {
    if vs == [] then None
    else match Construct(reg, className, vs[0])
      case Err(e) => Some(e)
      case Ok(_) => FirstConstructFailure(reg, className, vs[1..])
  }

  /** The items are built one by one: the result succeeds exactly when every
      item constructs, and then holds item `i`'s instance at position `i`;
      otherwise it is the first item's failure. */
  lemma {:induction false} ConstructAllItems(reg: Registry, className: string, vs: seq<Value>)
    requires className in reg
    ensures ConstructAll(reg, className, vs).Ok? <==>
            forall i :: 0 <= i < |vs| ==> Construct(reg, className, vs[i]).Ok?
    ensures ConstructAll(reg, className, vs).Ok? ==>
            forall i :: 0 <= i < |vs| ==>
              ConstructAll(reg, className, vs).value[i] == Construct(reg, className, vs[i]).value
    ensures ConstructAll(reg, className, vs).Err? ==>
            FirstConstructFailure(reg, className, vs) == Some(ConstructAll(reg, className, vs).error)
  {
    if vs != [] {
      ConstructAllItems(reg, className, vs[1..]);
      assert forall i :: 1 <= i < |vs| ==> vs[1..][i - 1] == vs[i];
    }
  }

  /** buildRelationship checks in a fixed order: an unknown relationship
      name first, whatever the raw data; then an unregistered target class;
      then raw data that is not an array or lacks the key. */
  lemma BuildRelationshipErrorOrder(reg: Registry, kind: string, name: string, rawData: Value)
    requires kind in reg
    ensures name !in reg[kind].relationships ==>
              BuildRelationship(reg, kind, name, rawData) == Err(UndefinedRelationship(name))
    ensures name in reg[kind].relationships && reg[kind].relationships[name] !in reg ==>
              BuildRelationship(reg, kind, name, rawData) == Err(InvalidClassName(reg[kind].relationships[name]))
    ensures name in reg[kind].relationships && reg[kind].relationships[name] in reg &&
            (!rawData.Arr? || name !in Keys(rawData.entries)) ==>
              BuildRelationship(reg, kind, name, rawData) == Err(InvalidRelationshipData)
  {
  }

  /** On valid raw data the result has one instance of the target class per
      item of the slice, built from that item, in the slice's order. */
  lemma BuildRelationshipItems(reg: Registry, kind: string, name: string, items: Entries, rawData: Value)
    requires kind in reg && name in reg[kind].relationships && reg[kind].relationships[name] in reg
    requires rawData.Arr? && Lookup(rawData.entries, name) == Some(Arr(items))
    ensures var className := reg[kind].relationships[name];
            var r := BuildRelationship(reg, kind, name, rawData);
            (r.Ok? <==> forall i :: 0 <= i < |items| ==> Construct(reg, className, items[i].1).Ok?) &&
            (r.Ok? ==> |r.value| == |items| &&
                       forall i :: 0 <= i < |items| ==> r.value[i] == Construct(reg, className, items[i].1).value) &&
            (r.Err? ==> Some(r.error) == FirstConstructFailure(reg, className, Members(Arr(items))))
  {
    ConstructAllItems(reg, reg[kind].relationships[name], Members(Arr(items)));
  }

  /** An empty list under the relationship name gives no instances. */
  lemma BuildRelationshipEmpty(reg: Registry, kind: string, name: string, rawData: Value)
    requires kind in reg && name in reg[kind].relationships && reg[kind].relationships[name] in reg
    requires rawData.Arr? && Lookup(rawData.entries, name) == Some(Arr([]))
    ensures BuildRelationship(reg, kind, name, rawData) == Ok([])
  {
  }

  /** A list of scalars is refused by the items' own constructors: each item
      must itself be an array. */
  lemma BuildRelationshipScalarItem(reg: Registry, kind: string, name: string, rawData: Value, key: string, s: string)
    requires kind in reg && name in reg[kind].relationships && reg[kind].relationships[name] in reg
    requires rawData.Arr? && Lookup(rawData.entries, name) == Some(Arr([(key, Str(s))]))
    ensures BuildRelationship(reg, kind, name, rawData) == Err(MalformedData)
  {
  }

  // ---------------------------------------------------------------------
  // getRelationshipRemotePath

  /** The relationship's remote path is this resource's remote path
      followed by the target class's base path; an unknown name fails as
      undefined, and a failing target base path is reported before a failing
      own path. */
  lemma RelationshipRemotePathShape(reg: Registry, kind: string, attrs: Entries, name: string)
    requires kind in reg
    ensures name !in reg[kind].relationships ==>
              RelationshipRemotePath(reg, kind, attrs, name) == Err(UndefinedRelationship(name))
    ensures var r := RelationshipRemotePath(reg, kind, attrs, name);
            r.Ok? ==> name in reg[kind].relationships && reg[kind].relationships[name] in reg &&
                      RemotePath(reg, kind, attrs).Ok? &&
                      BasePath(reg, reg[kind].relationships[name]).Ok? &&
                      r.value == RemotePath(reg, kind, attrs).value + BasePath(reg, reg[kind].relationships[name]).value
    ensures name in reg[kind].relationships && reg[kind].relationships[name] in reg &&
            BasePath(reg, reg[kind].relationships[name]).Err? ==>
              RelationshipRemotePath(reg, kind, attrs, name) == Err(InvalidPath(reg[kind].relationships[name]))
  {
  }

  // ---------------------------------------------------------------------
  // filterWhiteList

  /** Looking a key up in the filtered data finds the original value when
      the key is whitelisted, and nothing otherwise. */
  lemma {:induction false} FilterWhiteListLookup(whiteList: seq<string>, data: Entries, k: string)
    ensures Lookup(FilterWhiteList(whiteList, data), k) ==
            if k in whiteList then Lookup(data, k) else None
  {
    if data != [] {
      FilterWhiteListLookup(whiteList, data[1..], k);
    }
  }

  /** The filter keeps the relative order: it distributes over concatenation. */
  lemma {:induction false} FilterWhiteListAppend(whiteList: seq<string>, a: Entries, b: Entries)
    ensures FilterWhiteList(whiteList, a + b) == FilterWhiteList(whiteList, a) + FilterWhiteList(whiteList, b)
  {
    if a == [] {
      assert a + b == b;
    } else {
      assert (a + b)[1..] == a[1..] + b;
      FilterWhiteListAppend(whiteList, a[1..], b);
    }
  }

  /** Filtering twice is filtering once. */
  lemma {:induction false} FilterWhiteListIdempotent(whiteList: seq<string>, data: Entries)
    ensures FilterWhiteList(whiteList, FilterWhiteList(whiteList, data)) == FilterWhiteList(whiteList, data)
  {
    if data != [] {
      FilterWhiteListIdempotent(whiteList, data[1..]);
    }
  }

  /** An empty whitelist lets nothing through. */
  lemma {:induction false} FilterWhiteListEmpty(data: Entries)
    ensures FilterWhiteList([], data) == []
  {
    if data != [] {
      FilterWhiteListEmpty(data[1..]);
    }
  }
}
