/** The attribute store of a resource, as values: what `__set` stores, what
    `fill` does to the attributes, what `new Kind($data)` builds and what
    `toArray` returns. The class Resources.Resource performs the same steps in
    place and is proved equal to these functions. */
module AttributeStore {
  import opened Failures
  import opened PhpValues
  import opened Kinds

  /** The attributes after `fill`, and the exception that stopped it, if
      any. The assignments made before the failing one stay in place. */
  datatype Filled = Filled(attributes: Entries, failure: Option<Error>)

  /** The exceptions `new Kind($data)` can raise: malformed data from a
      `fill`, or a cast class that does not exist. */
  predicate ConstructionError(e: Error)
  {
    e.MalformedData? || e.InvalidClassName?
  }

  /** The value `__set($name, $value)` stores under `name`: the value itself,
      or, when `name` is in the cast map (hasToCast), a new instance of the
      mapped class built from the value. */
  function Coerce(reg: Registry, kind: string, name: string, value: Value): (r: Result<Value>)
    requires kind in reg
    decreases Size(value), 2
    ensures name !in reg[kind].cast ==> r == Ok(value)
    ensures r.Err? ==> name in reg[kind].cast && ConstructionError(r.error)
    ensures r.Ok? && name in reg[kind].cast ==>
              reg[kind].cast[name] in reg && value.Arr? &&
              r.value.Res? && r.value.kind == reg[kind].cast[name]
  {
    if name in reg[kind].cast then
      var className := reg[kind].cast[name];
      if className !in reg then Err(InvalidClassName(className))
      else Construct(reg, className, value)
    else Ok(value)
  }

  /** `__set($name, $value)` on attributes `attrs`. */
  function Assign(reg: Registry, kind: string, attrs: Entries, name: string, value: Value): (r: Result<Entries>)
    requires kind in reg
    decreases Size(value), 3
    ensures r.Ok? <==> Coerce(reg, kind, name, value).Ok?
    ensures r.Ok? ==> Lookup(r.value, name) == Some(Coerce(reg, kind, name, value).value)
    ensures r.Ok? ==> forall k :: k != name ==> Lookup(r.value, k) == Lookup(attrs, k)
    ensures r.Ok? && DistinctKeys(attrs) ==> DistinctKeys(r.value)
  {
    match Coerce(reg, kind, name, value)
    case Ok(v) =>
      PutLookup(attrs, name, v);
      if DistinctKeys(attrs) then PutKeepsDistinct(attrs, name, v); Ok(Put(attrs, name, v))
      else Ok(Put(attrs, name, v))
    case Err(e) => Err(e)
  }

  /** The `foreach` of `fill`: assign each pair in order, stopping at the
      first exception. */
  function FillEntries(reg: Registry, kind: string, attrs: Entries, es: Entries): (f: Filled)
    requires kind in reg
    decreases SizeEntries(es), 4
    ensures DistinctKeys(attrs) ==> DistinctKeys(f.attributes)
    ensures f.failure.Some? ==> ConstructionError(f.failure.value)
  {
    if es == [] then Filled(attrs, None)
    else
      SizeEntriesUnfold(es);
      match Assign(reg, kind, attrs, es[0].0, es[0].1)
      case Err(e) => Filled(attrs, Some(e))
      case Ok(next) => FillEntries(reg, kind, next, es[1..])
  }

  /** `new Kind($data)`: an empty instance filled with `data`; `fill`
      refuses anything that is not an array. */
  function Construct(reg: Registry, kind: string, data: Value): (r: Result<Value>)
    requires kind in reg
    decreases Size(data), 1
    ensures r.Ok? ==> data.Arr? && r.value.Res? && r.value.kind == kind
    ensures r.Err? ==> ConstructionError(r.error)
  {
    if !data.Arr? then Err(MalformedData)
    else
      SizeOfContainer(data);
      var f := FillEntries(reg, kind, [], data.entries);
      if f.failure.Some? then Err(f.failure.value) else Ok(Res(kind, f.attributes))
  }

  /** `$value->toArray()` for a stored instance; any other value is kept. */
  function Unwrap(reg: Registry, v: Value): (u: Value)
    decreases Size(v), 0
    ensures !v.Res? ==> u == v
    ensures v.Res? ==> u.Arr?
  {
    SizeOfContainer(v);
    match v
    case Res(k, attrs) => Arr(Serialize(reg, k, attrs))
    case _ => v
  }

  /** `toArray()` of an instance of `kind` holding `attrs`: each attribute in
      order, a cast one through its own `toArray()`. */
  function Serialize(reg: Registry, kind: string, attrs: Entries): (r: Entries)
    decreases SizeEntries(attrs), 1
    ensures Keys(r) == Keys(attrs)
  {
    if attrs == [] then []
    else
      SizeEntriesUnfold(attrs);
      var key := attrs[0].0;
      var value := attrs[0].1;
      [(key, if key in CastOf(reg, kind) then Unwrap(reg, value) else value)] + Serialize(reg, kind, attrs[1..])
  }

  // ---------------------------------------------------------------------
  // A reference reading of fill on distinct keys: coerce every value.

  /** Every pair with its value coerced, or the first exception. */
  function CoerceEntries(reg: Registry, kind: string, es: Entries): (r: Result<Entries>)
    requires kind in reg
    ensures r.Ok? ==> Keys(r.value) == Keys(es)
  {
    if es == [] then Ok([])
    else match Coerce(reg, kind, es[0].0, es[0].1)
      case Err(e) => Err(e)
      case Ok(v) =>
        match CoerceEntries(reg, kind, es[1..])
        case Err(e) => Err(e)
        case Ok(rest) => Ok([(es[0].0, v)] + rest)
  }

  lemma {:induction false} CoerceEntriesOk(reg: Registry, kind: string, es: Entries)
    requires kind in reg
    ensures CoerceEntries(reg, kind, es).Ok? <==> forall i :: 0 <= i < |es| ==> Coerce(reg, kind, es[i].0, es[i].1).Ok?
  {
    if es != [] {
      CoerceEntriesOk(reg, kind, es[1..]);
      assert forall i :: 1 <= i < |es| ==> es[i] == es[1..][i - 1];
    }
  }

  /** No key of `es` is already a key of `acc`, and no key repeats in `es`. */
  predicate FreshKeys(acc: Entries, es: Entries)
  {
    DistinctKeys(es) && forall i :: 0 <= i < |es| ==> es[i].0 !in Keys(acc)
  }

  lemma AppendAssoc<T>(a: seq<T>, b: seq<T>, c: seq<T>)
    ensures a + (b + c) == (a + b) + c
  {
  }

  lemma FreshKeysStep(acc: Entries, es: Entries, v: Value)
    requires es != [] && FreshKeys(acc, es)
    ensures es[0].0 !in Keys(acc)
    ensures FreshKeys(acc + [(es[0].0, v)], es[1..])
  {
    var next := acc + [(es[0].0, v)];
    assert Keys(next) == Keys(acc) + [es[0].0];
    forall i | 0 <= i < |es[1..]| ensures es[1..][i].0 !in Keys(next) {
      assert es[1..][i] == es[i + 1];
    }
  }

  /** Filling fresh, distinct keys appends every coerced pair in input order,
      and fails exactly with the first coercion that fails. */
  lemma {:induction false} FillAppends(reg: Registry, kind: string, acc: Entries, es: Entries)
    requires kind in reg
    requires FreshKeys(acc, es)
    ensures CoerceEntries(reg, kind, es).Ok? ==>
              FillEntries(reg, kind, acc, es) == Filled(acc + CoerceEntries(reg, kind, es).value, None)
    ensures CoerceEntries(reg, kind, es).Err? ==>
              FillEntries(reg, kind, acc, es).failure == Some(CoerceEntries(reg, kind, es).error)
    decreases |es|
  {
    if es != [] {
      var c := Coerce(reg, kind, es[0].0, es[0].1);
      if c.Err? {
        assert Assign(reg, kind, acc, es[0].0, es[0].1) == Err(c.error);
        assert FillEntries(reg, kind, acc, es) == Filled(acc, Some(c.error));
        assert CoerceEntries(reg, kind, es) == Err(c.error);
      } else {
        FreshKeysStep(acc, es, c.value);
        var next := Put(acc, es[0].0, c.value);
        assert Assign(reg, kind, acc, es[0].0, es[0].1) == Ok(next);
        assert FillEntries(reg, kind, acc, es) == FillEntries(reg, kind, next, es[1..]);
        FillAppends(reg, kind, next, es[1..]);
        var rest := CoerceEntries(reg, kind, es[1..]);
        if rest.Ok? {
          var cs := [(es[0].0, c.value)] + rest.value;
          assert CoerceEntries(reg, kind, es) == Ok(cs);
          assert FillEntries(reg, kind, next, es[1..]) == Filled(next + rest.value, None);
          AppendAssoc(acc, [(es[0].0, c.value)], rest.value);
        } else {
          assert CoerceEntries(reg, kind, es) == Err(rest.error);
        }
      }
    }
  }

  /** `new Kind($data)` on an array with distinct keys holds exactly the
      coerced pairs, in input order. */
  lemma ConstructCoerces(reg: Registry, kind: string, es: Entries)
    requires kind in reg && DistinctKeys(es)
    ensures CoerceEntries(reg, kind, es).Ok? ==>
              Construct(reg, kind, Arr(es)) == Ok(Res(kind, CoerceEntries(reg, kind, es).value))
    ensures CoerceEntries(reg, kind, es).Err? ==>
              Construct(reg, kind, Arr(es)) == Err(CoerceEntries(reg, kind, es).error)
  {
    FillAppends(reg, kind, [], es);
    if CoerceEntries(reg, kind, es).Ok? {
      assert [] + CoerceEntries(reg, kind, es).value == CoerceEntries(reg, kind, es).value;
    }
  }

  /** Fill on a non-array is refused before anything is assigned. */
  lemma FillRejectsNonArray(reg: Registry, kind: string, data: Value)
    requires kind in reg && !data.Arr?
    ensures Construct(reg, kind, data) == Err(MalformedData)
  {
  }

  /** Fill succeeds exactly when every pair can be stored. */
  lemma {:induction false} FillSucceeds(reg: Registry, kind: string, acc: Entries, es: Entries)
    requires kind in reg
    ensures FillEntries(reg, kind, acc, es).failure.None? <==>
            forall i :: 0 <= i < |es| ==> Coerce(reg, kind, es[i].0, es[i].1).Ok?
    decreases |es|
  {
    if es != [] {
      SizeEntriesUnfold(es);
      var c := Coerce(reg, kind, es[0].0, es[0].1);
      if c.Ok? {
        var next := Put(acc, es[0].0, c.value);
        assert Assign(reg, kind, acc, es[0].0, es[0].1) == Ok(next);
        assert FillEntries(reg, kind, acc, es) == FillEntries(reg, kind, next, es[1..]);
        FillSucceeds(reg, kind, next, es[1..]);
        assert forall i :: 1 <= i < |es| ==> es[i] == es[1..][i - 1];
      } else {
        assert Assign(reg, kind, acc, es[0].0, es[0].1) == Err(c.error);
        assert FillEntries(reg, kind, acc, es).failure == Some(c.error);
      }
    }
  }

  /** After a successful fill with distinct keys, a key of the data holds its
      stored (coerced) value and every other key is as before. */
  lemma {:induction false} FillLookup(reg: Registry, kind: string, acc: Entries, es: Entries, k: string)
    requires kind in reg && DistinctKeys(es)
    requires FillEntries(reg, kind, acc, es).failure.None?
    ensures Lookup(es, k).Some? ==> Coerce(reg, kind, k, Lookup(es, k).value).Ok?
    ensures Lookup(FillEntries(reg, kind, acc, es).attributes, k) ==
            match Lookup(es, k)
            case Some(v) => Some(Coerce(reg, kind, k, v).value)
            case None => Lookup(acc, k)
    decreases |es|
  {
    if es != [] {
      SizeEntriesUnfold(es);
      var c := Coerce(reg, kind, es[0].0, es[0].1);
      assert Assign(reg, kind, acc, es[0].0, es[0].1).Ok?;
      var next := Put(acc, es[0].0, c.value);
      assert Assign(reg, kind, acc, es[0].0, es[0].1) == Ok(next);
      assert FillEntries(reg, kind, acc, es) == FillEntries(reg, kind, next, es[1..]);
      PutLookup(acc, es[0].0, c.value);
      FillLookup(reg, kind, next, es[1..], k);
      if es[0].0 == k {
        assert forall j :: 0 <= j < |es[1..]| ==> es[1..][j].0 == es[j + 1].0 != es[0].0;
        assert Lookup(es[1..], k).None?;
      } else {
        assert Lookup(es, k) == Lookup(es[1..], k);
      }
    }
  }

  /** Plain attributes read back as given; a cast attribute holds the
      instance built from the given value; an absent name is absent. */
  lemma ConstructLookup(reg: Registry, kind: string, es: Entries, k: string)
    requires kind in reg && DistinctKeys(es)
    requires Construct(reg, kind, Arr(es)).Ok?
    ensures var attrs := Construct(reg, kind, Arr(es)).value.attributes;
            match Lookup(es, k)
            case None => Lookup(attrs, k).None?
            case Some(v) =>
              if k in reg[kind].cast then
                && reg[kind].cast[k] in reg
                && Construct(reg, reg[kind].cast[k], v).Ok?
                && Lookup(attrs, k) == Some(Construct(reg, reg[kind].cast[k], v).value)
              else Lookup(attrs, k) == Some(v)
  {
    FillLookup(reg, kind, [], es, k);
  }

  // ---------------------------------------------------------------------
  // toArray after new Kind($data)

  /** With an empty cast map, `new Kind($data)` keeps the data as it is and
      `toArray` returns it unchanged, nested plain arrays included. */
  lemma {:induction false} NoCastRoundTrip(reg: Registry, kind: string, es: Entries)
    requires kind in reg && reg[kind].cast == map[] && DistinctKeys(es)
    ensures Construct(reg, kind, Arr(es)) == Ok(Res(kind, es))
    ensures Serialize(reg, kind, es) == es
  {
    NoCastCoerce(reg, kind, es);
    ConstructCoerces(reg, kind, es);
    NoCastSerialize(reg, kind, es);
  }

  lemma {:induction false} NoCastCoerce(reg: Registry, kind: string, es: Entries)
    requires kind in reg && reg[kind].cast == map[]
    ensures CoerceEntries(reg, kind, es) == Ok(es)
  {
    if es != [] {
      NoCastCoerce(reg, kind, es[1..]);
      assert [(es[0].0, es[0].1)] + es[1..] == es;
    }
  }

  lemma {:induction false} NoCastSerialize(reg: Registry, kind: string, es: Entries)
    requires CastOf(reg, kind) == map[]
    ensures Serialize(reg, kind, es) == es
  {
    if es != [] {
      NoCastSerialize(reg, kind, es[1..]);
    }
  }

  /** `toArray` undoes `new Kind($data)` on any well-formed array, whatever
      the cast map: each cast attribute unwraps to the array it was built from. */
  lemma {:induction false} ConstructRoundTrip(reg: Registry, kind: string, data: Value)
    requires kind in reg && WellFormed(data)
    requires Construct(reg, kind, data).Ok?
    ensures Unwrap(reg, Construct(reg, kind, data).value) == data
    decreases Size(data), 0
  {
    SizeOfContainer(data);
    var es := data.entries;
    ConstructCoerces(reg, kind, es);
    var cs := CoerceEntries(reg, kind, es).value;
    SerializeCoerced(reg, kind, es, cs);
  }

  lemma {:induction false} SerializeCoerced(reg: Registry, kind: string, es: Entries, cs: Entries)
    requires kind in reg && WellFormedEntries(es)
    requires CoerceEntries(reg, kind, es) == Ok(cs)
    ensures Serialize(reg, kind, cs) == es
    decreases SizeEntries(es), 1
  {
    if es != [] {
      SizeEntriesUnfold(es);
      var (key, v) := es[0];
      SerializeCoerced(reg, kind, es[1..], cs[1..]);
      if key in reg[kind].cast {
        var className := reg[kind].cast[key];
        ConstructRoundTrip(reg, className, v);
      }
    }
  }
}
