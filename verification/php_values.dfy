/** The PHP values a resource stores: scalars from a decoded payload, PHP
    arrays (ordered maps) and resource instances. */
module PhpValues {
  import opened Failures

  /** A PHP array is an ordered map. PHP keeps every key in a canonical form
      (the integer 0 and the string "0" are the same key), so a key is
      written here as its canonical string. */
  type Entries = seq<(string, Value)>

  datatype Value =
    | Null
    | Bool(b: bool)
    | Int(i: int)
    | Str(s: string)
    | Arr(entries: Entries)
      /** An instance of the resource kind `kind` holding `attributes`. */
    | Res(kind: string, attributes: Entries)

  /** A measure for recursion through nested arrays and resources. */
  function Size(v: Value): (n: nat)
    decreases v, 1, 0
    ensures n >= 1
  {
    match v
    case Arr(es) => 1 + SizeWithin(v, es)
    case Res(_, es) => 1 + SizeWithin(v, es)
    case _ => 1
  }

  /** The summed size of the values of `es`, which all sit inside `parent`;
      `parent` only lets the recursion be measured structurally. */
  function SizeWithin(ghost parent: Value, es: Entries): nat
    requires forall i :: 0 <= i < |es| ==> es[i].1 < parent
    decreases parent, 0, |es|
  {
    if es == [] then 0 else Size(es[0].1) + SizeWithin(parent, es[1..])
  }

  function SizeEntries(es: Entries): nat
  {
    SizeWithin(Arr(es), es)
  }

  lemma {:induction false} SizeWithinParent(p: Value, q: Value, es: Entries)
    requires forall i :: 0 <= i < |es| ==> es[i].1 < p
    requires forall i :: 0 <= i < |es| ==> es[i].1 < q
    ensures SizeWithin(p, es) == SizeWithin(q, es)
    decreases |es|
  {
    if es != [] {
      SizeWithinParent(p, q, es[1..]);
    }
  }

  /** The measure of entries unfolds one entry at a time, and a resource
      measures like an array of its attributes. */
  lemma SizeEntriesUnfold(es: Entries)
    ensures es != [] ==> SizeEntries(es) == Size(es[0].1) + SizeEntries(es[1..])
    ensures es != [] ==> Size(es[0].1) <= SizeEntries(es) && SizeEntries(es[1..]) < SizeEntries(es)
  {
    if es != [] {
      SizeWithinParent(Arr(es), Arr(es[1..]), es[1..]);
    }
  }

  /** Each value of an array is smaller than the array. */
  lemma {:induction false} SizeOfMember(es: Entries, i: nat)
    requires i < |es|
    ensures Size(es[i].1) < Size(Arr(es))
    decreases i
  {
    SizeOfContainer(Arr(es));
    SizeEntriesUnfold(es);
    if i > 0 {
      SizeOfMember(es[1..], i - 1);
      SizeOfContainer(Arr(es[1..]));
    }
  }

  lemma SizeOfContainer(v: Value)
    ensures v.Arr? ==> Size(v) == 1 + SizeEntries(v.entries)
    ensures v.Res? ==> Size(v) == 1 + SizeEntries(v.attributes)
  {
    if v.Res? {
      SizeWithinParent(v, Arr(v.attributes), v.attributes);
    }
  }

  function Keys(es: Entries): (ks: seq<string>)
    ensures |ks| == |es|
    ensures forall i :: 0 <= i < |es| ==> ks[i] == es[i].0
  {
    if es == [] then [] else [es[0].0] + Keys(es[1..])
  }

  /** No key occurs twice: true of every PHP array. */
  predicate DistinctKeys(es: Entries)
  {
    forall i, j :: 0 <= i < j < |es| ==> es[i].0 != es[j].0
  }

  /** `array_key_exists($k, $es) ? $es[$k] : absent`. */
  function Lookup(es: Entries, k: string): (r: Option<Value>)
    ensures r.None? <==> k !in Keys(es)
  {
    if es == [] then None
    else if es[0].0 == k then Some(es[0].1)
    else Lookup(es[1..], k)
  }

  /** `$es[$k] = $v`: an existing key keeps its position and takes the new
      value; a new key is appended at the end. */
  function Put(es: Entries, k: string, v: Value): (r: Entries)
    ensures k !in Keys(es) ==> r == es + [(k, v)]
    ensures k in Keys(es) ==> Keys(r) == Keys(es)
  {
    if es == [] then [(k, v)]
    else if es[0].0 == k then [(k, v)] + es[1..]
    else [es[0]] + Put(es[1..], k, v)
  }

  /** After the assignment the key reads the new value and every other key
      reads what it read before. */
  lemma {:induction false} PutLookup(es: Entries, k: string, v: Value)
    ensures Lookup(Put(es, k, v), k) == Some(v)
    ensures forall k' :: k' != k ==> Lookup(Put(es, k, v), k') == Lookup(es, k')
  {
    if es != [] && es[0].0 != k {
      PutLookup(es[1..], k, v);
      assert Put(es, k, v)[1..] == Put(es[1..], k, v);
    }
  }

  /** Assigning a key keeps the keys of an array distinct. */
  lemma PutKeepsDistinct(es: Entries, k: string, v: Value)
    requires DistinctKeys(es)
    ensures DistinctKeys(Put(es, k, v))
  {
    var r := Put(es, k, v);
    if k in Keys(es) {
      assert forall i :: 0 <= i < |r| ==> r[i].0 == Keys(r)[i];
    } else {
      assert r == es + [(k, v)];
    }
  }

  lemma {:induction false} LookupAt(es: Entries, i: nat)
    requires DistinctKeys(es) && i < |es|
    ensures Lookup(es, es[i].0) == Some(es[i].1)
  {
    if i > 0 {
      LookupAt(es[1..], i - 1);
    }
  }

  /** Every array and every resource inside `v`, `v` included, has distinct
      keys, as PHP arrays always do. */
  ghost predicate WellFormed(v: Value)
    decreases Size(v), 0
  {
    SizeOfContainer(v);
    match v
    case Arr(es) => DistinctKeys(es) && WellFormedEntries(es)
    case Res(_, es) => DistinctKeys(es) && WellFormedEntries(es)
    case _ => true
  }

  ghost predicate WellFormedEntries(es: Entries)
    decreases SizeEntries(es), 1
  {
    SizeEntriesUnfold(es);
    es == [] || (WellFormed(es[0].1) && WellFormedEntries(es[1..]))
  }

  predicate IsDigits(s: string)
  {
    forall i :: 0 <= i < |s| ==> '0' <= s[i] <= '9'
  }

  /** Decimal digits of a natural number, most significant first. */
  function NatToString(n: nat): (s: string)
    ensures |s| >= 1 && IsDigits(s)
    ensures s[0] == '0' <==> n == 0
  {
    if n < 10 then [('0' as int + n) as char]
    else NatToString(n / 10) + [('0' as int + n % 10) as char]
  }

  /** The number a string of decimal digits denotes, most significant first. */
  function DigitsValue(s: string): nat
    requires IsDigits(s)
  {
    if s == [] then 0
    else
      DigitsValue(s[..|s| - 1]) * 10 + (s[|s| - 1] as int - '0' as int)
  }

  /** Reading the digits back gives the number: the decimal form is exact. */
  lemma {:induction false} NatToStringRoundTrip(n: nat)
    ensures DigitsValue(NatToString(n)) == n
  {
    if n >= 10 {
      var s := NatToString(n);
      assert s[..|s| - 1] == NatToString(n / 10);
      NatToStringRoundTrip(n / 10);
    }
  }

  /** PHP's string conversion of an int: an optional '-' and the decimal
      digits, with no leading zero. */
  function IntToString(i: int): (s: string)
    ensures |s| >= 1
    ensures s[0] == '-' <==> i < 0
    ensures i >= 0 ==> IsDigits(s) && DigitsValue(s) == i
    ensures i < 0 ==> IsDigits(s[1..]) && DigitsValue(s[1..]) == -i
    ensures |s| >= 2 ==> s[0] != '0' && (s[0] == '-' ==> s[1] != '0')
  {
    if i < 0 then
      NatToStringRoundTrip(-i);
      var d := NatToString(-i);
      assert ("-" + d)[1..] == d;
      "-" + d
    else
      NatToStringRoundTrip(i);
      NatToString(i)
  }

  /** The id 42 is written "42". The int arrives as a parameter pinned by
      `requires` rather than as a literal, so that the verifier does not
      unroll the conversion on a constant argument. */
  lemma FortyTwo(i: int)
    requires i == 42
    ensures IntToString(i) == "42"
  {
    var s := IntToString(i);
    assert NatToString(4) == "4";
    assert NatToString(42) == NatToString(4) + ['2'];
  }

  /** The string PHP hands to urlencode for a value: strings as they are,
      ints in decimal, true as "1" and false as "". Arrays and objects are
      refused with a TypeError (None); null never reaches this point. */
  function ToPhpString(v: Value): (r: Option<string>)
    ensures r.Some? <==> (v.Str? || v.Int? || v.Bool? || v.Null?)
    ensures v.Str? ==> r == Some(v.s)
    ensures v.Int? ==> r == Some(IntToString(v.i))
    ensures v == Bool(true) ==> r == Some("1")
    ensures v == Bool(false) || v == Null ==> r == Some("")
  {
    match v
    case Str(s) => Some(s)
    case Int(i) => Some(IntToString(i))
    case Bool(b) => Some(if b then "1" else "")
    case Null => Some("")
    case _ => None
  }
}
