# Soldo PHP SDK: resources and webhook events in Dafny

This project models the core of the Soldo PHP SDK. It has three parts:

- **The generic `Resource` engine.** Every remote Soldo entity is an instance of it.
  - `fill`, `__set` and `__get` keep an ordered attribute map.
  - An attribute named in the cast map becomes a nested resource built from its value.
  - `toArray` unwraps cast attributes recursively.
  - `getBasePath`, `getResourcePath` and `getRemotePath` check paths against `^/\S+$`. They then replace each `{name}` placeholder with the urlencoded attribute.
  - `buildRelationship` and `getRelationshipRemotePath` build and address child resources.
  - `filterWhiteList` keeps only the keys an update may send.
- **The `Company` kind.** Its base path is `/company`; it has no instance path and empty maps.
- **The webhook gate `SoldoEvent`.** Its constructor checks the payload and the event type, rebuilds the resource, and accepts the event only when the claimed fingerprint matches the recomputed one.

How the PHP becomes Dafny:

- **Values.** A PHP value is the datatype `PhpValues.Value`. A PHP array is an ordered list of (key, value) pairs. Keys are written as canonical strings, because PHP keeps keys canonical.
- **Classes.** PHP instantiates classes by name. Here a `Registry` maps each class name to its configuration: base path, instance path, whitelist, relationship map and cast map. A class name is valid exactly when it is registered.
- **State.** `Resources.Resource` is a Dafny class whose `attributes` field its methods update in place, as the PHP object does. Its methods run the source's loops. Each method is proved equal to a value-level function in `AttributeStore`, `PathResolver` or `Relationships`, and the lemmas about those functions carry the properties.
- **Nested resources.** A cast attribute stores its nested resource as a value `Res(kind, attributes)`.
- **Paths.** `PathTemplate` restates `getResourcePath` without `str_replace`. A path is literal text plus `{name}` holes. Each hole is filled with the urlencoded attribute, or the first unusable attribute is reported. The template theorem proves the `str_replace` loop computes exactly this for every simple template. In a simple template, no literal text contains '{', and no hole name contains a brace or whitespace. Paths outside that shape are covered only by the general lemmas in `PathResolver`.
- **Code not shown.** Three pieces of the event gate live in code that is not part of this model: the schema validator, the fingerprint builder and the event-type getter. They are function-valued parameters (`Events.Collaborators`).

Where the repository's tests disagree with `Resource.php`, the model follows `Resource.php`:

- The tests expect `getRemotePath()` to give `/` when `id` is null. The source raises an invalid-path error (src/Soldo/Resources/Resource.php:287-291). See `PathTemplate.IdPath`.
- The tests expect a relationship exception for `['resources' => ['foo' => 'bar']]`. In the source the nested constructor's `fill` rejects the scalar item as malformed data. See `Relationships.BuildRelationshipScalarItem`.
- The tests call helpers the source does not have (`setCast`, `setBasePath`, `setRelationships`) and expect messages it does not produce.

## Model

| member | source | states |
|---|---|---|
| `PhpValues.Put` | src/Soldo/Resources/Resource.php:117-122 | Assigning `$attributes[$name]` keeps an existing key's position, and appends a new key at the end. |
| `PhpValues.PutLookup` | src/Soldo/Resources/Resource.php:117-122 | After the assignment, that key reads the new value and every other key reads what it read before. |
| `PhpValues.PutKeepsDistinct` | src/Soldo/Resources/Resource.php:117-122 | The assignment keeps the keys of the array distinct. |
| `PhpValues.ToPhpString` | src/Soldo/Resources/Resource.php:293-297 | The value urlencode receives is a string only for strings, ints, booleans and null. Strings pass through unchanged, and an int becomes its decimal form. `true` becomes "1"; `false` and null become "". Arrays and objects have no string form. |
| `PhpValues.IntToString` | src/Soldo/Resources/Resource.php:295 | PHP's decimal form of an int. It starts with '-' exactly for a negative int, has no leading zero, and its digits read back as the int's magnitude. |
| `PhpValues.NatToString` | src/Soldo/Resources/Resource.php:295 | The decimal digits of a natural number. The first digit is '0' only for zero. |
| `PhpValues.NatToStringRoundTrip` | src/Soldo/Resources/Resource.php:295 | Reading the decimal digits back gives the number: the conversion loses nothing. |
| `PhpValues.FortyTwo` | src/Soldo/Resources/Resource.php:295 | The int 42 is written "42". |
| `PhpValues.SizeOfMember` | src/Soldo/Resources/Resource.php:85-87 | Proof infrastructure, not a behaviour of the source: each value inside an array is smaller than the array. This is the termination measure for the recursion through nested constructors that fill's loop triggers. |
| `PhpStrings.UrlEncode` | src/Soldo/Resources/Resource.php:295 | urlencode's output uses only unreserved characters, '+' and '%'. |
| `PhpStrings.UrlEncodeIsInert` | src/Soldo/Resources/Resource.php:293-297 | An encoded value contains no brace, no '/' and no whitespace. A substituted attribute therefore cannot open a new placeholder or add a path segment. |
| `PhpStrings.UrlEncodeRoundTrip` | src/Soldo/Resources/Resource.php:295 | urldecode of urlencode gives back the UTF-8 bytes of the value: the encoding loses nothing. |
| `PhpStrings.DecodeEncodeBytes` | src/Soldo/Resources/Resource.php:295 | The same round trip at byte level, proved by induction over the bytes. |
| `PhpStrings.UrlEncodePlainText` | src/Soldo/Resources/Resource.php:295 | On letters, digits, '-', '_', '.' and spaces, urlencode only turns each space into '+' (form encoding). |
| `PhpStrings.MatchesPathPattern` | src/Soldo/Resources/Resource.php:278 | `^/\S+$` accepts only paths of at least two characters that start with '/'. No space, tab or carriage return may occur anywhere. The only whitespace allowed is a single line feed as the last character, so a final vertical tab or form feed is rejected. Every such path without whitespace is accepted, with or without one trailing line feed. The same pattern guards the base path at line 312. |
| `PhpStrings.StrReplace` | src/Soldo/Resources/Resource.php:293-297 | An empty search string changes nothing, and neither does replacing a string by itself. A replacement as long as the search string keeps the length. |
| `PhpStrings.StrReplaceAbsent` | src/Soldo/Resources/Resource.php:293-297 | str_replace leaves a subject that does not contain the search string unchanged. |
| `PhpStrings.Placeholders` | src/Soldo/Resources/Resource.php:285 | Every match of `\{(\S+?)\}` is `{name}` with a non-empty, whitespace-free captured name. |
| `PhpStrings.Explode` | src/Soldo/SoldoEvent.php:71 | explode on ',' gives at least one part, and no part contains ','. |
| `PhpStrings.ImplodeExplode` | src/Soldo/SoldoEvent.php:71 | Joining the parts of the split with ',' gives back the original order string. |
| `PhpStrings.ExplodeImplode` | src/Soldo/SoldoEvent.php:71 | Splitting a ','-join of comma-free parts gives back exactly those parts, in order. |
| `AttributeStore.Coerce` | src/Soldo/Resources/Resource.php:98-123 | The value `__set` stores. A name that is not cast stores the value as given. Only a cast name can fail, and only as malformed data or an unknown class. A successful cast stores an instance of the mapped class built from an array. |
| `AttributeStore.Assign` | src/Soldo/Resources/Resource.php:111-123 | `__set` succeeds exactly when its cast does. The name then reads the stored value, every other name is unchanged, and the keys stay distinct. |
| `AttributeStore.FillEntries` | src/Soldo/Resources/Resource.php:85-87 | The fill loop keeps the keys distinct. The only exceptions it stops on are malformed data and unknown classes. |
| `AttributeStore.Unwrap` | src/Soldo/Resources/Resource.php:150-153 | toArray turns a stored instance into an array and leaves every other value as it is. |
| `AttributeStore.Construct` | src/Soldo/Resources/Resource.php:66-90 | A successful `new Kind($data)` was given an array and yields an instance of that kind. It raises only malformed data or an unknown class. |
| `AttributeStore.Serialize` | src/Soldo/Resources/Resource.php:146-159 | toArray returns the same keys, in the same order, as the attributes. |
| `AttributeStore.CoerceEntries` | src/Soldo/Resources/Resource.php:111-123 | Storing every pair through `__set` keeps the keys and their order. |
| `AttributeStore.CoerceEntriesOk` | src/Soldo/Resources/Resource.php:111-123 | Every pair can be stored exactly when each cast succeeds. |
| `AttributeStore.FillAppends` | src/Soldo/Resources/Resource.php:85-87 | The fill loop over fresh, distinct keys appends every stored pair in input order. It fails with the first failing `__set`. |
| `AttributeStore.ConstructCoerces` | src/Soldo/Resources/Resource.php:66-90 | `new Kind($data)` on distinct keys holds exactly the stored pairs, or raises the first failure. |
| `AttributeStore.FillRejectsNonArray` | src/Soldo/Resources/Resource.php:77-83 | fill raises "malformed data" on anything that is not an array. |
| `AttributeStore.FillSucceeds` | src/Soldo/Resources/Resource.php:85-87 | fill completes exactly when every `__set` succeeds: an unregistered cast class or a non-array cast value stops it. |
| `AttributeStore.FillLookup` | src/Soldo/Resources/Resource.php:85-87 | After a successful fill, each key of the data holds its stored value, and every other key holds what it held before. |
| `AttributeStore.ConstructLookup` | src/Soldo/Resources/Resource.php:111-138 | After `new Kind($data)`, a plain key reads back its data value. A cast key holds the nested instance built from its value. A key never set is absent, so `__get` gives null. |
| `AttributeStore.NoCastRoundTrip` | src/Soldo/Resources/Resource.php:146-159 | With an empty cast map, `new Kind($data)` stores the data as given and `toArray` returns it unchanged, nested plain arrays included. |
| `AttributeStore.NoCastCoerce` | src/Soldo/Resources/Resource.php:111-123 | With an empty cast map, `__set` stores every value as given. |
| `AttributeStore.NoCastSerialize` | src/Soldo/Resources/Resource.php:146-159 | With an empty cast map, toArray copies the attributes. |
| `AttributeStore.ConstructRoundTrip` | src/Soldo/Resources/Resource.php:111-159 | For any cast map, toArray of `new Kind($data)` is `$data`: each cast attribute unwraps to the array it was built from. |
| `AttributeStore.SerializeCoerced` | src/Soldo/Resources/Resource.php:146-159 | toArray undoes the per-attribute casts of fill, recursively through nested instances. |
| `PathResolver.BasePath` | src/Soldo/Resources/Resource.php:309-319 | getBasePath succeeds exactly when the base path is set and matches `^/\S+$`. It then returns the path unchanged, which starts with '/' and has at least two characters. Otherwise it raises an invalid-path error. |
| `PathResolver.PlaceholderValue` | src/Soldo/Resources/Resource.php:286-296 | A placeholder fails only as "attribute not defined" or "attribute not convertible", and names that attribute. |
| `PathResolver.Substitute` | src/Soldo/Resources/Resource.php:286-298 | The placeholder loop succeeds only when every placeholder's attribute is usable. A failure is the error of one of the placeholders. |
| `PathResolver.ResourcePath` | src/Soldo/Resources/Resource.php:276-301 | getResourcePath refuses a path that fails `^/\S+$`. A success means every placeholder found has a usable attribute. A failure is the invalid path, or the error of a placeholder found in the path. |
| `PathResolver.RemotePath` | src/Soldo/Resources/Resource.php:167-178 | getRemotePath fails as an invalid path when the base path does. A success starts with the base path, and needs the instance path, when there is one, to resolve. |
| `PathResolver.SubstituteSplit` | src/Soldo/Resources/Resource.php:285-300 | The placeholder loop fails with the first unusable attribute, in match order. Otherwise it performs every replacement. |
| `PathResolver.FirstFailureNone` | src/Soldo/Resources/Resource.php:286-291 | There is no failing placeholder exactly when every placeholder names a usable attribute. |
| `PathResolver.ResourcePathSucceeds` | src/Soldo/Resources/Resource.php:276-301 | getResourcePath succeeds exactly when the path matches `^/\S+$` and every placeholder names a set, non-null, convertible attribute. |
| `PathResolver.NullPlaceholderFails` | src/Soldo/Resources/Resource.php:286-291 | A placeholder whose attribute is null or never set makes the path fail. The error names that attribute or an earlier failing one. |
| `PathResolver.FirstFailureAmong` | src/Soldo/Resources/Resource.php:286-291 | The failure reported is the undefined attribute or one before it in match order. |
| `PathResolver.SingletonRemotePath` | src/Soldo/Resources/Resource.php:167-173 | With a null instance path, getRemotePath is exactly getBasePath, whatever the attributes. |
| `PathResolver.RemotePathShape` | src/Soldo/Resources/Resource.php:167-178 | An invalid base path fails before the instance path is looked at. A successful remote path is the base path followed by the resolved instance path. |
| `PathTemplate.PlaceholdersOfTemplate` | src/Soldo/Resources/Resource.php:285 | On a path made of literal text and `{name}` holes, preg_match_all finds exactly the holes, in order. |
| `PathTemplate.StrReplaceTemplate` | src/Soldo/Resources/Resource.php:293-297 | str_replace of a hole's token fills every occurrence of that hole and leaves literal text and other holes alone. |
| `PathTemplate.ReplaceAllTemplate` | src/Soldo/Resources/Resource.php:286-298 | Performing the loop's replacements on a template gives the template with each hole replaced by its encoded attribute. |
| `PathTemplate.ResourcePathOfTemplate` | src/Soldo/Resources/Resource.php:276-301 | getResourcePath on a template equals the reference resolution. It is refused if the path fails the pattern. Otherwise it fails with the first unusable attribute, or keeps the literal text and fills every hole with the urlencoded attribute. |
| `PathTemplate.IdFortyTwo` | src/Soldo/Resources/Resource.php:276-301 | With the int id 42, `/{id}` resolves to `/42`. |
| `PathTemplate.IdPath` | src/Soldo/Resources/Resource.php:276-301 | `/{id}` resolves to '/' followed by the urlencoded id when the id is a string or an int. It fails naming `id` when the id is null or was never set. |
| `PathTemplate.SpacesExample` | test/Resources/SoldoResourceTest.php:224-225 | urlencode turns "a string with spaces" into "a+string+with+spaces". |
| `PathTemplate.IdWithSpaces` | test/Resources/SoldoResourceTest.php:224-225 | With that id, `/{id}` resolves to `/a+string+with+spaces`. |
| `Relationships.RelationshipClass` | src/Soldo/Resources/Resource.php:228-239 | getRelationshipClass succeeds exactly for a declared relationship name and returns its class. Otherwise it raises "relationship not defined". |
| `Relationships.RelationshipData` | src/Soldo/Resources/Resource.php:188-197 | getRelationshipData succeeds exactly when the raw data is an array holding the name, and returns that slice. |
| `Relationships.Members` | src/Soldo/Resources/Resource.php:214 | foreach visits the values of an array slice in order. A slice that is not an array yields no items. |
| `Relationships.BuildRelationship` | src/Soldo/Resources/Resource.php:206-219 | buildRelationship fails as undefined for an undeclared name. A success needs a registered target class and raw data holding the name, and yields only instances of the target class. |
| `Relationships.RelationshipRemotePath` | src/Soldo/Resources/Resource.php:248-256 | getRelationshipRemotePath fails as undefined for an undeclared name. A success is this resource's remote path followed by the target class's base path, and needs both to resolve. |
| `Relationships.ConstructAll` | src/Soldo/Resources/Resource.php:213-216 | A successful build yields one instance of the target class per item. |
| `Relationships.ConstructAllItems` | src/Soldo/Resources/Resource.php:213-216 | The build succeeds exactly when every item constructs, with item i's instance at position i. Otherwise it fails with the first item's failure. |
| `Relationships.BuildRelationshipErrorOrder` | src/Soldo/Resources/Resource.php:206-212 | buildRelationship checks in order: first an undefined name (whatever the raw data), then an unregistered target class, then raw data that is not an array or lacks the key. |
| `Relationships.BuildRelationshipItems` | src/Soldo/Resources/Resource.php:206-219 | On valid raw data, the result holds one instance per item of the slice, built from that item, in the slice's order. It fails exactly when some item fails to construct. |
| `Relationships.BuildRelationshipEmpty` | src/Soldo/Resources/Resource.php:206-219 | An empty slice gives an empty list. |
| `Relationships.BuildRelationshipScalarItem` | src/Soldo/Resources/Resource.php:213-216 | A slice holding a scalar is refused by the item's own fill as malformed data. |
| `Relationships.RelationshipRemotePathShape` | src/Soldo/Resources/Resource.php:248-256 | getRelationshipRemotePath fails as undefined for an unknown name. On success it is this resource's remote path followed by the target's base path. A failing target base path is reported first. |
| `Relationships.FilterWhiteList` | src/Soldo/Resources/Resource.php:264-267 | filterWhiteList keeps a pair exactly when it is in the data and its key is whitelisted. |
| `Relationships.FilterWhiteListLookup` | src/Soldo/Resources/Resource.php:264-267 | A whitelisted key reads its original value in the filtered data; any other key is absent. |
| `Relationships.FilterWhiteListAppend` | src/Soldo/Resources/Resource.php:264-267 | The filter distributes over concatenation, so the relative order of the kept pairs is unchanged. |
| `Relationships.FilterWhiteListIdempotent` | src/Soldo/Resources/Resource.php:264-267 | Filtering twice gives the same result as filtering once. |
| `Relationships.FilterWhiteListEmpty` | src/Soldo/Resources/Resource.php:264-267 | An empty whitelist keeps nothing. |
| `Resources.Resource.HasToCast` | src/Soldo/Resources/Resource.php:98-101 | A name not cast is stored by `__set` exactly as given. A cast name is stored only as an instance, built from an array. |
| `Resources.Resource.constructor` | src/Soldo/Resources/Resource.php:66-69 | `new Kind()` starts with no attributes. |
| `Resources.Resource.Create` | src/Soldo/Resources/Resource.php:66-90 | `new $className($data)` returns a fresh valid instance whose state is `Construct`'s result. Otherwise it raises the same exception. |
| `Resources.Resource.Fill` | src/Soldo/Resources/Resource.php:77-90 | fill refuses a non-array without touching the attributes. Otherwise the new attributes and the raised exception, if any, are those of the in-order `__set` loop, including the partial state left by a failing pair. |
| `Resources.Resource.Set` | src/Soldo/Resources/Resource.php:98-123 | `__set` stores the cast instance or the plain value as `Assign` does. On failure it reports the exception and leaves the attributes unchanged. |
| `Resources.Resource.Get` | src/Soldo/Resources/Resource.php:131-138 | `__get` returns the stored value, or null (never an error) for a name never set. |
| `Resources.Resource.ToArray` | src/Soldo/Resources/Resource.php:146-159 | The accumulator loop returns `Serialize` of the attributes, whose round-trip lemmas are above. |
| `Resources.Resource.GetResourcePath` | src/Soldo/Resources/Resource.php:276-301 | The loop that rewrites `$remotePath` returns `ResourcePath` of the declared path. |
| `Resources.Resource.GetRemotePath` | src/Soldo/Resources/Resource.php:167-178 | getRemotePath returns `RemotePath` of the instance's attributes. |
| `Resources.Resource.GetRelationshipRemotePath` | src/Soldo/Resources/Resource.php:248-256 | Returns `RelationshipRemotePath`. |
| `Resources.Resource.BuildRelationship` | src/Soldo/Resources/Resource.php:206-219 | The accumulator loop returns fresh valid instances whose states are `BuildRelationship`'s values, in order. Otherwise it raises the same exception. |
| `Company.BasePathIsCompany` | src/Soldo/Resources/Company.php:19 | Company's base path `/company` passes the pattern, so getBasePath never fails for it. |
| `Company.RemotePathIsCompany` | src/Soldo/Resources/Company.php:13-20 | Every Company resolves to `/company`, whatever its attributes. |
| `Company.ToArrayOfCompany` | src/Soldo/Resources/Company.php:13-20 | Company has nothing to cast, so `toArray(new Company(D)) == D`. |
| `Company.NoRelationships` | src/Soldo/Resources/Company.php:13-20 | buildRelationship and getRelationshipRemotePath fail as undefined for every name. |
| `Company.NothingWhiteListed` | src/Soldo/Resources/Company.php:13-20 | filterWhiteList on a Company always returns an empty array. |
| `Events.Types` | src/Soldo/SoldoEvent.php:109-116 | types() lists three event types. |
| `Events.InTypes` | src/Soldo/SoldoEvent.php:60 | The loose `in_array` type check passes exactly for the strings Card, Transaction and Employee, and for `true`. |
| `Events.Verify` | src/Soldo/SoldoEvent.php:46-81 | An accepted event passed the schema and type checks. It holds an instance of the registered class the type names, built from `data`, whose recomputed fingerprint equals the claimed one, and the event type that resource reports. Every refusal by the gate itself carries one of its three messages. |
| `Events.ClassNameOf` | src/Soldo/SoldoEvent.php:67 | The resource class is named by the event type string. |
| `Events.TypesAreClosed` | src/Soldo/SoldoEvent.php:20-22 | types() is exactly Card, Transaction, Employee, in that order. A string event type passes the check exactly when it is one of them. |
| `Events.InvalidDataFirst` | src/Soldo/SoldoEvent.php:48-58 | Data the validator refuses raises "Invalid webhook data" before any other check. |
| `Events.UnsupportedTypeRejected` | src/Soldo/SoldoEvent.php:60-64 | An unsupported type raises "Event type not supported", whatever the registry, fingerprint builder or fingerprint: no resource is built. |
| `Events.VerifySucceeds` | src/Soldo/SoldoEvent.php:46-81 | The event is accepted exactly when the data validates, the type is supported and registered, the resource builds from `data`, and the claimed fingerprint equals the one recomputed over the split order. The event then holds that resource, of the named kind, and the type the resource reports, not the raw `event_type`. |
| `Events.WrongFingerprintRejected` | src/Soldo/SoldoEvent.php:72-77 | A fingerprint that is not strictly equal to the recomputed one raises "Cannot verify the given fingerprint". |
| `Events.FingerprintOrderIsSplit` | src/Soldo/SoldoEvent.php:71-72 | The order handed to the fingerprint builder is the only comma-free split that joins back to the claimed order string. |
| `Events.CompanyEventRejected` | src/Soldo/SoldoEvent.php:60-64 | A "Company" event is refused as unsupported even when Company is registered. |
| `Events.SoldoEvent.constructor` | src/Soldo/SoldoEvent.php:79-80 | The event's resource and type are set once, together with the record of what the gate verified. |
| `Events.SoldoEvent.Receive` | src/Soldo/SoldoEvent.php:46-81 | The constructor's step-by-step checks yield either the exception `Verify` gives, or a fresh event whose resource state and type are `Verify`'s. |
| `Events.SoldoEvent.Type` | src/Soldo/SoldoEvent.php:88-91 | `type()` returns the event type the gate verified, at any time, even after the resource was changed. |
| `Events.SoldoEvent.Get` | src/Soldo/SoldoEvent.php:99-102 | `get()` returns the event's own resource object, with no precondition. While that object is unchanged since the event was built, it holds the value the gate verified. |
| `Events.TypeAfterChange` | src/Soldo/SoldoEvent.php:88-102 | Setting an attribute on the resource `get()` returned leaves `type()` callable, and it still returns the verified type. |

## Left out

- Resource attribute keys that collide with the PHP class's own properties (`path`, `attributes`, `cast`, `relationships`, `whiteListed`) are not modelled. Inside the class such an assignment bypasses `__set`, and a placeholder with such a name reads the property. The model treats every key as an attribute.
- `validateClassName` lives in a trait that is not part of this model. A class name is taken to be valid exactly when it is registered.
- `Events.Verify`: the event constructor does not validate the class name before `new $className`. For an unregistered type PHP fails with a class-not-found error; the model reports an invalid-class-name failure at that step.
- `buildFingerprint`, `getEventType` and `validateRawData` are not part of this model. They are function parameters, and no digest is invented.
- `Events.Field`: a payload the validator accepts but that is not an array is read as having no fields. PHP would index into a string or raise an error.
- `Events.InTypes` uses PHP 8's loose `==`. Under PHP 7 an int event type 0 would also pass, because 'Card' == 0 there. Under both, `true` passes, and the class `\Soldo\Resources\1` is then not registered.
- `PhpValues.ToPhpString`: floats are not modelled, because the value datatype has no floating point.
- `PathResolver.PlaceholderValue` follows PHP 8, where `urlencode` of an array or an object throws a TypeError. The model reports that as a not-convertible failure. Under PHP 7, `urlencode` only warns and returns null, `str_replace` then deletes the `{name}` token, and the path succeeds. The model does not capture the PHP 7 outcome.
- Only PHP strings that are valid UTF-8 are modelled. A Dafny `string` stands for its UTF-8 bytes, so a byte string such as `"\xff"` has no counterpart. `urlencode`, `str_replace`, the `^/\S+$` match, `fill` and `toArray` are not modelled on such strings.
- Late static binding and `call_user_func` are replaced by looking a kind up in the registry.
- Nested resources are stored as values, so aliasing between a nested instance and other references to it is not modelled.
- `toArray` on a cast key whose value is not an instance would be a PHP error. Cast keys are written only through `__set`, which always stores an instance, so the model keeps such a value as it is.
- `src/Soldo/Soldo.php` (the client facade, HTTP and OAuth) and the `Collection` class are not part of this model.
