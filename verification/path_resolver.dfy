/** Remote paths of resources: `getBasePath`, the placeholder substitution of
    `getResourcePath`, and `getRemotePath`, which joins the two. */
module PathResolver {
  import opened Failures
  import opened PhpValues
  import opened PhpStrings
  import opened Kinds

  /** `Kind::getBasePath()`: the static base path, refused when it is null or
      does not match `^/\S+$`. */
  function BasePath(reg: Registry, kind: string): (r: Result<string>)
    requires kind in reg
    ensures r.Ok? <==> reg[kind].basePath.Some? && MatchesPathPattern(reg[kind].basePath.value)
    ensures r.Ok? ==> r.value == reg[kind].basePath.value && |r.value| >= 2 && r.value[0] == '/'
    ensures r.Err? ==> r.error == InvalidPath(kind)
  {
    if reg[kind].basePath.None? || !MatchesPathPattern(reg[kind].basePath.value) then Err(InvalidPath(kind))
    else Ok(reg[kind].basePath.value)
  }

  /** The text a placeholder `{name}` stands for: `$this->{$name}` as urlencode
      receives it. A null (or never set) attribute is refused first; an array
      or object cannot be converted to a string. */
  function PlaceholderValue(kind: string, attrs: Entries, name: string): (r: Result<string>)
    ensures r.Err? ==> r.error == UndefinedAttribute(kind, name) || r.error == NotStringable(kind, name)
  {
    match Lookup(attrs, name)
    case None => Err(UndefinedAttribute(kind, name))
    case Some(v) =>
      if v == Null then Err(UndefinedAttribute(kind, name))
      else match ToPhpString(v)
        case Some(s) => Ok(s)
        case None => Err(NotStringable(kind, name))
  }

  /** The loop of `getResourcePath`: for each match in order, refuse an
      unusable attribute, otherwise `str_replace` every occurrence of the
      match's text in the path built so far by the encoded value. */
  function Substitute(kind: string, attrs: Entries, ms: seq<Placeholder>, current: string): (r: Result<string>)
    decreases |ms|
    ensures r.Ok? ==> forall i :: 0 <= i < |ms| ==> PlaceholderValue(kind, attrs, ms[i].name).Ok?
    ensures r.Err? ==> exists i :: 0 <= i < |ms| && PlaceholderValue(kind, attrs, ms[i].name) == Err(r.error)
  {
    if ms == [] then Ok(current)
    else match PlaceholderValue(kind, attrs, ms[0].name)
      case Err(e) => Err(e)
      case Ok(v) =>
        var r := Substitute(kind, attrs, ms[1..], StrReplace(ms[0].token, UrlEncode(v), current));
        assert forall i :: 1 <= i < |ms| ==> ms[i] == ms[1..][i - 1];
        r
  }

  /** `getResourcePath()` for the instance path `path`. */
  function ResourcePath(kind: string, path: string, attrs: Entries): (r: Result<string>)
    ensures !MatchesPathPattern(path) ==> r == Err(InvalidPath(kind))
    ensures r.Ok? ==> forall m :: m in Placeholders(path) ==> PlaceholderValue(kind, attrs, m.name).Ok?
    ensures r.Err? ==>
              (r.error == InvalidPath(kind) ||
               exists m :: m in Placeholders(path) && PlaceholderValue(kind, attrs, m.name) == Err(r.error))
  {
    if !MatchesPathPattern(path) then Err(InvalidPath(kind))
    else Substitute(kind, attrs, Placeholders(path), path)
  }

  /** `getRemotePath()`: the base path is checked first; a kind without an
      instance path resolves to its base path, any other to the base path
      followed by the substituted instance path. */
  function RemotePath(reg: Registry, kind: string, attrs: Entries): (r: Result<string>)
    requires kind in reg
    ensures BasePath(reg, kind).Err? ==> r == Err(InvalidPath(kind))
    ensures r.Ok? ==>
              (BasePath(reg, kind).Ok? &&
               |r.value| >= |BasePath(reg, kind).value| &&
               r.value[..|BasePath(reg, kind).value|] == BasePath(reg, kind).value)
    ensures r.Ok? && reg[kind].path.Some? ==> ResourcePath(kind, reg[kind].path.value, attrs).Ok?
  {
    match BasePath(reg, kind)
    case Err(e) => Err(e)
    case Ok(base) =>
      match reg[kind].path
      case None => Ok(base)
      case Some(path) =>
        match ResourcePath(kind, path, attrs)
        case Err(e) => Err(e)
        case Ok(p) => Ok(base + p)
  }

  // ---------------------------------------------------------------------

  /** The first placeholder whose attribute is unusable, in match order. */
  function FirstFailure(kind: string, attrs: Entries, ms: seq<Placeholder>): Option<Error>
  {
    if ms == [] then None
    else match PlaceholderValue(kind, attrs, ms[0].name)
      case Err(e) => Some(e)
      case Ok(_) => FirstFailure(kind, attrs, ms[1..])
  }

  /** The encoded text for `name`, when its attribute is usable. */
  function Encoded(kind: string, attrs: Entries, name: string): string
  {
    match PlaceholderValue(kind, attrs, name)
    case Ok(v) => UrlEncode(v)
    case Err(_) => ""
  }

  /** The loop's replacements, all performed. */
  function ReplaceAll(kind: string, attrs: Entries, ms: seq<Placeholder>, current: string): string
    decreases |ms|
  {
    if ms == [] then current
    else ReplaceAll(kind, attrs, ms[1..], StrReplace(ms[0].token, Encoded(kind, attrs, ms[0].name), current))
  }

  /** The loop fails with the first unusable placeholder, and otherwise
      performs every replacement. */
  lemma {:induction false} SubstituteSplit(kind: string, attrs: Entries, ms: seq<Placeholder>, current: string)
    ensures Substitute(kind, attrs, ms, current) ==
            match FirstFailure(kind, attrs, ms)
            case Some(e) => Err(e)
            case None => Ok(ReplaceAll(kind, attrs, ms, current))
    decreases |ms|
  {
    if ms != [] {
      var v := PlaceholderValue(kind, attrs, ms[0].name);
      if v.Ok? {
        SubstituteSplit(kind, attrs, ms[1..], StrReplace(ms[0].token, UrlEncode(v.value), current));
      }
    }
  }

  /** Every placeholder of `ms` names a usable attribute. */
  predicate AllUsable(kind: string, attrs: Entries, ms: seq<Placeholder>)
  {
    forall i :: 0 <= i < |ms| ==> PlaceholderValue(kind, attrs, ms[i].name).Ok?
  }

  lemma {:induction false} FirstFailureNone(kind: string, attrs: Entries, ms: seq<Placeholder>)
    ensures FirstFailure(kind, attrs, ms).None? <==> AllUsable(kind, attrs, ms)
  {
    if ms != [] {
      FirstFailureNone(kind, attrs, ms[1..]);
      assert forall i :: 1 <= i < |ms| ==> ms[i] == ms[1..][i - 1];
    }
  }

  /** The instance path resolves exactly when it matches `^/\S+$` and every
      placeholder in it names a set, non-null, string-convertible attribute. */
  lemma ResourcePathSucceeds(kind: string, path: string, attrs: Entries)
    ensures ResourcePath(kind, path, attrs).Ok? <==>
            MatchesPathPattern(path) && AllUsable(kind, attrs, Placeholders(path))
  {
    var ms := Placeholders(path);
    SubstituteSplit(kind, attrs, ms, path);
    FirstFailureNone(kind, attrs, ms);
  }

  /** A placeholder whose attribute is null or was never set makes the path
      fail, and the failure names the first such attribute (or an earlier
      attribute that cannot be converted). */
  lemma {:induction false} NullPlaceholderFails(kind: string, path: string, attrs: Entries, i: nat)
    requires i < |Placeholders(path)|
    requires Lookup(attrs, Placeholders(path)[i].name) in {None, Some(Null)}
    ensures ResourcePath(kind, path, attrs).Err?
    ensures ResourcePath(kind, path, attrs).error in
            (set j | 0 <= j <= i :: UndefinedAttribute(kind, Placeholders(path)[j].name)) +
            (set j | 0 <= j < i :: NotStringable(kind, Placeholders(path)[j].name)) +
            {InvalidPath(kind)}
  {
    var ms := Placeholders(path);
    SubstituteSplit(kind, attrs, ms, path);
    FirstFailureAmong(kind, attrs, ms, i);
  }

  lemma {:induction false} FirstFailureAmong(kind: string, attrs: Entries, ms: seq<Placeholder>, i: nat)
    requires i < |ms|
    requires PlaceholderValue(kind, attrs, ms[i].name) == Err(UndefinedAttribute(kind, ms[i].name))
    ensures FirstFailure(kind, attrs, ms).Some?
    ensures FirstFailure(kind, attrs, ms).value in
            (set j | 0 <= j <= i :: UndefinedAttribute(kind, ms[j].name)) +
            (set j | 0 <= j < i :: NotStringable(kind, ms[j].name))
  {
    var v := PlaceholderValue(kind, attrs, ms[0].name);
    if i == 0 {
      assert FirstFailure(kind, attrs, ms) == Some(UndefinedAttribute(kind, ms[0].name));
    } else if v.Err? {
      assert FirstFailure(kind, attrs, ms) == Some(v.error);
    } else {
      FirstFailureAmong(kind, attrs, ms[1..], i - 1);
      var e := FirstFailure(kind, attrs, ms[1..]).value;
      if e in (set j | 0 <= j <= i - 1 :: UndefinedAttribute(kind, ms[1..][j].name)) {
        var j :| 0 <= j <= i - 1 && e == UndefinedAttribute(kind, ms[1..][j].name);
        assert e == UndefinedAttribute(kind, ms[j + 1].name);
      } else {
        var j :| 0 <= j < i - 1 && e == NotStringable(kind, ms[1..][j].name);
        assert e == NotStringable(kind, ms[j + 1].name);
      }
    }
  }

  /** A kind without an instance path is a singleton: its remote path is its
      base path, whatever its attributes. */
  lemma SingletonRemotePath(reg: Registry, kind: string, attrs: Entries)
    requires kind in reg && reg[kind].path.None?
    ensures RemotePath(reg, kind, attrs) == BasePath(reg, kind)
  {
  }

  /** A remote path is the valid base path followed by the resolved instance
      path; an invalid base path fails before the instance path is looked at. */
  lemma RemotePathShape(reg: Registry, kind: string, attrs: Entries)
    requires kind in reg
    ensures BasePath(reg, kind).Err? ==> RemotePath(reg, kind, attrs) == Err(InvalidPath(kind))
    ensures reg[kind].path.Some? && BasePath(reg, kind).Ok? ==>
              RemotePath(reg, kind, attrs).Ok? == ResourcePath(kind, reg[kind].path.value, attrs).Ok?
    ensures RemotePath(reg, kind, attrs).Ok? && reg[kind].path.Some? ==>
              RemotePath(reg, kind, attrs).value ==
              reg[kind].basePath.value + ResourcePath(kind, reg[kind].path.value, attrs).value
  {
  }
}
