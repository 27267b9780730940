/** The Company resource: base path `/company`, no instance path, and the
    inherited empty cast map, relationship map and whitelist. The lemmas
    hold in any registry that registers Company with this configuration. */
module Company {
  import opened Failures
  import opened PhpValues
  import opened PhpStrings
  import opened Kinds
  import opened AttributeStore
  import opened PathResolver
  import opened Relationships

  const Name: string := "Company"

  const Config: KindConfig := KindConfig(Some("/company"), None, [], map[], map[])

  predicate Registered(reg: Registry)
  {
    Name in reg && reg[Name] == Config
  }

  /** `/company` matches `^/\S+$`, so Company's base path never fails. */
  lemma BasePathIsCompany(reg: Registry)
    requires Registered(reg)
    ensures BasePath(reg, Name) == Ok("/company")
  {
    var p := "/company";
    assert forall i :: 1 <= i < |p| ==> !IsSpace(p[i]);
    assert MatchesPathPattern(p);
  }

  /** Company is a singleton path: every Company resolves to `/company`,
      whatever its attributes. */
  lemma RemotePathIsCompany(reg: Registry, attrs: Entries)
    requires Registered(reg)
    ensures RemotePath(reg, Name, attrs) == Ok("/company")
  {
    BasePathIsCompany(reg);
    SingletonRemotePath(reg, Name, attrs);
  }

  /** With nothing to cast, a Company keeps the data it is built from and
      `toArray` gives that data back; on well-formed data this holds for
      nested arrays too. */
  lemma ToArrayOfCompany(reg: Registry, es: Entries)
    requires Registered(reg) && DistinctKeys(es)
    ensures Construct(reg, Name, Arr(es)) == Ok(Res(Name, es))
    ensures Serialize(reg, Name, es) == es
  {
    NoCastRoundTrip(reg, Name, es);
  }

  /** Company declares no relationships: building one fails as undefined
      for every name, and so does asking for its remote path. */
  lemma NoRelationships(reg: Registry, attrs: Entries, name: string, rawData: Value)
    requires Registered(reg)
    ensures BuildRelationship(reg, Name, name, rawData) == Err(UndefinedRelationship(name))
    ensures RelationshipRemotePath(reg, Name, attrs, name) == Err(UndefinedRelationship(name))
  {
    BuildRelationshipErrorOrder(reg, Name, name, rawData);
    RelationshipRemotePathShape(reg, Name, attrs, name);
  }

  /** Company's whitelist is empty: nothing passes the update filter. */
  lemma NothingWhiteListed(reg: Registry, data: Entries)
    requires Registered(reg)
    ensures FilterWhiteList(reg[Name].whiteListed, data) == []
  {
    FilterWhiteListEmpty(data);
  }
}
