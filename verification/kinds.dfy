/** A resource kind is configuration, not code: the static base path, the
    instance path template, the update whitelist, the relationship map and the
    cast map that a concrete subclass of Resource declares. PHP instantiates
    kinds by class name; here a registry maps each class name to its
    configuration, and a class name is valid exactly when it is registered. */
module Kinds {
  import opened Failures

  datatype KindConfig = KindConfig(
    /** `protected static $basePath` (null when the subclass declares none). */
    basePath: Option<string>,
    /** `protected $path`, the instance path template; null for singletons. */
    path: Option<string>,
    /** `protected $whiteListed`: the attribute names an update may send. */
    whiteListed: seq<string>,
    /** `protected $relationships`: relationship name to class name. */
    relationships: map<string, string>,
    /** `protected $cast`: attribute name to class name. */
    cast: map<string, string>)

  type Registry = map<string, KindConfig>

  /** The cast map of a kind; an unregistered kind casts nothing. */
  function CastOf(reg: Registry, kind: string): map<string, string>
  {
    if kind in reg then reg[kind].cast else map[]
  }
}
