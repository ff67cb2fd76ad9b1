/** Outcomes of the provisioner's computations: a value, or the exception the
    JavaScript program would throw at that point. */
module Results {

  /** Which built-in operation raised a JavaScript TypeError. */
  datatype TypeErrorKind =
    | KeysOfNullish        // Object.keys(undefined) / Object.keys(null)
    | InOnPrimitive        // `key in v` where v is not an object
    | IndexOfUndefined     // `config.managed_*_range[0]` when the range is absent
    | JoinNotAFunction     // `diff.join(...)` called on a Set

  /** Every exception the modelled code can raise. */
  datatype Error =
    | TypeError(kind: TypeErrorKind)
      // "Invalid config": the document does not satisfy the schema
    | InvalidConfig
      // "Object keys don't match: <left> vs <right>"
    | KeysMismatch(left: seq<string>, right: seq<string>)
      // "user and password lists don't match up! users: ..., passwords: ..."
    | CountMismatch(users: seq<string>, passwords: seq<string>)
      // "Group <g> has a different GID in the config (<c>) than on the system (<l>)"
    | GidChange(group: string, configured: int, live: int)
      // "User <u> has a different UID in the config (<c>) than on the system (<l>)"
    | UidChange(user: string, configured: int, live: int)
      // "User <u> has a primary group <g> that is not in the config"
    | DanglingPrimaryGroup(user: string, group: string)
      // "Missing update functions for the following user properties: ..."
    | MissingUpdateFunctions(user: string, properties: set<string>)

  datatype Option<+T> = None | Some(value: T)

  datatype Result<+T> = Ok(value: T) | Err(error: Error) {
    predicate IsFailure() { Err? }

    function PropagateFailure<U>(): Result<U>
      requires Err?
    {
      Err(error)
    }

    function Extract(): T
      requires Ok?
    {
      value
    }
  }
}
