/** Record shapes shared by the proxy's policy components (proxy/src/types.js). */
module Types {

  datatype Option<T> = None | Some(value: T)

  /** Why `allowedDataQuery` cannot produce a query. */
  datatype QueryError =
      /** `createPolicyTree` returned `null` (no allow or deny policy) and `stringify` was called on it. */
    | NullTree

  datatype Result<T> = Ok(value: T) | Err(error: QueryError)

  /**
   * The `permission` field; any value other than 'allow' or 'deny' (or a missing field) is `Other`. The values
   * `Other("allow")` and `Other("deny")` stand for no field value and are never produced from one.
   */
  datatype Permission = Allow | Deny | Other(name: string)

  /** A role as JavaScript sees it: `null`, `undefined` or a string, compared with `===`. */
  datatype RoleValue = NullRole | Undefined | Role(name: string)

  /** A `subject`/`predicate`/`object` field: missing, `null`, one string (possibly '*'), or an array of strings. */
  datatype Terms = Absent | Null | One(term: string) | Many(terms: seq<string>)

  /**
   * The terms a field restricts its position to, or `None` when it leaves the position free: a missing or
   * `null` field and the lone string '*' constrain nothing, and a lone string is a one-term list.
   */
  function Constraint(t: Terms): Option<seq<string>> {
    match t
    case Absent => None
    case Null => None
    case One(v) => if v == "*" then None else Some([v])
    case Many(vs) => Some(vs)
  }

  /**
   * One allow/deny statement. The source's `predicate` and `object` fields are Dafny keywords, so the three
   * triple positions are named `subj`, `pred` and `obj`. The `graph` field is never read and is not kept.
   */
  datatype Policy = Policy(
    permission: Permission,
    role: RoleValue,
    subj: Terms,
    pred: Terms,
    obj: Terms,
    priority: int)

  /** The policies that `createPolicyTree` acts on: those whose permission is 'allow' or 'deny'. */
  predicate Effective(p: Policy) {
    p.permission == Allow || p.permission == Deny
  }

  /** A request: the caller's role and the caller's own query text. */
  datatype Intent = Intent(role: RoleValue, queryString: string)
}
