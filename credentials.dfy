/** The credential pair every script hands to its login routine, and the two
    JavaScript idioms that produce it: `a || b` and `if (!user || !secret)`. */
module Credentials {
  import opened Wrappers

  datatype Credentials = Credentials(identifier: string, secret: string)

  /** `a || b` on two `string | undefined` values: `a` when it is truthy, else `b`. */
  function Or(a: Option<string>, b: Option<string>): (r: Option<string>)
    ensures Truthy(r) <==> Truthy(a) || Truthy(b)
    ensures Truthy(a) ==> r == a
    ensures !Truthy(a) ==> r == b
  {
    if Truthy(a) then a else b
  }

  /** The guard `if (!user || !secret) … ; login({ user, secret })`: credentials come out
      exactly when both values are defined and non-empty, and they are those values. */
  function Gate(user: Option<string>, secret: Option<string>): (r: Option<Credentials>)
    ensures r.Some? <==> Truthy(user) && Truthy(secret)
    ensures r.Some? ==> Some(r.value.identifier) == user && Some(r.value.secret) == secret
  {
    if !Truthy(user) || !Truthy(secret) then None
    else Some(Credentials(user.value, secret.value))
  }
}
