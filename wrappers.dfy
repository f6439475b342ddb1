/** The optional values the scripts handle: `string | undefined` in TypeScript. */
module Wrappers {

  datatype Option<+T> = None | Some(value: T)

  /** `m[key]` on a string-keyed record or environment: `undefined` when the key is absent. */
  function Lookup(m: map<string, string>, key: string): Option<string>
  {
    if key in m then Some(m[key]) else None
  }

  /** JavaScript truthiness of a `string | undefined`: defined and not the empty string. */
  predicate Truthy(o: Option<string>)
  {
    o.Some? && o.value != ""
  }
}
