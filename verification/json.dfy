/** JSON values as the application sees them after `JSON.parse`, their JavaScript
    truthiness, property lookup, and the property-list filter that `JSON.stringify`
    applies when it is given a replacer array (section 25.5.2 of ECMA-262). */
module Json {
  import opened Wrappers

  /** A JSON value. Numbers are exact rationals; object member order is not kept. */
  datatype Json =
    | JNull
    | JBool(b: bool)
    | JNum(n: real)
    | JStr(s: string)
    | JArr(items: seq<Json>)
    | JObj(members: map<string, Json>)

  /** `JSON.parse` and `JSON.stringify`, which the model does not implement: a parse
      either yields a value or throws with an error message. */
  datatype Codec = Codec(parse: string -> Result<Json>, stringify: Json -> string)

  /** JavaScript truthiness of a JSON value (ToBoolean, section 7.1.2 of ECMA-262). */
  predicate Truthy(j: Json) {
    match j
    case JNull => false
    case JBool(b) => b
    case JNum(n) => n != 0.0
    case JStr(s) => s != ""
    case JArr(_) => true
    case JObj(_) => true
  }

  /** Truthiness of a property read that may be `undefined`. */
  predicate TruthyOpt(j: Option<Json>) {
    j.Some? && Truthy(j.value)
  }

  /** `j[key]`: an own member of an object, `undefined` otherwise. */
  function Lookup(j: Json, key: string): (r: Option<Json>)
    ensures r.Some? <==> j.JObj? && key in j.members
    ensures r.Some? ==> r.value == j.members[key]
  {
    match j
    case JObj(m) => if key in m then Some(m[key]) else None
    case _ => None
  }

  /** An object whose members are the given strings. */
  function StringObject(m: map<string, string>): (r: Json)
    ensures r.JObj? && r.members.Keys == m.Keys
    ensures forall k :: k in m ==> r.members[k] == JStr(m[k])
  {
    JObj(map k | k in m :: JStr(m[k]))
  }

  /** The value `JSON.stringify(j, allow)` serialises: at every depth, objects keep
      only the members whose names are in the replacer list `allow`; arrays keep all
      their elements. */
  function KeepMembers(j: Json, allow: set<string>): (r: Json)
    ensures j.JArr? <==> r.JArr?
    ensures j.JObj? <==> r.JObj?
    ensures r.JArr? ==> |r.items| == |j.items|
    ensures r.JObj? ==> r.members.Keys == j.members.Keys * allow
    // Kept elements and members carry their own values, filtered in turn.
    ensures r.JArr? ==> forall i :: 0 <= i < |r.items| ==> r.items[i] == KeepMembers(j.items[i], allow)
    ensures r.JObj? ==> forall k :: k in r.members ==> r.members[k] == KeepMembers(j.members[k], allow)
    ensures !j.JArr? && !j.JObj? ==> r == j
  {
    match j
    case JArr(xs) => JArr(seq(|xs|, i requires 0 <= i < |xs| => KeepMembers(xs[i], allow)))
    case JObj(m) => JObj(map k | k in m && k in allow :: KeepMembers(m[k], allow))
    case _ => j
  }

  /** True when no object anywhere in `j` has a member outside `allow`. */
  predicate OnlyMembers(j: Json, allow: set<string>) {
    match j
    case JArr(xs) => forall i :: 0 <= i < |xs| ==> OnlyMembers(xs[i], allow)
    case JObj(m) => m.Keys <= allow && forall k :: k in m ==> OnlyMembers(m[k], allow)
    case _ => true
  }

  /** After filtering, no member outside the replacer list survives at any depth. */
  lemma {:induction false} KeepMembersRestricts(j: Json, allow: set<string>)
    ensures OnlyMembers(KeepMembers(j, allow), allow)
  {
    match j
    case JArr(xs) =>
      forall i | 0 <= i < |xs| ensures OnlyMembers(KeepMembers(xs[i], allow), allow) {
        KeepMembersRestricts(xs[i], allow);
      }
    case JObj(m) =>
      forall k | k in m && k in allow ensures OnlyMembers(KeepMembers(m[k], allow), allow) {
        KeepMembersRestricts(m[k], allow);
      }
    case _ =>
  }

  /** A value that already uses only allowed member names passes the filter unchanged. */
  lemma {:induction false} KeepMembersIdentity(j: Json, allow: set<string>)
    requires OnlyMembers(j, allow)
    ensures KeepMembers(j, allow) == j
  {
    match j
    case JArr(xs) =>
      forall i | 0 <= i < |xs| ensures KeepMembers(xs[i], allow) == xs[i] {
        KeepMembersIdentity(xs[i], allow);
      }
    case JObj(m) =>
      forall k | k in m ensures KeepMembers(m[k], allow) == m[k] {
        KeepMembersIdentity(m[k], allow);
      }
    case _ =>
  }

  /** Filtering twice with the same list is the same as filtering once. */
  lemma KeepMembersIdempotent(j: Json, allow: set<string>)
    ensures KeepMembers(KeepMembers(j, allow), allow) == KeepMembers(j, allow)
  {
  }
}
