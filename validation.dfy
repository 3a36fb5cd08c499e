/**
 * The `errors` of a Mongoose `ValidationError`, shared by the schemas:
 * each path whose validators fail, with the message of the first that fails.
 */
module Validation {
  import opened Wrappers

  /** The paths among `paths` whose check gives a message, each mapped to that message. */
  function FailingPaths<P(!new)>(paths: set<P>, check: P -> Option<string>): (m: map<P, string>)
    ensures forall p :: p in m <==> p in paths && check(p).Some?
    ensures forall p :: p in m ==> m[p] == check(p).value
  {
    map p | p in paths && check(p).Some? :: check(p).value
  }
}
