/**
  Sealed statements.  `forall b :: Opened(s, b) ==> P` says P, but keeps it out of every proof that does not mention
  `Opened(s, true)`.
 */
module Seals {

  datatype Seal = Tree | Cache | Count | Script | PageData | Dump | Blockers

  ghost predicate Opened(s: Seal, b: bool) {
    true
  }
}
