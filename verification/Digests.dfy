/** Hashes, taken to be free of collisions. */
module Digests {
  type Digest = string -> string

  ghost predicate Injective(digest: Digest) {
    forall a, b :: digest(a) == digest(b) ==> a == b
  }
}
