/** Digest collisions.  A digest is a parameter `sha: string -> string` throughout, never assumed
    injective: results say "equal, or here are two texts that collide". */
module Digests {

  predicate Collide(sha: string -> string, a: string, b: string) {
    a != b && sha(a) == sha(b)
  }
}
