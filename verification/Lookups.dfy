/** The machine's lookup and the environment's. */
module Lookups {
  import opened Syntax
  import Semantics
  import Scopes

  /** The machine's `Lookup` is `Env.lookup`, its frames set on those of the
      environment it was made in. */
  lemma LookupIsEnvLookup(c: Core, x: Name)
    ensures Semantics.Lookup(c, x) == LookupFrames(c.base + c.frames, x)
  {
    Scopes.LookupJoined(c.base, c.frames, x);
  }
}
