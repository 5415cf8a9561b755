/** Semantic versions and the order on them. */
module Versions {
  import opened Json

  datatype SemVer = SemVer(major: nat, minor: nat, patch: nat)

  datatype ApiType = OpenApi | AsyncApi | Proto

  predicate Older(a: SemVer, b: SemVer) {
    || a.major < b.major
    || (a.major == b.major && a.minor < b.minor)
    || (a.major == b.major && a.minor == b.minor && a.patch < b.patch)
  }

  /** No version is older than every version. */
  predicate OlderOption(a: Option<SemVer>, b: Option<SemVer>) {
    b.Some? && (a.None? || Older(a.value, b.value))
  }

  function Newest(a: Option<SemVer>, b: Option<SemVer>): Option<SemVer> {
    if OlderOption(a, b) then b else a
  }

  /** A higher major is newer whatever follows, a higher minor within one major, a higher patch within one
      minor; and of two versions exactly one is older unless they are the same. */
  lemma OlderMeans(a: SemVer, b: SemVer)
    ensures a.major < b.major ==> Older(a, b)
    ensures a.major == b.major && a.minor < b.minor ==> Older(a, b)
    ensures a.major == b.major && a.minor == b.minor && a.patch < b.patch ==> Older(a, b)
    ensures !(Older(a, b) && Older(b, a)) && (Older(a, b) || Older(b, a) || a == b) && !Older(a, a)
  {}

  lemma OlderTransitive(a: SemVer, b: SemVer, c: SemVer)
    requires Older(a, b) && Older(b, c)
    ensures Older(a, c)
  {}

  /** The newest of two is one of them, and neither is newer. */
  lemma NewestMeans(a: Option<SemVer>, b: Option<SemVer>)
    ensures Newest(a, b) == a || Newest(a, b) == b
    ensures Newest(a, b) == None <==> a == None && b == None
    ensures forall v :: (a == Some(v) || b == Some(v)) ==> !Older(Newest(a, b).value, v)
  {}
}
