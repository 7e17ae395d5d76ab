/**
 * Version precedence as used by `upToDate` (the `semver.gt` call): section 11
 * of Semantic Versioning 2.0.0, restricted to numeric `major.minor.patch`
 * triples. Precedence compares major, then minor, then patch, numerically.
 */
module SemVer {

  datatype Version = Version(major: nat, minor: nat, patch: nat)

  /** `semver.gt(a, b)`: `a` has strictly higher precedence than `b`. */
  predicate Greater(a: Version, b: Version) {
    || a.major > b.major
    || (a.major == b.major && a.minor > b.minor)
    || (a.major == b.major && a.minor == b.minor && a.patch > b.patch)
  }

  /**
   * `upToDate(v1, v2)` at main.js:222-224: true when the second version
   * (the installed one, at its call site) is strictly greater than the first.
   */
  predicate UpToDate(v1: Version, v2: Version) {
    Greater(v2, v1)
  }

  /** Precedence is a strict total order on triples. */
  lemma GreaterIsStrictTotalOrder(a: Version, b: Version, c: Version)
    ensures !Greater(a, a)
    ensures Greater(a, b) ==> !Greater(b, a)
    ensures Greater(a, b) && Greater(b, c) ==> Greater(a, c)
    ensures a != b ==> Greater(a, b) || Greater(b, a)
  {
  }

  /**
   * The update test of main.js:266-267 (versions differ and the installed one
   * is not greater) is exactly "the available version is strictly newer".
   */
  lemma NotUpToDateMeansNewer(available: Version, installed: Version)
    ensures (available != installed && !UpToDate(available, installed)) <==> Greater(available, installed)
  {
  }
}
