/**
 * The lazily computed latest KTX version. On first use it reads the version
 * file of the KTX repository and trims it; if that fetch fails, it asks Maven
 * Central for the latest version of ktxActors. A value, once computed, is
 * kept for the rest of the run. The network calls are parameters: `github`
 * maps a URL to the outcome of fetching it, `mavenCentral` maps an extension
 * to the outcome of looking up its latest published version.
 */
module KtxVersion {
  import opened Wrappers
  import opened Strings
  import opened KtxCatalog

  /** Outcome of a network lookup: the text it returned, or a failure (an exception). */
  datatype Fetch = Fetched(text: string) | Failed

  /** Where the KTX repository publishes its current version. */
  const VersionUrl: string := "https://raw.githubusercontent.com/libktx/ktx/master/version.txt"

  /**
   * The lazy initializer: the trimmed repository version, or else the Maven
   * Central lookup for ktxActors. There is no default to fall back on, so it
   * fails exactly when both lookups fail.
   */
  function LatestVersion(github: string -> Fetch, mavenCentral: Ktx -> Fetch): (r: Fetch)
    ensures r.Failed? <==> github(VersionUrl).Failed? && mavenCentral(KtxActors).Failed?
  {
    match github(VersionUrl)
    case Fetched(text) => Fetched(Trim(text))
    case Failed => mavenCentral(KtxActors)
  }

  /**
   * When the repository answers, the version is its answer with the
   * surrounding whitespace removed, and Maven Central plays no part.
   */
  lemma RepositoryVersionIsTrimmed(github: string -> Fetch, mavenCentral: Ktx -> Fetch, other: Ktx -> Fetch)
    requires github(VersionUrl).Fetched?
    ensures LatestVersion(github, mavenCentral) == Fetched(Trim(github(VersionUrl).text))
    ensures var v := LatestVersion(github, mavenCentral).text;
      v == [] || (!IsWhitespace(v[0]) && !IsWhitespace(v[|v| - 1]))
    ensures Trim(LatestVersion(github, mavenCentral).text) == LatestVersion(github, mavenCentral).text
    ensures LatestVersion(github, other) == LatestVersion(github, mavenCentral)
  {
    TrimIdempotent(github(VersionUrl).text);
  }

  /** Only a failed repository fetch falls back to Maven Central, keyed on ktxActors. */
  lemma FallbackOnFailure(github: string -> Fetch, mavenCentral: Ktx -> Fetch)
    requires github(VersionUrl).Failed?
    ensures LatestVersion(github, mavenCentral) == mavenCentral(KtxActors)
  {
  }

  /**
   * The `by lazy` holder. Kotlin's synchronized lazy runs its initializer on
   * first access; a value it returns is kept, while an exception leaves the
   * holder empty, so the next access runs the initializer again.
   */
  class LazyKtxVersion {
    var cached: Option<string>

    constructor ()
      ensures cached == None
    {
      cached := None;
    }

    /** Reads the version, running the initializer only while nothing is cached. */
    method Get(github: string -> Fetch, mavenCentral: Ktx -> Fetch) returns (r: Fetch)
      modifies this
      ensures old(cached).Some? ==> r == Fetched(old(cached).value) && cached == old(cached)
      ensures old(cached).None? ==> r == LatestVersion(github, mavenCentral)
      ensures old(cached).None? ==> cached == if r.Fetched? then Some(r.text) else None
    {
      if cached.Some? {
        r := Fetched(cached.value);
      } else {
        r := LatestVersion(github, mavenCentral);
        if r.Fetched? {
          cached := Some(r.text);
        }
      }
    }
  }

  /**
   * Two reads of one holder: the second returns what the first computed, whatever
   * the network would answer then, unless the first failed, in which case the
   * second computes afresh.
   */
  method ReadTwice(github1: string -> Fetch, maven1: Ktx -> Fetch, github2: string -> Fetch, maven2: Ktx -> Fetch)
    returns (first: Fetch, second: Fetch)
    ensures first == LatestVersion(github1, maven1)
    ensures first.Fetched? ==> second == first
    ensures first.Failed? ==> second == LatestVersion(github2, maven2)
  {
    var holder := new LazyKtxVersion();
    first := holder.Get(github1, maven1);
    second := holder.Get(github2, maven2);
  }
}
