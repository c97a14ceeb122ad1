/** The supported deployment regions and the URL of each region's signing-key endpoint. */
module Constants {

  /** `CS_REGIONS`, in its declared order; the first entry is the default region. */
  const Regions: seq<string> := ["NA", "EU", "AU", "AZZURE-NA", "AZZURE-EU", "GCP-NA", "GCP-EU"]

  /** Every endpoint URL starts with the scheme and ends with the key-document path. */
  const UrlScheme: string := "https://"
  const KeysPath: string := "/.well-known/public-keys.json"

  /** The host part of each region's endpoint. */
  const RegionHosts: map<string, string> := map[
    "NA" := "app.contentstack.com",
    "EU" := "eu-app.contentstack.com",
    "AU" := "au-app.contentstack.com",
    "AZZURE-NA" := "azure-na-app.contentstack.com",
    "AZZURE-EU" := "azure-eu-app.contentstack.com",
    "GCP-NA" := "gcp-na-app.contentstack.com",
    "GCP-EU" := "gcp-eu-app.contentstack.com"
  ]

  /** `CS_REGIONS_URLS`: where each region publishes its current public keys,
      e.g. "https://eu-app.contentstack.com/.well-known/public-keys.json" for "EU". */
  const RegionUrls: map<string, string> := map r | r in RegionHosts :: UrlScheme + RegionHosts[r] + KeysPath

  /** Seven regions, "NA" first. */
  lemma RegionsShape()
    ensures |Regions| == 7
    ensures Regions[0] == "NA"
  {
  }

  /** No region is listed twice. */
  lemma RegionsDistinct()
    ensures forall i, j :: 0 <= i < j < |Regions| ==> Regions[i] != Regions[j]
  {
  }

  /** The URL table covers exactly the listed regions. */
  lemma UrlsCoverRegions()
    ensures RegionUrls.Keys == set r | r in Regions
  {
  }

  /** An HTTPS URL whose path ends in the well-known key document. */
  predicate IsKeyEndpoint(u: string) {
    |u| > |UrlScheme| + |KeysPath| &&
    u[..|UrlScheme|] == UrlScheme &&
    u[|u| - |KeysPath|..] == KeysPath
  }

  /** The scheme, a host, then the key path, is a key endpoint. */
  lemma EndpointOfHost(host: string)
    requires host != ""
    ensures IsKeyEndpoint(UrlScheme + host + KeysPath)
  {
    var u := UrlScheme + host + KeysPath;
    assert u[..|UrlScheme|] == UrlScheme;
    assert u[|u| - |KeysPath|..] == KeysPath;
  }

  /** Every endpoint is an HTTPS URL ending in the well-known key path. */
  lemma UrlsAreKeyEndpoints()
    ensures forall r :: r in RegionUrls ==> IsKeyEndpoint(RegionUrls[r])
  {
    forall r | r in RegionUrls
      ensures IsKeyEndpoint(RegionUrls[r])
    {
      assert |RegionHosts[r]| > 0;
      EndpointOfHost(RegionHosts[r]);
    }
  }
}
