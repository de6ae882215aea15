/** The table that selects the storage endpoint from the region code. */
module Regions {
  import opened Options

  /** The region used when none is given on the command line. */
  const DefaultRegion: string := "us"

  /** The base URL of a region; `None` is the unknown-region case, which prints the usage and exits. */
  function Host(region: string): (r: Option<string>)
    ensures r.Some? <==> region in {"ie", "nc", "us", "si", "to"}
    ensures r.Some? ==> "http://" <= r.value
  {
    if region == "ie" then Some("http://s3-eu-west-1.amazonaws.com")
    else if region == "nc" then Some("http://s3-us-west-1.amazonaws.com")
    else if region == "us" then Some("http://s3.amazonaws.com")
    else if region == "si" then Some("http://s3-ap-southeast-1.amazonaws.com")
    else if region == "to" then Some("http://s3-ap-northeast-1.amazonaws.com")
    else None
  }

  /** Without a region option the scanner targets the US Standard endpoint. */
  lemma DefaultHost()
    ensures Host(DefaultRegion) == Some("http://s3.amazonaws.com")
  {
  }

  /** No two region codes share an endpoint. */
  lemma HostInjective(a: string, b: string)
    requires Host(a).Some? && Host(a) == Host(b)
    ensures a == b
  {
  }
}
