/**
  The two fixed vocabularies of the fish database loader: status abbreviations
  with their long-form labels, and region names with numeric codes. Both are
  process-wide constants; the region codes are defined but never stored.
 */
module Vocabulary {

  /** `STATUS_CODE`: status abbreviation to long-form label. */
  const StatusCode: map<string, string> := map[
    "N" := "native",
    "NN" := "non-native",
    "SOC" := "species of concern",
    "E" := "endemic",
    "I" := "introduced",
    "R" := "reported",
    "W" := "watchlist",
    "X" := "extinct"
  ]

  /** `REGION_CODE`: region name to numeric code. */
  const RegionCode: map<string, int> := map[
    "North America" := 2,
    "Great Lakes Basin" := 3,
    "Planet Earth" := 4
  ]

  /** `get_status`: the label of a known abbreviation, any other term unchanged
      (`dict.get` with the term itself as the default). */
  function GetStatus(term: string): (status: string)
    ensures term == "N" ==> status == "native"
    ensures term == "NN" ==> status == "non-native"
    ensures term == "SOC" ==> status == "species of concern"
    ensures term == "E" ==> status == "endemic"
    ensures term == "I" ==> status == "introduced"
    ensures term == "R" ==> status == "reported"
    ensures term == "W" ==> status == "watchlist"
    ensures term == "X" ==> status == "extinct"
    ensures term !in {"N", "NN", "SOC", "E", "I", "R", "W", "X"} ==> status == term
  {
    if term in StatusCode then StatusCode[term] else term
  }

  /** `get_region_code`: the code of a known region, 0 for any other string. */
  function GetRegionCode(region: string): (code: int)
    ensures region == "North America" ==> code == 2
    ensures region == "Great Lakes Basin" ==> code == 3
    ensures region == "Planet Earth" ==> code == 4
    ensures region !in {"North America", "Great Lakes Basin", "Planet Earth"} ==> code == 0
  {
    if region in RegionCode then RegionCode[region] else 0
  }

  /** A region gets a non-zero code exactly when it is one of the named ones,
      so 0 unambiguously means "unknown region". */
  lemma RegionCodeZeroIff(region: string)
    ensures GetRegionCode(region) in {0, 2, 3, 4}
    ensures GetRegionCode(region) == 0 <==> region !in RegionCode
  {
  }

  /** No label is itself an abbreviation, so a term is left unchanged exactly
      when it is not a known abbreviation. */
  lemma StatusFixedIff(term: string)
    ensures GetStatus(term) == term <==> term !in StatusCode
  {
  }

  /** Mapping an already mapped status again changes nothing. */
  lemma StatusIdempotent(term: string)
    ensures GetStatus(GetStatus(term)) == GetStatus(term)
  {
  }

  /** The stored status cannot tell an abbreviation from its spelled-out label:
      two different terms store the same status exactly when one is a known
      abbreviation and the other is its label. */
  lemma StatusCollisions(a: string, b: string)
    requires a != b
    ensures GetStatus(a) == GetStatus(b) <==>
              (a in StatusCode && StatusCode[a] == b) || (b in StatusCode && StatusCode[b] == a)
  {
  }
}
