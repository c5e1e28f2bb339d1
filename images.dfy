/**
 Image resolution applied to every record the catalogue endpoint returns:
 absolute links are kept, relative paths are served from the media directory
 of the API host, and listings without an image get a fixed placeholder.
 */
module Images {
  import opened Catalog

  /** The host used when no API URL is configured. */
  const DefaultApiUrl: string := "http://localhost:8000"

  const MediaPath: string := "/media/"

  /** The placeholder image, https://placehold.co/600x400/003366/ffffff?text=No+Image,
      written as scheme plus rest so that its prefix is evident to the verifier. */
  const Placeholder: string := "https://" + "placehold.co/600x400/003366/ffffff?text=No+Image"

  predicate StartsWith(s: string, prefix: string) {
    |prefix| <= |s| && s[..|prefix|] == prefix
  }

  predicate IsAbsolute(image: string) {
    StartsWith(image, "http")
  }

  /** The URL the page displays for a record's image field. */
  function ResolveImage(apiUrl: string, image: string): (url: string)
    ensures image != "" && IsAbsolute(image) ==> url == image
    ensures image != "" && !IsAbsolute(image) ==>
              StartsWith(url, apiUrl + MediaPath) && url[|apiUrl + MediaPath|..] == image
    ensures image == "" ==> url == Placeholder
    ensures url != ""
  {
    if image != "" then
      if IsAbsolute(image) then image else apiUrl + MediaPath + image
    else
      Placeholder
  }

  /** Resolution is idempotent as long as the API host is itself an http(s) URL:
      every URL it produces is already absolute. */
  lemma ResolvedImageIsAbsolute(apiUrl: string, image: string)
    requires IsAbsolute(apiUrl)
    ensures IsAbsolute(ResolveImage(apiUrl, image))
    ensures ResolveImage(apiUrl, ResolveImage(apiUrl, image)) == ResolveImage(apiUrl, image)
  {
    var url := ResolveImage(apiUrl, image);
    if image != "" && !IsAbsolute(image) {
      assert url == apiUrl + (MediaPath + image);
      assert url[..4] == apiUrl[..4];
    } else if image == "" {
      assert Placeholder[..4] == "https://"[..4];
    }
  }

  /** With the fallback host, resolving an already resolved image changes nothing. */
  lemma DefaultHostResolutionIsIdempotent(image: string)
    ensures IsAbsolute(DefaultApiUrl)
    ensures ResolveImage(DefaultApiUrl, ResolveImage(DefaultApiUrl, image)) == ResolveImage(DefaultApiUrl, image)
  {
    assert DefaultApiUrl[..4] == "http";
    ResolvedImageIsAbsolute(DefaultApiUrl, image);
  }

  /** The fetch callback's map over the response: only the image changes. */
  function ResolveAll(apiUrl: string, records: seq<Bike>): (bikes: seq<Bike>)
    ensures |bikes| == |records|
    ensures forall i :: 0 <= i < |records| ==>
              bikes[i].image == ResolveImage(apiUrl, records[i].image) &&
              bikes[i].(image := records[i].image) == records[i]
  {
    seq(|records|, i requires 0 <= i < |records| =>
      records[i].(image := ResolveImage(apiUrl, records[i].image)))
  }
}
