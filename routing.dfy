/** The two decisions the plugin takes on a slug's post type: how `get` routes a landing-page request,
    and which status the settings page shows next to a domain. */
module Routing {
  import opened PhpStrings

  /** The post types the plugin serves on a landing domain. */
  const SupportedPostTypes: seq<string> := ["page", "post", "cartflows_step"]

  /** What `get` does to the request. */
  datatype Routing = Unchanged | AsPage(slug: string) | AsPost(slug: string)

  /** PHP truthiness of a post type as the posts query returns it: null, "" and "0" are falsy. */
  predicate Found(postType: Option<string>)
  {
    postType.Some? && Truthy(postType.value)
  }

  /** get: nothing without a landing slug or without a published post of that slug; a page is routed
      as a page, another supported type as a single post, any other type is left alone. */
  function Route(slug: Option<string>, postType: Option<string>): (r: Routing)
    ensures r.AsPage? <==> slug.Some? && postType == Some("page")
    ensures r.AsPost? <==> slug.Some? && Found(postType) && postType.value != "page"
                           && postType.value in SupportedPostTypes
    ensures !r.Unchanged? ==> r.slug == slug.value
  {
    if slug.None? || !Found(postType) then Unchanged
    else if postType.value == "page" then AsPage(slug.value)
    else if postType.value in SupportedPostTypes then AsPost(slug.value)
    else Unchanged
  }

  /** The status shown next to a domain on the settings page. */
  datatype Status =
    | Unverified                       // TXT record could not be verified
    | NotSupported(postType: string)   // the slug's post type is not served
    | InCanonicals(postType: string)   // served, and canonical urls point to the domain
    | Serving(postType: string)        // served, canonical urls not in use
    | SlugNotFound                     // no post carries the slug, or the slug is empty
    | Silent                           // supported type, but the slug is not in the blog's canonicals

  /** The status decision of the settings field callback. */
  function AdminStatus(approved: bool, postType: Option<string>, slug: string, inCanonicals: bool, useCanonical: bool): (st: Status)
    ensures !approved <==> st == Unverified
    ensures st == SlugNotFound <==> approved && !(Found(postType) && Truthy(slug))
    ensures st.NotSupported? <==> approved && Found(postType) && Truthy(slug) && postType.value !in SupportedPostTypes
    ensures st.InCanonicals? || st.Serving? <==>
      approved && Found(postType) && Truthy(slug) && postType.value in SupportedPostTypes && inCanonicals
    ensures st.InCanonicals? ==> useCanonical
    ensures st.Serving? ==> !useCanonical
    ensures st.NotSupported? || st.InCanonicals? || st.Serving? ==> st.postType == postType.value
  {
    if !approved then Unverified
    else if Found(postType) && Truthy(slug) then
      if postType.value !in SupportedPostTypes then NotSupported(postType.value)
      else if inCanonicals then (if useCanonical then InCanonicals(postType.value) else Serving(postType.value))
      else Silent
    else SlugNotFound
  }

  /** A domain the settings page reports as served routes its slug, provided the request sees the same
      post type; one reported as not supported leaves the request alone. */
  lemma StatusAgreesWithRoute(approved: bool, postType: Option<string>, slug: string, inCanonicals: bool, useCanonical: bool)
    ensures var st := AdminStatus(approved, postType, slug, inCanonicals, useCanonical);
      (st.InCanonicals? || st.Serving? ==> Route(Some(slug), postType) != Unchanged)
      && (st.NotSupported? ==> Route(Some(slug), postType) == Unchanged)
  {
  }
}
