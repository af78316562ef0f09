/** Embed provider resolution: the registered providers, lookup by id, and
    the choice of provider and embed URL for a pasted URL. Only the generic
    iframe provider is registered. */
module EmbedProvider {
  import opened Wrappers
  import opened Strings

  /** A provider: its id, display name, and the literal its pattern looks
      for. Every registered provider embeds the URL unchanged. */
  datatype Provider = Provider(id: string, name: string, pattern: string)

  /** The registry: `iframe`, whose pattern `/any-iframe/` is a plain literal. */
  const Providers: seq<Provider> := [Provider("iframe", "Iframe", "any-iframe")]

  /** `url.match(provider.regex)` for a pattern without metacharacters. */
  predicate Matches(p: Provider, url: string) {
    Contains(url, p.pattern)
  }

  /** `find` over the providers, comparing lower-cased ids. */
  function FindById(providers: seq<Provider>, id: string): (r: Option<Provider>)
    ensures r.None? <==> forall j :: 0 <= j < |providers| ==> ToLower(providers[j].id) != ToLower(id)
    ensures r.Some? ==> r.value in providers && ToLower(r.value.id) == ToLower(id)
    ensures r.Some? ==>
      exists k :: 0 <= k < |providers| && providers[k] == r.value
                  && forall j :: 0 <= j < k ==> ToLower(providers[j].id) != ToLower(id)
  {
    if providers == [] then None
    else if ToLower(providers[0].id) == ToLower(id) then Some(providers[0])
    else FindById(providers[1..], id)
  }

  /** `getEmbedProviderById` */
  function GetEmbedProviderById(id: string): Option<Provider> {
    FindById(Providers, id)
  }

  lemma LowerIframe()
    ensures ToLower("iframe") == "iframe" && ToLower("Iframe") == "iframe"
  {
    var a := ToLower("iframe");
    var b := ToLower("Iframe");
    assert a[0] == 'i' && a[1] == 'f' && a[2] == 'r' && a[3] == 'a' && a[4] == 'm' && a[5] == 'e';
    assert b[0] == 'i' && b[1] == 'f' && b[2] == 'r' && b[3] == 'a' && b[4] == 'm' && b[5] == 'e';
  }

  /** The lookup finds the iframe provider exactly for the ids that lower-case
      to "iframe" ("IFrame", "IFRAME", ...), and nothing for any other id. */
  lemma {:induction false} GetEmbedProviderByIdIff(id: string)
    ensures GetEmbedProviderById(id).Some? <==> ToLower(id) == "iframe"
    ensures GetEmbedProviderById(id).Some? ==> GetEmbedProviderById(id).value == Providers[0]
  {
    LowerIframe();
  }

  /** The first provider whose pattern matches, in registry order. */
  function FirstMatch(providers: seq<Provider>, url: string): (r: Option<Provider>)
    ensures r.None? <==> forall p :: p in providers ==> !Matches(p, url)
    ensures r.Some? ==> r.value in providers && Matches(r.value, url)
  {
    if providers == [] then None
    else if Matches(providers[0], url) then Some(providers[0])
    else FirstMatch(providers[1..], url)
  }

  datatype EmbedResult = EmbedResult(embedUrl: string, provider: string)

  /** `getEmbedUrlAndProvider`: the matching provider's lower-cased name and
      its embed URL, or the iframe fallback. */
  function GetEmbedUrlAndProvider(url: string): (r: EmbedResult)
    ensures r.embedUrl == url
    ensures r.provider == "iframe"
  {
    LowerIframe();
    match FirstMatch(Providers, url)
    case Some(p) => EmbedResult(url, ToLower(p.name))
    case None => EmbedResult(url, "iframe")
  }

  /** The registered provider matches exactly the URLs containing
      "any-iframe"; either way the result is the same. */
  lemma {:induction false} MatchIffAnyIframe(url: string)
    ensures FirstMatch(Providers, url).Some? <==> Contains(url, "any-iframe")
  {
    assert Providers[0].pattern == "any-iframe";
  }
}
