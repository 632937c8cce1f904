/** The plugin configuration: the already-parsed partner-site list and this
    site's own identifier (classes/lib.php:71-171). */
module Config {
  import opened Status

  /** One partner site. maxUpload 0 means no limit. */
  datatype Site = Site(
    id: string,
    tabLabel: string,
    token: string,
    url: string,
    maxUpload: nat,
    canSendReq: bool,
    canTakeReq: bool)

  datatype Config = Config(thisSiteId: string, sites: map<string, Site>)

  /** plugin_configured: a configuration exists, its site list is not empty
      and this site's identifier is not empty in PHP's sense. */
  predicate Configured(c: Option<Config>) {
    c.Some? && c.value.sites != map[] && !EmptyString(c.value.thisSiteId)
  }

  /** $config->sites[$id], with a missing configuration or a missing key
      both giving nothing. */
  function LookupSite(c: Option<Config>, id: string): Option<Site> {
    if c.Some? && id in c.value.sites then Some(c.value.sites[id]) else None
  }
}
