/** The "proxy" section of config.json, shared by the translator and the
    speech service. Keys may be missing; JSON null values are not modelled. */
module Settings {
  import opened Wrappers

  /** proxy.enabled (its truthiness), proxy.http, proxy.https, proxy.socks5. */
  datatype ProxyConfig = ProxyConfig(enabled: bool, http: Option<string>,
                                     https: Option<string>, socks5: Option<string>)

  /** Python truthiness of a string value that may be missing: present and non-empty. */
  predicate Truthy(o: Option<string>) {
    o.Some? && o.value != ""
  }
}
