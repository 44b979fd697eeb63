/** Connection set-up of the execution module (`_get_client`): an HTTPS attempt,
    an optional single HTTP fallback, and the rewrite of `localhost` in the
    endpoint address the service description advertises. Building a SOAP client
    is foreign code; each attempt is an input saying how it ended. */
module HostAgentClient {
  import opened Optional
  import opened Text

  /** How one attempt to fetch the service description and build a client ended. */
  datatype Attempt =
    | Built(bindingAddress: string)   // a client whose service is bound to this address
    | SslFailure                      // `requests.exceptions.SSLError`
    | OtherFailure                    // any other exception

  /** What `_get_client` returns: Python `None`, `False`, or a client. `verified`
      is false once the session's certificate check was switched off for HTTP. */
  datatype Conn = NoneClient | FalseClient | Client(address: string, verified: bool) {
    /** Python truthiness of the returned value. */
    predicate Truthy() { Client? }
  }

  const LOCALHOST := "localhost"

  function HttpsUrl(fqdn: string): string { "https://" + fqdn + ":1129/SAPHostControl/?wsdl" }

  function HttpUrl(fqdn: string): string { "http://" + fqdn + ":1128/SAPHostControl/?wsdl" }

  /** The host name to contact: the `fqdn` argument unless it is empty or `None`
      (both written `""` here), then the minion's own FQDN grain. */
  function EffectiveFqdn(fqdn: string, grainsFqdn: string): string {
    if fqdn == "" then grainsFqdn else fqdn
  }

  /** The endpoint a client talks to: the advertised address with its first
      `localhost` replaced by the host name. */
  function ServiceAddress(advertised: string, fqdn: string): string {
    ReplaceFirst(advertised, LOCALHOST, fqdn)
  }

  /** The rewrite touches only the first `localhost`: everything before it and
      everything after it, later occurrences included, is kept. */
  lemma ServiceAddressRewritesFirstOnly(advertised: string, fqdn: string, i: nat)
    requires OccursAt(advertised, LOCALHOST, i)
    requires forall j :: 0 <= j < i ==> !OccursAt(advertised, LOCALHOST, j)
    ensures ServiceAddress(advertised, fqdn) == advertised[..i] + fqdn + advertised[i + |LOCALHOST|..]
    ensures advertised == advertised[..i] + LOCALHOST + advertised[i + |LOCALHOST|..]
  {
    ReplaceFirstAt(advertised, LOCALHOST, fqdn, i);
    assert advertised[i..i + |LOCALHOST|] == LOCALHOST;
    assert advertised == advertised[..i] + advertised[i..i + |LOCALHOST|] + advertised[i + |LOCALHOST|..];
  }

  /** `_get_client`: try HTTPS; only if that produced no client and `fallback`
      is set, try HTTP once, with certificate verification off; a failed HTTP
      attempt returns `False`. A client's address is rewritten before return.
      `tried` lists the service-description URLs requested, in order. */
  method GetClient(fallback: bool, fqdnArg: string, grainsFqdn: string, https: Attempt, http: Attempt)
    returns (client: Conn, tried: seq<string>)
    ensures tried == [HttpsUrl(EffectiveFqdn(fqdnArg, grainsFqdn))] +
      (if fallback && !https.Built? then [HttpUrl(EffectiveFqdn(fqdnArg, grainsFqdn))] else [])
    ensures https.Built? ==>
      client == Client(ServiceAddress(https.bindingAddress, EffectiveFqdn(fqdnArg, grainsFqdn)), true)
    ensures !https.Built? && !fallback ==> !client.Truthy()
    ensures !https.Built? && !fallback ==> (client == FalseClient <==> https.SslFailure?)
    ensures !https.Built? && fallback && !http.Built? ==> client == FalseClient
    ensures !https.Built? && fallback && http.Built? ==>
      client == Client(ServiceAddress(http.bindingAddress, EffectiveFqdn(fqdnArg, grainsFqdn)), false)
  {
    var fqdn := EffectiveFqdn(fqdnArg, grainsFqdn);
    var verified := true;
    tried := [HttpsUrl(fqdn)];
    client := NoneClient;
    match https {
      case Built(address) => client := Client(address, verified);
      case SslFailure => client := FalseClient;
      case OtherFailure =>
    }
    if fallback && !client.Truthy() {
      verified := false;
      tried := tried + [HttpUrl(fqdn)];
      match http {
        case Built(address) => client := Client(address, verified);
        case _ =>
          client := FalseClient;
          return;
      }
    }
    if client.Client? {
      client := client.(address := ServiceAddress(client.address, fqdn));
    }
  }

  /** The endpoint `list_database_systems` and `get_database_status` call: they
      apply the `localhost` rewrite a second time to the client `_get_client`
      already rewrote. That is harmless exactly when the once-rewritten
      address no longer contains `localhost` or the host name is `localhost`. */
  function DatabaseEndpointAsWritten(advertised: string, fqdn: string): (r: string)
    ensures r == ServiceAddress(advertised, fqdn) <==>
              (forall j :: !OccursAt(ServiceAddress(advertised, fqdn), LOCALHOST, j)) || fqdn == LOCALHOST
  {
    ServiceAddress(ServiceAddress(advertised, fqdn), fqdn)
  }

  /** An address whose first `localhost` follows a `localhost`-free scheme
      prefix (such as `http://`) has that one rewritten. */
  lemma RewriteAfterScheme(scheme: string, rest: string, fqdn: string)
    requires 'l' !in scheme
    ensures ServiceAddress(scheme + LOCALHOST + rest, fqdn) == scheme + fqdn + rest
  {
    var a := scheme + LOCALHOST + rest;
    assert a[|scheme|..|scheme| + |LOCALHOST|] == LOCALHOST;
    forall j | 0 <= j < |scheme| ensures !OccursAt(a, LOCALHOST, j) {
      assert a[j] == scheme[j];
    }
    ReplaceFirstAt(a, LOCALHOST, fqdn, |scheme|);
    assert a[..|scheme|] == scheme && a[|scheme| + |LOCALHOST|..] == rest;
  }

  /** With a host name that extends `localhost` (`localhost.lan`, say), the
      second rewrite repeats the extension: `http://localhost:1128/` becomes
      `http://localhost.lan.lan:1128/` instead of `http://localhost.lan:1128/`. */
  lemma DoubleRewriteCorruptsEndpoint(scheme: string, rest: string, suffix: string)
    requires 'l' !in scheme
    ensures ServiceAddress(scheme + LOCALHOST + rest, LOCALHOST + suffix) == scheme + LOCALHOST + suffix + rest
    ensures DatabaseEndpointAsWritten(scheme + LOCALHOST + rest, LOCALHOST + suffix) ==
      scheme + LOCALHOST + suffix + suffix + rest
    ensures suffix != [] ==>
      DatabaseEndpointAsWritten(scheme + LOCALHOST + rest, LOCALHOST + suffix) !=
      ServiceAddress(scheme + LOCALHOST + rest, LOCALHOST + suffix)
  {
    var fqdn := LOCALHOST + suffix;
    RewriteAfterScheme(scheme, rest, fqdn);
    assert scheme + fqdn + rest == scheme + LOCALHOST + (suffix + rest);
    RewriteAfterScheme(scheme, suffix + rest, fqdn);
    assert scheme + fqdn + (suffix + rest) == scheme + LOCALHOST + suffix + suffix + rest;
  }
}
