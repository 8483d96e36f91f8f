/**
 * The request handler of the TLS-terminating reverse proxy: it forwards each
 * decrypted request to one fixed plain-HTTP backend and relays the reply.
 *
 * The handler is modelled as the code has it. The scheme-upgrade redirect does
 * not end the handler, so the request is still forwarded after the 301 has
 * been written; and a failed backend call does not end it either. After the
 * 502, a call that returned no response reaches the release of a response
 * that does not exist and panics. A call that returned a response along with
 * its error (a redirect the client refused to follow) goes on to relay that
 * response's header.
 */
module Proxy {
  import opened Wrappers
  import opened Headers

  /** A URL as the scheme and everything after "scheme:". */
  datatype Url = Url(scheme: string, rest: string)

  /** The text of a URL: "scheme:rest", or rest alone when there is no scheme. */
  function UrlString(u: Url): string {
    if u.scheme == "" then u.rest else u.scheme + ":" + u.rest
  }

  /**
   * What the backend call came back with: a response and no error; an error
   * and no response; or, when the client refuses to follow a redirect (after
   * ten of them, by default), that redirect response together with the error.
   */
  datatype BackendReply =
    | Reply(status: int, header: Fields)
    | Unreachable
    | RedirectRefused(status: int, header: Fields)

  /** How the handler ends: it returns, or it panics on the missing response. */
  datatype Exit = Returned | NilResponsePanic

  /** The address of the forwarded request: the backend address, then the request-URI as received. */
  function BackendTarget(proxyTo: string, requestUri: string): (r: string)
    ensures |r| == 7 + |proxyTo| + |requestUri|
    ensures r[..7] == "http://"
    ensures r[7..7 + |proxyTo|] == proxyTo
    ensures r[7 + |proxyTo|..] == requestUri
  {
    "http://" + proxyTo + requestUri
  }

  /** The forwarded request's URL: the target above, read back as scheme "http" and the rest. */
  function BackendUrl(proxyTo: string, requestUri: string): (u: Url)
    ensures u.scheme == "http"
    ensures UrlString(u) == BackendTarget(proxyTo, requestUri)
  {
    var u := Url("http", "//" + proxyTo + requestUri);
    assert UrlString(u) == "http" + ":" + ("//" + proxyTo + requestUri);
    assert "http" + ":" + "//" == "http://";
    u
  }

  /**
   * The header of the forwarded request: the inbound header without its
   * hop-by-hop fields, and with the client host added to the forwarding chain
   * when the remote address split into host and port.
   */
  function OutboundFields(h: Fields, remote: Option<(string, string)>): (r: Fields)
    ensures forall k :: IsHop(k) ==> k !in r
    ensures forall k :: k != XForwardedFor && !IsHop(k) ==> (k in r <==> k in h)
    ensures forall k :: k in r && k != XForwardedFor ==> r[k] == h[k]
    ensures remote.None? ==> r == Stripped(h)
    ensures remote.Some? ==> XForwardedFor in r && |r[XForwardedFor]| == 1
  {
    match remote
    case None => Stripped(h)
    case Some((host, _)) => WithForwardedFor(Stripped(h), host)
  }

  /**
   * An HTTP request; the same shape serves the inbound and the forwarded one.
   * The constructor builds an outgoing request the way http.NewRequest does:
   * the method and URL given, an empty header of its own, and no request-URI
   * (that field belongs to requests a server has received).
   */
  class Request {
    var verb: string
    var url: Url
    var requestUri: string
    var header: HeaderMap

    constructor (verb: string, url: Url)
      ensures this.verb == verb && this.url == url
      ensures this.requestUri == ""
      ensures fresh(header) && header.fields == map[]
    {
      this.verb := verb;
      this.url := url;
      this.requestUri := "";
      this.header := new HeaderMap(map[]);
    }
  }

  /**
   * The writer of the client's response: a live header collection, the status
   * once written, and the header collection as it stood when the status went
   * out. Only the first status written takes effect; header changes made
   * after it do not reach the client.
   */
  class ResponseWriter {
    const header: HeaderMap
    var status: Option<int>
    var sent: Fields

    constructor ()
      ensures fresh(header) && header.fields == map[]
      ensures status == None && sent == map[]
    {
      header := new HeaderMap(map[]);
      status := None;
      sent := map[];
    }

    /** Writes the status line with the current header, unless a status is already out. */
    method WriteHeader(code: int)
      modifies this
      ensures status == if old(status).None? then Some(code) else old(status)
      ensures sent == if old(status).None? then header.fields else old(sent)
    {
      if status.None? {
        status := Some(code);
        sent := header.fields;
      }
    }

    /** Sends a redirect: the Location field, then the status. */
    method Redirect(location: string, code: int)
      modifies this, header
      ensures header.fields == old(header.fields)[Location := [location]]
      ensures status == if old(status).None? then Some(code) else old(status)
      ensures sent == if old(status).None? then header.fields else old(sent)
    {
      header.Set(Location, location);
      WriteHeader(code);
    }
  }

  /** The field naming the target of a redirect. */
  const Location: string := "Location"

  /** The handler, holding the backend address every request is forwarded to. */
  class ReverseProxy {
    const proxyTo: string

    constructor (proxyTo: string)
      ensures this.proxyTo == proxyTo
    {
      this.proxyTo := proxyTo;
    }

    /**
     * Handles one request. remote is the client's address split into host and
     * port, or None when it does not split; backend is what the call to the
     * backend returned for the forwarded request.
     */
    method ServeHTTP(w: ResponseWriter, r: Request, remote: Option<(string, string)>, backend: BackendReply)
      returns (outbound: Request, exit: Exit)
      requires w.status == None
      requires w.header != r.header
      modifies w, w.header, r, r.header
      // the inbound request: scheme upgraded when plain, header stripped and extended in place
      ensures r.url == if old(r.url.scheme) == "http" then old(r.url).(scheme := "https") else old(r.url)
      ensures r.verb == old(r.verb) && r.requestUri == old(r.requestUri) && r.header == old(r.header)
      ensures r.header.fields == OutboundFields(old(r.header.fields), remote)
      // the forwarded request: same method, the backend address, and the inbound header object itself
      ensures fresh(outbound)
      ensures outbound.verb == old(r.verb)
      ensures outbound.url.scheme == "http"
      ensures UrlString(outbound.url) == BackendTarget(proxyTo, old(r.requestUri))
      ensures outbound.requestUri == ""
      ensures outbound.header == r.header
      // the client's response
      ensures exit == if backend.Unreachable? then NilResponsePanic else Returned
      ensures old(r.url.scheme) == "http" ==>
                var redirected := old(w.header.fields)[Location := [UrlString(old(r.url).(scheme := "https"))]];
                && w.status == Some(301)
                && w.sent == redirected
                && w.header.fields == (if backend.Unreachable? then redirected else Merged(redirected, Stripped(backend.header)))
      ensures old(r.url.scheme) != "http" && !backend.Reply? ==>
                && w.status == Some(502)
                && w.sent == old(w.header.fields)
                && w.header.fields ==
                     (if backend.Unreachable? then old(w.header.fields) else Merged(old(w.header.fields), Stripped(backend.header)))
      ensures old(r.url.scheme) != "http" && backend.Reply? ==>
                && w.status == Some(backend.status)
                && w.sent == Merged(old(w.header.fields), Stripped(backend.header))
                && w.header.fields == w.sent
    {
      if r.url.scheme == "http" {
        r.url := r.url.(scheme := "https");
        w.Redirect(UrlString(r.url), 301);
      }

      outbound := Forward(r, remote);
      exit := RelayResponse(w, backend);
    }

    /**
     * The request half of the handler: a new request to the backend with the
     * inbound method, whose header is the inbound header object itself, with
     * its hop-by-hop fields removed and the client host added to the chain.
     */
    method Forward(r: Request, remote: Option<(string, string)>) returns (outbound: Request)
      modifies r.header
      ensures r.header.fields == OutboundFields(old(r.header.fields), remote)
      ensures fresh(outbound)
      ensures outbound.verb == r.verb
      ensures outbound.url.scheme == "http"
      ensures UrlString(outbound.url) == BackendTarget(proxyTo, r.requestUri)
      ensures outbound.requestUri == ""
      ensures outbound.header == r.header
    {
      outbound := new Request(r.verb, BackendUrl(proxyTo, r.requestUri));

      DelHopHeaders(r.header);

      outbound.header := r.header;

      if remote.Some? {
        AppendHostToXForwardHeader(outbound.header, remote.value.0);
      }
    }
  }

  /**
   * The response half of the handler. A failed backend call gives the 502 of
   * http.Error, and the handler goes on: with no response it panics on the
   * missing one; otherwise the response has its hop-by-hop fields removed,
   * the rest is appended to the writer's header, and its status is written,
   * which takes effect only when no status is out yet.
   */
  method RelayResponse(w: ResponseWriter, backend: BackendReply) returns (exit: Exit)
    modifies w, w.header
    ensures exit == if backend.Unreachable? then NilResponsePanic else Returned
    ensures w.header.fields ==
              if backend.Unreachable? then old(w.header.fields)
              else Merged(old(w.header.fields), Stripped(backend.header))
    ensures var code := if backend.Reply? then backend.status else 502;
            w.status == if old(w.status).None? then Some(code) else old(w.status)
    ensures w.sent ==
              if old(w.status).Some? then old(w.sent)
              else if backend.Reply? then w.header.fields
              else old(w.header.fields)
  {
    if !backend.Reply? {
      w.WriteHeader(502);
    }
    if backend.Unreachable? {
      exit := NilResponsePanic;
    } else {
      var respHeader := new HeaderMap(backend.header);
      DelHopHeaders(respHeader);
      CopyHeader(w.header, respHeader);
      w.WriteHeader(backend.status);
      exit := Returned;
    }
  }

  // ---------------------------------------------------------------------------
  // Properties

  /**
   * The forwarding chain of the forwarded request: the host alone when the
   * client sent none, and the client's chain then the host when it sent a
   * non-empty one. The port never enters the chain.
   */
  lemma OutboundChain(h: Fields, host: string, port: string)
    ensures XForwardedFor !in h ==> OutboundFields(h, Some((host, port)))[XForwardedFor] == [host]
    ensures XForwardedFor in h && h[XForwardedFor] != [] ==>
              OutboundFields(h, Some((host, port)))[XForwardedFor] == [Chain.Join(h[XForwardedFor] + [host], Chain.Sep)]
  {
    if XForwardedFor in h && h[XForwardedFor] != [] {
      ForwardedChainExtends(Stripped(h), host);
    }
  }

  /**
   * What reaches the client on the relayed path: a hop-by-hop name is there
   * only when the writer held it already, with the writer's own values; every
   * other name the backend sent arrives after the writer's values, in order.
   */
  lemma RelayedFields(prior: Fields, backend: Fields)
    ensures forall k :: IsHop(k) ==>
              (k in Merged(prior, Stripped(backend)) <==> k in prior) &&
              (k in prior ==> Merged(prior, Stripped(backend))[k] == prior[k])
    ensures forall k :: !IsHop(k) ==>
              Values(Merged(prior, Stripped(backend)), k) == Values(prior, k) + Values(backend, k)
  {
  }

  /** The example exchange: status 200 with "X-App: ok" and a hop-by-hop field reaches a fresh writer as 200 with "X-App: ok" alone. */
  lemma RelayExample()
    ensures Merged(map[], Stripped(map["X-App" := ["ok"], "Connection" := ["close"]])) == map["X-App" := ["ok"]]
  {
    var s := map["X-App" := ["ok"], "Connection" := ["close"]];
    assert IsHop("Connection");
    assert !IsHop("X-App");
    assert Stripped(s) == map["X-App" := ["ok"]];
    MergedIntoEmpty(Stripped(s));
  }
}
