/** The per-request handler that Use installs (handler.go): the host
    allow-list, the secure-transport test, the forced HTTPS redirect and the
    response headers. The request and the response are a Context object whose
    URL and header map the handler updates in place; whether the server runs
    in production is a parameter. */
module Handler {
  import opened Format
  import opened Secure

  /** The parts of a request URL the handler reads or changes; the rest of
      the URL (path, query, user info) is carried along unchanged. */
  datatype URL = URL(scheme: string, host: string, rest: string)

  /** A header map: canonical name to the list of its values. */
  type Header = map<string, seq<string>>

  /** The first value of a header, or "" when there is none. */
  function Get(h: Header, key: string): string
  {
    if key in h && |h[key]| > 0 then h[key][0] else ""
  }

  const MovedPermanently := 301

  /** How a request ends: a 404, a redirect that tells the client where to go,
      or handing on to the next handler. */
  datatype Outcome = NotFound | Redirect(status: int, location: URL) | Continue

  /** The request counts as secure when its URL says https, it came over TLS,
      or a proxy in front of the server says the client used https. */
  predicate IsSecure(url: URL, tls: bool, requestHeader: Header)
  {
    url.scheme == "https" || tls || Get(requestHeader, "X-Forwarded-Proto") == "https"
  }

  /** How the handler answers a request. Only in production are the host and
      the transport checked. */
  function Decide(options: Option<Options>, production: bool, url: URL, tls: bool, requestHeader: Header): Outcome
  {
    if options.Some? && production then
      var o := options.value;
      if |o.allowedHosts| > 0 && url.host !in o.allowedHosts then NotFound
      else if !IsSecure(url, tls, requestHeader) && o.sslForced then
        Redirect(MovedPermanently, url.(scheme := "https"))
      else Continue
    else Continue
  }

  /** The headers set only in production: the key pins over a secure
      connection, the transport security policy whenever it is configured. */
  function TransportHeaders(o: Options, secure: bool): map<string, string>
    requires Valid(Some(o))
  {
    var m0: map<string, string> := map[];
    var m1 := if secure && o.hpkp.Some? then m0["Public-Key-Pins" := HPKPValue(o.hpkp.value)] else m0;
    if o.hsts.Some? then m1["Strict-Transport-Security" := HSTSValue(o.hsts.value)] else m1
  }

  /** The headers set in every mode, added after those in m: the three
      content security policy headers, the frame policy and the two that are
      always set. Names are in the canonical form Set stores them under, so
      X-WebKit-CSP appears as X-Webkit-Csp and X-XSS-Protection as
      X-Xss-Protection. */
  function PageHeaders(options: Option<Options>, m: map<string, string>): map<string, string>
  {
    var m3 :=
      if options.Some? && options.value.csp != ""
      then m["Content-Security-Policy" := options.value.csp]
            ["X-Content-Security-Policy" := options.value.csp]
            ["X-Webkit-Csp" := options.value.csp]
      else m;
    var m4 := if options.None? || !options.value.frameAllowed then m3["X-Frame-Options" := "SAMEORIGIN"] else m3;
    m4["X-Content-Type-Options" := "nosniff"]["X-Xss-Protection" := "1; mode=block"]
  }

  /** The headers the handler sets on a request it lets through, as a map
      from name to value. */
  function Emitted(options: Option<Options>, production: bool, secure: bool): map<string, string>
    requires Valid(options)
  {
    PageHeaders(options, if options.Some? && production then TransportHeaders(options.value, secure) else map[])
  }

  /** A header map after Set has been called with every entry of m: those
      names hold exactly their one new value, every other name is as it
      was. */
  function Overlay(h: Header, m: map<string, string>): (r: Header)
    ensures r.Keys == h.Keys + m.Keys
    ensures forall k :: k in m ==> r[k] == [m[k]]
    ensures forall k :: k in h && k !in m ==> r[k] == h[k]
  {
    map k | k in h.Keys + m.Keys :: if k in m then [m[k]] else h[k]
  }

  lemma OverlayEmpty(h: Header)
    ensures Overlay(h, map[]) == h
  {
  }

  /** One more Set on top of an overlay. */
  lemma OverlaySet(h: Header, m: map<string, string>, key: string, value: string)
    ensures Overlay(h, m)[key := [value]] == Overlay(h, m[key := value])
  {
    var a, b := Overlay(h, m)[key := [value]], Overlay(h, m[key := value]);
    assert a.Keys == b.Keys;
    forall k | k in a.Keys
      ensures a[k] == b[k]
    {
    }
  }

  /** Linear search of the allow-list, stopping at the first entry equal to
      the host. */
  method FindHost(hosts: seq<string>, host: string) returns (found: bool)
    ensures found <==> host in hosts
  {
    var i := 0;
    while i < |hosts|
      invariant 0 <= i <= |hosts|
      invariant forall j :: 0 <= j < i ==> hosts[j] != host
    {
      if hosts[i] == host {
        return true;
      }
      i := i + 1;
    }
    return false;
  }

  /** A request being served: its URL (which the redirect rewrites), whether
      it came over TLS, its headers, the response header map, and how many
      times the next handler has been run. */
  class Context {
    var url: URL
    const tls: bool
    const requestHeader: Header
    var header: Header
    var nextCalls: nat

    constructor (url: URL, tls: bool, requestHeader: Header)
      ensures this.url == url && this.tls == tls && this.requestHeader == requestHeader
      ensures header == map[] && nextCalls == 0
    {
      this.url := url;
      this.tls := tls;
      this.requestHeader := requestHeader;
      header := map[];
      nextCalls := 0;
    }

    /** Header().Set: the name now holds exactly this one value. The name is
        given in canonical form (the form Set stores it under), so no
        canonicalisation happens here. */
    method Set(key: string, value: string)
      modifies this`header
      ensures header == old(header)[key := [value]]
    {
      header := header[key := [value]];
    }

    /** Hands the request on to the next handler, whose work is not part of
        this model. */
    method Next()
      modifies this`nextCalls
      ensures nextCalls == old(nextCalls) + 1
    {
      nextCalls := nextCalls + 1;
    }

    /** Set, keeping track of the entries set so far on top of h. */
    method SetTracked(ghost h: Header, ghost m: map<string, string>, key: string, value: string)
      requires header == Overlay(h, m)
      modifies this`header
      ensures header == Overlay(h, m[key := value])
    {
      OverlaySet(h, m, key, value);
      Set(key, value);
    }

    /** The production-only part after the checks: the Public-Key-Pins
        header over a secure connection and the Strict-Transport-Security
        header, each from its builder. */
    method SetTransportHeaders(o: Options, isSSL: bool, ghost h: Header)
      requires Valid(Some(o)) && header == h
      modifies this`header
      ensures header == Overlay(h, TransportHeaders(o, isSSL))
    {
      ghost var m: map<string, string> := map[];
      OverlayEmpty(h);
      if isSSL && o.hpkp.Some? {
        var v, err := HPKPHeader(o);
        if err.Some? {
          assert false;
        }
        SetTracked(h, m, "Public-Key-Pins", v);
        m := m["Public-Key-Pins" := v];
      }
      if o.hsts.Some? {
        var v, err := HSTSHeader(o);
        if err.Some? {
          assert false;
        }
        SetTracked(h, m, "Strict-Transport-Security", v);
        m := m["Strict-Transport-Security" := v];
      }
    }

    /** The part that runs in every mode: the content security policy, the
        frame policy and the two headers that are always set. */
    method SetPageHeaders(options: Option<Options>, ghost h: Header, ghost m: map<string, string>)
      requires header == Overlay(h, m)
      modifies this`header
      ensures header == Overlay(h, PageHeaders(options, m))
    {
      ghost var m' := m;
      if options.Some? && options.value.csp != "" {
        var csp := options.value.csp;
        SetTracked(h, m', "Content-Security-Policy", csp);
        m' := m'["Content-Security-Policy" := csp];
        SetTracked(h, m', "X-Content-Security-Policy", csp);
        m' := m'["X-Content-Security-Policy" := csp];
        SetTracked(h, m', "X-Webkit-Csp", csp);
        m' := m'["X-Webkit-Csp" := csp];
      }
      if options.None? || !options.value.frameAllowed {
        SetTracked(h, m', "X-Frame-Options", "SAMEORIGIN");
        m' := m'["X-Frame-Options" := "SAMEORIGIN"];
      }
      SetTracked(h, m', "X-Content-Type-Options", "nosniff");
      m' := m'["X-Content-Type-Options" := "nosniff"];
      SetTracked(h, m', "X-Xss-Protection", "1; mode=block");
    }

    /** The handler itself. Options that passed Use never make a builder
        fail, so the panics of the request path cannot happen. */
    method Serve(options: Option<Options>, production: bool) returns (out: Outcome)
      requires Valid(options)
      modifies this
      ensures out == Decide(options, production, old(url), tls, requestHeader)
      ensures out.Redirect? ==> url == out.location && header == old(header)
      ensures !out.Redirect? ==> url == old(url)
      ensures out.NotFound? ==> header == old(header)
      ensures out.Continue? ==>
        header == Overlay(old(header), Emitted(options, production, IsSecure(old(url), tls, requestHeader)))
      ensures nextCalls == old(nextCalls) + (if out.Continue? then 1 else 0)
    {
      ghost var h := header;
      ghost var m: map<string, string> := map[];
      if options.Some? && production {
        var o := options.value;
        if |o.allowedHosts| > 0 {
          var found := FindHost(o.allowedHosts, url.host);
          if !found {
            return NotFound;
          }
        }
        var isSSL := url.scheme == "https" || tls || Get(requestHeader, "X-Forwarded-Proto") == "https";
        if !isSSL && o.sslForced {
          url := url.(scheme := "https");
          return Redirect(MovedPermanently, url);
        }
        SetTransportHeaders(o, isSSL, h);
        m := TransportHeaders(o, isSSL);
      } else {
        OverlayEmpty(h);
      }
      SetPageHeaders(options, h, m);
      Next();
      return Continue;
    }
  }

  /** In production with a non-empty allow-list, a request is answered with
      404 exactly when its host is not on the list. */
  lemma HostGate(options: Option<Options>, production: bool, url: URL, tls: bool, requestHeader: Header)
    requires options.Some? && production && |options.value.allowedHosts| > 0
    ensures Decide(options, production, url, tls, requestHeader) == NotFound
      <==> url.host !in options.value.allowedHosts
  {
  }

  /** In production, once the host is allowed, the request is redirected
      exactly when it is not secure and SSL is forced; the redirect is
      permanent and goes to the same URL with the https scheme. */
  lemma ForcedRedirect(options: Option<Options>, production: bool, url: URL, tls: bool, requestHeader: Header)
    requires options.Some? && production
    requires |options.value.allowedHosts| == 0 || url.host in options.value.allowedHosts
    ensures Decide(options, production, url, tls, requestHeader).Redirect?
      <==> !IsSecure(url, tls, requestHeader) && options.value.sslForced
    ensures Decide(options, production, url, tls, requestHeader).Redirect? ==>
      var r := Decide(options, production, url, tls, requestHeader);
      r.status == 301 && r.location.scheme == "https" && r.location.host == url.host && r.location.rest == url.rest
    ensures !Decide(options, production, url, tls, requestHeader).Redirect? ==>
      Decide(options, production, url, tls, requestHeader) == Continue
  {
  }

  /** Outside production, and with no options, every request goes on to the
      next handler. */
  lemma AlwaysContinues(options: Option<Options>, production: bool, url: URL, tls: bool, requestHeader: Header)
    requires !production || options.None?
    ensures Decide(options, production, url, tls, requestHeader) == Continue
  {
  }

  /** Which headers a request that goes through receives, and their values. */
  lemma EmittedHeaders(options: Option<Options>, production: bool, secure: bool)
    requires Valid(options)
    ensures var m := Emitted(options, production, secure);
      && ("Public-Key-Pins" in m <==> options.Some? && production && secure && options.value.hpkp.Some?)
      && ("Public-Key-Pins" in m ==> m["Public-Key-Pins"] == HPKPValue(options.value.hpkp.value))
      && ("Strict-Transport-Security" in m <==> options.Some? && production && options.value.hsts.Some?)
      && ("Strict-Transport-Security" in m ==> m["Strict-Transport-Security"] == HSTSValue(options.value.hsts.value))
    ensures var m := Emitted(options, production, secure);
      && ("Content-Security-Policy" in m <==> options.Some? && options.value.csp != "")
      && ("X-Content-Security-Policy" in m <==> options.Some? && options.value.csp != "")
      && ("X-Webkit-Csp" in m <==> options.Some? && options.value.csp != "")
      && ("Content-Security-Policy" in m ==>
            m["Content-Security-Policy"] == m["X-Content-Security-Policy"] == m["X-Webkit-Csp"] == options.value.csp)
    ensures var m := Emitted(options, production, secure);
      && ("X-Frame-Options" in m <==> options.None? || !options.value.frameAllowed)
      && ("X-Frame-Options" in m ==> m["X-Frame-Options"] == "SAMEORIGIN")
      && "X-Content-Type-Options" in m && m["X-Content-Type-Options"] == "nosniff"
      && "X-Xss-Protection" in m && m["X-Xss-Protection"] == "1; mode=block"
    ensures Emitted(options, production, secure).Keys <=
      {"Public-Key-Pins", "Strict-Transport-Security", "Content-Security-Policy", "X-Content-Security-Policy",
       "X-Webkit-Csp", "X-Frame-Options", "X-Content-Type-Options", "X-Xss-Protection"}
  {
  }

  /** With no options only the frame policy and the two headers that are
      always set are sent. */
  lemma NilOptionsHeaders(production: bool, secure: bool)
    ensures Emitted(None, production, secure) ==
      map["X-Frame-Options" := "SAMEORIGIN", "X-Content-Type-Options" := "nosniff", "X-Xss-Protection" := "1; mode=block"]
  {
  }

  /** With valid options in production, a request that is let through while
      HSTS is configured is a secure one: HSTS requires forced SSL, so an
      insecure request to an allowed host is redirected instead. */
  lemma HSTSOnlyOverSecure(options: Option<Options>, url: URL, tls: bool, requestHeader: Header)
    requires Valid(options) && options.Some? && options.value.hsts.Some?
    requires |options.value.allowedHosts| == 0 || url.host in options.value.allowedHosts
    ensures Decide(options, true, url, tls, requestHeader) == Continue <==> IsSecure(url, tls, requestHeader)
    ensures !IsSecure(url, tls, requestHeader) ==>
      Decide(options, true, url, tls, requestHeader) == Redirect(MovedPermanently, url.(scheme := "https"))
  {
    ValidHSTSImpliesSSLForced(options);
  }
}
