# Security headers handler, modelled in Dafny

This project models `handler.go` of the `secure` package, a handler for the
`volatile/core` web framework. The model has three modules:

- `Format` holds the text formatting the header values are made of: the
  decimal text that `%.f` prints for `Duration.Seconds()`, the quoting `%q`
  applies, and `"; "`-joined directive lists, with `Split` as their reading
  side.
- `Secure` holds the option records (`Options`, `HPKPOptions`,
  `HSTSOptions`), the constants (`HSTSPreloadMinAge` and the default max ages)
  and the six configuration errors. It also holds the two builders
  `hpkpHeader` and `hstsHeader` and the setup validation in `Use`:
  - each builder is a method that checks its option block in the source's
    order, then accumulates the value the way the source does;
  - each is proved equal to a pure specification (`HPKPCheck`/`HPKPValue`,
    `HSTSCheck`/`HSTSValue`).
- `Handler` holds the per-request closure `Use` installs. It is
  `Context.Serve`, a method of a `Context` object whose fields are:
  - the request URL, which the redirect rewrites in place;
  - the TLS flag and the request headers;
  - the response header map, which `Set` updates with replace semantics;
  - a count of the times the next handler has run.

  `Serve` returns `NotFound`, a permanent `Redirect` or `Continue`. It is
  proved against `Decide` (the outcome) and `Emitted` (the headers set).

Whether the server runs in production (`core.Production`) is a parameter of
`Serve`.

## The code as written

The model follows the code. Lemmas and contracts show the places where the
code does less than, or other than, what it aims at. The first two concern
the header formats of RFC 7469 section 2.1 and RFC 6797 section 6.1; the
third concerns the HSTS preload list's rules, which are not a standard:

- Both builders print the number of seconds without a `max-age=` label.
  `HSTSDefaultValue` shows that the default 30-day HSTS block gives
  `; 2592000`, and `HPKPValueExample` shows the same for HPKP.
- The HSTS value starts with the separator `"; "`, because the value is still
  empty when the seconds are appended. `HSTSValueSplits` states this for
  every HSTS block.
- `HSTSPreloadMinAge` is compared with the `time.Duration` itself, which
  counts nanoseconds. The preload rule therefore accepts any max age of at
  least 10886400 ns (about 11 ms), not 18 weeks (`PreloadThresholdInNanoseconds`).
- On a 404 or a redirect the handler itself sets none of its headers, not
  even the frame policy and the two "good practice" headers: it returns
  before it sets any (handler.go:75, handler.go:86). `Serve` states this: on
  those outcomes the header map is unchanged.
- Two headers go out under the canonical names `Header().Set` gives them:
  `X-Webkit-Csp` (written `X-WebKit-CSP` at handler.go:112) and
  `X-Xss-Protection` (written `X-XSS-Protection` at handler.go:123).
- For a server request the URL carries a host and a scheme only when the
  request line is in absolute form; otherwise both are empty, so the
  allow-list test (handler.go:70) and the scheme test (handler.go:79) compare
  against `""`. The model takes the URL's host and scheme as given inputs,
  as the code does.

The error strings are kept verbatim in `Secure.Message`.

## Model

| member | source | states |
|---|---|---|
| Format.NatTextDecodes | handler.go:147 | the decimal text of the seconds has at least one digit, no leading zero except for 0, and reads back as the number printed |
| Format.RoundedSecondsNearest | handler.go:147 | the printed seconds are within half a second of the duration, with ties going to the even number (the rounding of `%.f`) |
| Format.WholeSecondsText | handler.go:147 | for a whole, non-negative number of seconds the text is exactly `maxAge / 1e9` in decimal |
| Format.WholeSecondsDecode | handler.go:147 | such a text is all digits and reads back as `maxAge / 1e9` |
| Format.SecondsTextNoSemicolon | handler.go:147 | the seconds text never contains the directive separator |
| Format.QuotePlain | handler.go:144 | `%q` of a key or URI made of printable ASCII without `"` or `\` is the text wrapped in double quotes |
| Format.EscapePlain | handler.go:144 | on such text the escaping inside the quotes changes nothing |
| Format.EscapeNoSemicolon | handler.go:154 | escaping never introduces a `;` |
| Format.QuoteNoSemicolon | handler.go:154 | quoting text without `;` gives text without `;` |
| Format.JoinSnoc | handler.go:140-145 | appending `"; "` and a directive to a joined list is joining the longer list |
| Format.SplitJoin | handler.go:140-155 | cutting a joined value at every `"; "` gives the directives back, in order, when none holds a `;` |
| Secure.MessagesDistinct | handler.go:131-177 | different errors carry different texts, so the message tells which rule was broken |
| Secure.PlainPin | handler.go:144 | the pin of a key made of plain characters is `pin-sha256="` + key + `"` |
| Secure.HPKPCheck | handler.go:130-138 | the HPKP block fails exactly when the key list is empty or the max age is 0; missing keys are reported first; a negative max age passes |
| Secure.HSTSCheck | handler.go:161-180 | the HSTS block fails exactly when SSL is not forced, the max age is 0, or preload is set with a max age under 10886400 or without subdomains; these are reported in that order |
| Secure.HPKPHeader | handler.go:129-158 | on an invalid block returns the first error and an empty value; otherwise returns no error and the value built by looping over the keys equals `HPKPValue` |
| Secure.HSTSHeader | handler.go:160-193 | on an invalid block returns the first error and an empty value; otherwise the value built by sequential appends equals `HSTSValue` |
| Secure.SetupError | handler.go:49-62 | setup fails exactly when options are present and the present HPKP or HSTS block is invalid; absent options never fail; an HPKP error takes precedence over an HSTS error |
| Secure.Use | handler.go:49-62 | running both builders once reports exactly `SetupError`, so it succeeds exactly on valid options |
| Secure.HPKPValueSplits | handler.go:140-155 | cut at its separators, a Public-Key-Pins value gives one pin per key in key order, then the seconds, then `includeSubdomains` if set, then the report URI if one is given |
| Secure.HSTSValueSplits | handler.go:182-190 | every Strict-Transport-Security value starts with `"; "`; cut at its separators it gives an empty directive, the seconds, then `includeSubdomains` and `preload` if set |
| Secure.HPKPValueText | handler.go:140-155 | with whole seconds and plain keys and URI the value is the pins `pin-sha256="k"` joined by `"; "`, then `"; "` and the seconds in decimal, then `"; includeSubdomains"` if set, then `"; report-uri="u""` if a URI is given |
| Secure.HSTSValueText | handler.go:182-190 | with whole seconds the value is `"; "` and the seconds in decimal, then `"; includeSubdomains"` if set, then `"; preload"` if set |
| Secure.HPKPValueExample | handler.go:140-155 | keys `abc=` and `def=`, 60 days, subdomains and a URI u give `pin-sha256="abc="; pin-sha256="def="; 5184000; includeSubdomains; report-uri="u"` |
| Secure.HSTSDefaultValue | handler.go:182 | the default 30-day HSTS block without flags gives `; 2592000`: no `max-age=` label and a leading separator |
| Secure.PreloadThresholdInNanoseconds | handler.go:171-175 | with preload, a max age of 1 s or of 10886400 ns passes and 10886399 ns fails as too short: the threshold is in nanoseconds |
| Secure.ValidHSTSImpliesSSLForced | handler.go:161-164 | options that pass setup with an HSTS block force SSL |
| Handler.IsSecure | handler.go:79 | the request is secure exactly when its URL scheme is `https`, it came over TLS, or its `X-Forwarded-Proto` header is `https`; it has no contract of its own, and `ForcedRedirect` and `HSTSOnlyOverSecure` state what follows from it |
| Handler.FindHost | handler.go:68-76 | the linear search over the allow-list finds the host exactly when it is on the list |
| Handler.HostGate | handler.go:66-76 | in production with a non-empty allow-list the answer is NotFound exactly when the URL host equals no entry |
| Handler.ForcedRedirect | handler.go:79-87 | in production, for an allowed host, the request is redirected exactly when it is not secure (scheme, TLS or `X-Forwarded-Proto`) and SSL is forced; the redirect is a 301 to the same URL with scheme `https`; otherwise it continues |
| Handler.AlwaysContinues | handler.go:64-66 | outside production, or with no options, every request continues |
| Handler.EmittedHeaders | handler.go:90-123 | a request that continues gets `Public-Key-Pins` exactly in production over a secure request with HPKP configured; `Strict-Transport-Security` exactly in production with HSTS configured; the three CSP headers, all equal to the policy, exactly when one is given; `X-Frame-Options: SAMEORIGIN` exactly when framing is not allowed or there are no options; `nosniff` and `1; mode=block` always; and no other header |
| Handler.NilOptionsHeaders | handler.go:117-123 | with no options exactly the frame policy and the two always-on headers are set |
| Handler.HSTSOnlyOverSecure | handler.go:79-105 | with valid HSTS options in production, a request to an allowed host continues exactly when it is secure, and an insecure one is redirected to https |
| Handler.OverlaySet | handler.go:94 | setting one more header on top of earlier sets gives the overlay of all of them: each set name holds only its last value |
| Handler.Context.Set | handler.go:94 | `Header().Set` replaces the name's values by the single new value and changes nothing else |
| Handler.Context.Next | handler.go:125 | running the next handler is counted once |
| Handler.Context.SetTransportHeaders | handler.go:90-105 | the production part of the handler sets the headers `TransportHeaders` names, with the builders' values, over the previous map |
| Handler.Context.SetPageHeaders | handler.go:109-123 | the part that runs in every mode adds the CSP, frame and always-on headers `PageHeaders` names |
| Handler.Context.Serve | handler.go:64-126 | the handler's outcome is `Decide` of the request. On NotFound, nothing changes. On a redirect, the URL scheme is rewritten to https and no header is set. On Continue, the URL is unchanged, exactly the headers of `Emitted` are set over the existing ones, and the next handler runs exactly once |

## Left out

- The `volatile/core` framework is not part of this model: registering the
  handler with `core.Use`, the handler chain behind `c.Next()`, and the global
  `core.Production` flag, which is a parameter here.
- The `net/http` plumbing is left out: the bodies and own headers that
  `http.NotFound` and `http.Redirect` write, and `URL.String()`. The redirect
  target is the URL record with its scheme replaced.
- Header name canonicalisation and case-insensitive lookup are left out:
  header maps are keyed by canonical names, and the handler's names are
  written in the canonical form `Header().Set` stores them under. Two differ
  from the spelling in the source: `X-WebKit-CSP` is stored as
  `X-Webkit-Csp` and `X-XSS-Protection` as `X-Xss-Protection`. The function
  that computes the canonical form is not modelled.
- Format.SecondsText: rounds the exact nanosecond count, not the float64
  value of `Seconds()`. The two differ from about 2^24 s (194 days) on, when
  the fraction of a second is within a few nanoseconds of a half: for
  16777216 s and 500000001 ns, Go's float64 is an exact tie and prints
  16777216, while the model prints 16777217.
- Format.Escape: covers the ASCII escapes of `strconv.Quote`; non-ASCII
  characters are passed through unchanged, although Go escapes the
  non-printable ones and invalid UTF-8.
- The handler keeps the `*Options` pointer it was given and runs the
  builders again on every request against whatever the options hold then
  (handler.go:49, handler.go:91, handler.go:100). Sharing the options through
  that pointer is not modelled: options are an immutable value, and `Serve`
  assumes they are the ones `Use` accepted, by requiring `Valid` options. A
  caller that changes the options after `Use` (empties the keys, clears
  `SSLForced`) reaches the panics at handler.go:92 and handler.go:101, which
  the model therefore does not contain.
- The setup panics are modelled as the error `Use` returns, not as a panic.
- RFC-conformant header values (with `max-age=` and without a leading
  separator) are not modelled, because the code does not produce them.
- doc.go is package documentation and an example, with no logic to model.
- There is no concurrency: each request is served on its own Context.
