/** The security options, their validation and the builders of the
    Public-Key-Pins and Strict-Transport-Security header values
    (handler.go). The builders are modelled as written: the seconds are
    printed without the `max-age=` label, the HSTS value starts with the
    separator, and the preload threshold is compared with the raw duration,
    which counts nanoseconds. */
module Secure {
  import opened Format

  datatype Option<T> = None | Some(value: T)

  /** Go's time.Duration: a signed 64-bit count of nanoseconds. */
  type Duration = d: int | -0x8000_0000_0000_0000 <= d < 0x8000_0000_0000_0000

  const Hour: Duration := 3600 * 1_000_000_000

  /** Default HPKP and HSTS max ages: 30 days. */
  const HPKPDefaultMaxAge: Duration := 30 * 24 * Hour
  const HSTSDefaultMaxAge: Duration := 30 * 24 * Hour

  /** The lowest max age accepted with HSTS preload. The comparison is with
      the duration itself, so this is 10886400 nanoseconds. */
  const HSTSPreloadMinAge: Duration := 10886400

  datatype HPKPOptions = HPKPOptions(
    keys: seq<string>,          // Base64 SPKI fingerprints; required
    maxAge: Duration,           // required (non-zero)
    includeSubdomains: bool,
    reportURI: string)          // "" when there is none

  datatype HSTSOptions = HSTSOptions(
    maxAge: Duration,           // required (non-zero)
    includeSubdomains: bool,
    preload: bool)

  datatype Options = Options(
    allowedHosts: seq<string>,  // empty: every host is allowed
    csp: string,                // "" : no Content-Security-Policy headers
    frameAllowed: bool,
    hpkp: Option<HPKPOptions>,
    hsts: Option<HSTSOptions>,
    sslForced: bool)

  /** The six configuration errors, in the order the builders test them. */
  datatype Error =
    | HPKPKeysMissing
    | HPKPMaxAgeMissing
    | HSTSNotForced
    | HSTSMaxAgeMissing
    | HSTSPreloadTooShort
    | HSTSPreloadNoSubdomains

  /** The text each error carries. */
  function Message(e: Error): string
  {
    match e
    case HPKPKeysMissing => "secure: at least one key must be set when using HPKP"
    case HPKPMaxAgeMissing => "secure: max age must be set when using HPKP"
    case HSTSNotForced => "secure: SSLForced must be true when using HSTS"
    case HSTSMaxAgeMissing => "secure: max age must be set when using HSTS"
    case HSTSPreloadTooShort => "secure: max age must be at least eighteen weeks when using HSTS preload"
    case HSTSPreloadNoSubdomains => "secure: subdomains must be included when using HSTS preload"
  }

  lemma MessageLength(e: Error)
    ensures |Message(e)| == match e
      case HPKPKeysMissing => 52
      case HPKPMaxAgeMissing => 43
      case HSTSNotForced => 46
      case HSTSMaxAgeMissing => 43
      case HSTSPreloadTooShort => 71
      case HSTSPreloadNoSubdomains => 59
  {
  }

  /** Each error has its own text, so the message a setup failure carries
      tells which rule was broken. */
  lemma MessagesDistinct(e1: Error, e2: Error)
    requires e1 != e2
    ensures Message(e1) != Message(e2)
  {
    MessageLength(e1);
    MessageLength(e2);
    if e1.HPKPMaxAgeMissing? && e2.HSTSMaxAgeMissing? {
      assert Message(e1)[40] == 'P' && Message(e2)[40] == 'S';
    } else if e1.HSTSMaxAgeMissing? && e2.HPKPMaxAgeMissing? {
      assert Message(e1)[40] == 'S' && Message(e2)[40] == 'P';
    }
  }

  /** The first HPKP rule an option block breaks, if any. */
  function HPKPCheck(p: HPKPOptions): (r: Option<Error>)
    ensures r.None? <==> |p.keys| > 0 && p.maxAge != 0
    ensures |p.keys| == 0 ==> r == Some(HPKPKeysMissing)
    ensures |p.keys| > 0 && p.maxAge == 0 ==> r == Some(HPKPMaxAgeMissing)
  {
    if |p.keys| == 0 then Some(HPKPKeysMissing)
    else if p.maxAge == 0 then Some(HPKPMaxAgeMissing)
    else None
  }

  /** The first HSTS rule broken, if any; sslForced comes from the enclosing
      options. */
  function HSTSCheck(sslForced: bool, h: HSTSOptions): (r: Option<Error>)
    ensures r.None? <==>
      sslForced && h.maxAge != 0 &&
      (h.preload ==> h.maxAge >= HSTSPreloadMinAge && h.includeSubdomains)
    ensures !sslForced ==> r == Some(HSTSNotForced)
    ensures sslForced && h.maxAge == 0 ==> r == Some(HSTSMaxAgeMissing)
    ensures sslForced && h.maxAge != 0 && h.preload && h.maxAge < HSTSPreloadMinAge ==>
      r == Some(HSTSPreloadTooShort)
    ensures sslForced && h.maxAge != 0 && h.preload && h.maxAge >= HSTSPreloadMinAge && !h.includeSubdomains
      ==> r == Some(HSTSPreloadNoSubdomains)
  {
    if !sslForced then Some(HSTSNotForced)
    else if h.maxAge == 0 then Some(HSTSMaxAgeMissing)
    else if h.preload && h.maxAge < HSTSPreloadMinAge then Some(HSTSPreloadTooShort)
    else if h.preload && !h.includeSubdomains then Some(HSTSPreloadNoSubdomains)
    else None
  }

  function Pin(key: string): string
  {
    "pin-sha256=" + Quote(key)
  }

  function Pins(keys: seq<string>): (ps: seq<string>)
    ensures |ps| == |keys|
  {
    seq(|keys|, i requires 0 <= i < |keys| => Pin(keys[i]))
  }

  /** The directives of the Public-Key-Pins value, in order: one pin per key,
      the seconds (without a `max-age=` label), then the optional flags. */
  function HPKPDirectives(p: HPKPOptions): seq<string>
  {
    var base := Pins(p.keys) + [SecondsText(p.maxAge)];
    var withSub := if p.includeSubdomains then base + ["includeSubdomains"] else base;
    if p.reportURI != "" then withSub + ["report-uri=" + Quote(p.reportURI)] else withSub
  }

  function HPKPValue(p: HPKPOptions): string
    requires |p.keys| > 0
  {
    Join(HPKPDirectives(p))
  }

  /** The directives of the Strict-Transport-Security value: an empty first
      directive (the value starts with the separator), the seconds, then the
      optional flags. */
  function HSTSDirectives(h: HSTSOptions): seq<string>
  {
    var base := [""] + [SecondsText(h.maxAge)];
    var withSub := if h.includeSubdomains then base + ["includeSubdomains"] else base;
    if h.preload then withSub + ["preload"] else withSub
  }

  function HSTSValue(h: HSTSOptions): string
  {
    Join(HSTSDirectives(h))
  }

  /** hpkpHeader: checks the HPKP block and, when it passes, accumulates the
      value, the pins in a loop over the keys. On an error the value is "". */
  method HPKPHeader(o: Options) returns (v: string, err: Option<Error>)
    requires o.hpkp.Some?
    ensures err == HPKPCheck(o.hpkp.value)
    ensures err.Some? ==> v == ""
    ensures err.None? ==> v == HPKPValue(o.hpkp.value)
  {
    var p := o.hpkp.value;
    v, err := "", None;
    if |p.keys| == 0 {
      err := Some(HPKPKeysMissing);
      return;
    }
    if p.maxAge == 0 {
      err := Some(HPKPMaxAgeMissing);
      return;
    }
    ghost var ps := Pins(p.keys);
    var i := 0;
    while i < |p.keys|
      invariant 0 <= i <= |p.keys|
      invariant i > 0 <==> v != ""
      invariant v == Join(ps[..i])
    {
      TakeSnoc(ps, i);
      if v != "" {
        JoinSnoc(ps[..i], ps[i]);
        v := v + "; ";
      } else {
        EmptyConcat(ps[i]);
      }
      v := v + Pin(p.keys[i]);
      i := i + 1;
    }
    TakeAll(ps);
    ghost var ds := ps;
    var t := SecondsText(p.maxAge);
    JoinSnoc(ds, t);
    v, ds := v + "; " + t, ds + [t];
    if p.includeSubdomains {
      JoinSnoc(ds, "includeSubdomains");
      v, ds := v + "; " + "includeSubdomains", ds + ["includeSubdomains"];
    }
    if p.reportURI != "" {
      var r := "report-uri=" + Quote(p.reportURI);
      JoinSnoc(ds, r);
      v, ds := v + "; " + r, ds + [r];
    }
  }

  /** hstsHeader: checks the HSTS block and, when it passes, appends the
      seconds and the flags to a value that starts out empty. */
  method HSTSHeader(o: Options) returns (v: string, err: Option<Error>)
    requires o.hsts.Some?
    ensures err == HSTSCheck(o.sslForced, o.hsts.value)
    ensures err.Some? ==> v == ""
    ensures err.None? ==> v == HSTSValue(o.hsts.value)
  {
    var h := o.hsts.value;
    v, err := "", None;
    if !o.sslForced {
      err := Some(HSTSNotForced);
      return;
    }
    if h.maxAge == 0 {
      err := Some(HSTSMaxAgeMissing);
      return;
    }
    if h.preload {
      if h.maxAge < HSTSPreloadMinAge {
        err := Some(HSTSPreloadTooShort);
        return;
      }
      if !h.includeSubdomains {
        err := Some(HSTSPreloadNoSubdomains);
        return;
      }
    }
    ghost var ds := [""];
    var t := SecondsText(h.maxAge);
    JoinSnoc(ds, t);
    v, ds := v + "; " + t, ds + [t];
    if h.includeSubdomains {
      JoinSnoc(ds, "includeSubdomains");
      v, ds := v + "; " + "includeSubdomains", ds + ["includeSubdomains"];
    }
    if h.preload {
      JoinSnoc(ds, "preload");
      v, ds := v + "; " + "preload", ds + ["preload"];
    }
  }

  /** The error Use panics with, if any: HPKP is checked before HSTS, and
      absent options (a nil pointer) never fail. */
  function SetupError(options: Option<Options>): (r: Option<Error>)
    ensures r.None? <==>
      options.None? ||
      ((options.value.hpkp.Some? ==> HPKPCheck(options.value.hpkp.value).None?) &&
       (options.value.hsts.Some? ==> HSTSCheck(options.value.sslForced, options.value.hsts.value).None?))
    ensures options.Some? && options.value.hpkp.Some? && HPKPCheck(options.value.hpkp.value).Some? ==>
      r == HPKPCheck(options.value.hpkp.value)
    ensures (options.Some? && options.value.hsts.Some? && r.Some? &&
             (options.value.hpkp.None? || HPKPCheck(options.value.hpkp.value).None?))
      ==> r == HSTSCheck(options.value.sslForced, options.value.hsts.value)
  {
    if options.None? then None
    else
      var o := options.value;
      if o.hpkp.Some? && HPKPCheck(o.hpkp.value).Some? then HPKPCheck(o.hpkp.value)
      else if o.hsts.Some? && HSTSCheck(o.sslForced, o.hsts.value).Some? then HSTSCheck(o.sslForced, o.hsts.value)
      else None
  }

  /** Options the handler can be installed with. */
  predicate Valid(options: Option<Options>)
  {
    SetupError(options).None?
  }

  /** The setup step of Use: runs both builders once, discarding the values,
      and reports the first error (the source panics with it). */
  method Use(options: Option<Options>) returns (err: Option<Error>)
    ensures err == SetupError(options)
    ensures err.None? <==> Valid(options)
  {
    if options.Some? {
      var o := options.value;
      if o.hpkp.Some? {
        var _, e := HPKPHeader(o);
        if e.Some? {
          return e;
        }
      }
      if o.hsts.Some? {
        var _, e := HSTSHeader(o);
        if e.Some? {
          return e;
        }
      }
    }
    return None;
  }

  /** A Public-Key-Pins value cut at its separators gives back its directives
      in order, when no key and no report URI holds a `;`. */
  lemma HPKPValueSplits(p: HPKPOptions)
    requires |p.keys| > 0
    requires forall i :: 0 <= i < |p.keys| ==> ';' !in p.keys[i]
    requires ';' !in p.reportURI
    ensures Split(HPKPValue(p)) == HPKPDirectives(p)
    ensures Split(HPKPValue(p))[..|p.keys|] == Pins(p.keys)
    ensures Split(HPKPValue(p))[|p.keys|] == SecondsText(p.maxAge)
  {
    var t := SecondsText(p.maxAge);
    forall i | 0 <= i < |p.keys| ensures ';' !in Pins(p.keys)[i] {
      QuoteNoSemicolon(p.keys[i]);
    }
    SecondsTextNoSemicolon(p.maxAge);
    NoSeparatorSnoc(Pins(p.keys), t);
    var ds := Pins(p.keys) + [t];
    if p.includeSubdomains {
      NoSeparatorSnoc(ds, "includeSubdomains");
      ds := ds + ["includeSubdomains"];
    }
    if p.reportURI != "" {
      QuoteNoSemicolon(p.reportURI);
      NoSeparatorSnoc(ds, "report-uri=" + Quote(p.reportURI));
      ds := ds + ["report-uri=" + Quote(p.reportURI)];
    }
    SplitJoin(ds);
  }

  /** A Strict-Transport-Security value always starts with the separator, and
      cut at its separators gives back an empty first directive, the seconds
      and then the flags that are set. */
  lemma HSTSValueSplits(h: HSTSOptions)
    ensures HSTSValue(h)[..2] == "; "
    ensures Split(HSTSValue(h)) == HSTSDirectives(h)
    ensures Split(HSTSValue(h))[0] == "" && Split(HSTSValue(h))[1] == SecondsText(h.maxAge)
  {
    SecondsTextNoSemicolon(h.maxAge);
    SplitJoin(HSTSDirectives(h));
  }

  /** For a whole, non-negative number of seconds and keys and a report URI
      that quoting leaves unchanged, the Public-Key-Pins value is the pins,
      the decimal seconds and the flags, each after a "; ". */
  lemma HPKPValueText(p: HPKPOptions)
    requires |p.keys| > 0 && p.maxAge >= 0 && p.maxAge % Second == 0
    requires forall i, j :: 0 <= i < |p.keys| && 0 <= j < |p.keys[i]| ==> IsPlain(p.keys[i][j])
    requires forall j :: 0 <= j < |p.reportURI| ==> IsPlain(p.reportURI[j])
    ensures forall i :: 0 <= i < |p.keys| ==> Pins(p.keys)[i] == "pin-sha256=" + ("\"" + p.keys[i] + "\"")
    ensures HPKPValue(p) ==
      var v0 := Join(Pins(p.keys)) + "; " + NatText(p.maxAge / Second);
      var v1 := if p.includeSubdomains then v0 + "; " + "includeSubdomains" else v0;
      if p.reportURI != "" then v1 + "; " + ("report-uri=" + ("\"" + p.reportURI + "\"")) else v1
  {
    forall i | 0 <= i < |p.keys| ensures Pins(p.keys)[i] == "pin-sha256=" + ("\"" + p.keys[i] + "\"") {
      QuotePlain(p.keys[i]);
    }
    WholeSecondsText(p.maxAge);
    var t := SecondsText(p.maxAge);
    JoinSnoc(Pins(p.keys), t);
    var ds := Pins(p.keys) + [t];
    if p.includeSubdomains {
      JoinSnoc(ds, "includeSubdomains");
      ds := ds + ["includeSubdomains"];
    }
    if p.reportURI != "" {
      QuotePlain(p.reportURI);
      JoinSnoc(ds, "report-uri=" + Quote(p.reportURI));
    }
  }

  /** For a whole, non-negative number of seconds the Strict-Transport-Security
      value is "; " and the decimal seconds, then each flag that is set after
      a "; ". */
  lemma HSTSValueText(h: HSTSOptions)
    requires h.maxAge >= 0 && h.maxAge % Second == 0
    ensures HSTSValue(h) ==
      var v0 := "; " + NatText(h.maxAge / Second);
      var v1 := if h.includeSubdomains then v0 + "; " + "includeSubdomains" else v0;
      if h.preload then v1 + "; " + "preload" else v1
  {
    WholeSecondsText(h.maxAge);
    var t := SecondsText(h.maxAge);
    JoinSnoc([""], t);
    EmptyConcat("; ");
    var ds := [""] + [t];
    if h.includeSubdomains {
      JoinSnoc(ds, "includeSubdomains");
      ds := ds + ["includeSubdomains"];
    }
    if h.preload {
      JoinSnoc(ds, "preload");
    }
  }

  /** The pin of a key that quoting leaves unchanged. */
  lemma PlainPin(key: string)
    requires forall j :: 0 <= j < |key| ==> IsPlain(key[j])
    ensures Pin(key) == "pin-sha256=\"" + key + "\""
  {
    QuotePlain(key);
    ConcatAssoc("pin-sha256=", "\"" + key, "\"");
    ConcatAssoc("pin-sha256=", "\"", key);
  }

  /** The pins of the two example keys. */
  lemma ExamplePins(keys: seq<string>)
    requires keys == ["abc=", "def="]
    ensures Join(Pins(keys)) == "pin-sha256=\"abc=\"; pin-sha256=\"def=\""
  {
    var ps := Pins(keys);
    assert Join(ps) == ps[0] + "; " + ps[1] by {
      assert Join(ps[1..]) == ps[1];
    }
    PlainPin(keys[0]);
    PlainPin(keys[1]);
    ExamplePinsJoined(ps[0], ps[1]);
  }

  lemma ExamplePinsJoined(a: string, b: string)
    requires a == "pin-sha256=\"" + "abc=" + "\"" && b == "pin-sha256=\"" + "def=" + "\""
    ensures a + "; " + b == "pin-sha256=\"abc=\"; pin-sha256=\"def=\""
  {
  }

  /** The literal part of the example value, up to the report URI. */
  lemma ExamplePrefix(j: string, n: string)
    requires j == "pin-sha256=\"abc=\"; pin-sha256=\"def=\"" && n == "5184000"
    ensures j + "; " + n + "; " + "includeSubdomains" + "; " + "report-uri=" + "\""
      == "pin-sha256=\"abc=\"; pin-sha256=\"def=\"; 5184000; includeSubdomains; report-uri=\""
  {
    assert j + "; " + n == "pin-sha256=\"abc=\"; pin-sha256=\"def=\"; 5184000";
  }

  /** Two keys, 60 days, subdomains and a report URI that quoting leaves
      unchanged. */
  lemma HPKPValueExample(p: HPKPOptions)
    requires p.keys == ["abc=", "def="] && p.maxAge == 60 * 24 * Hour && p.includeSubdomains
    requires p.reportURI != "" && forall j :: 0 <= j < |p.reportURI| ==> IsPlain(p.reportURI[j])
    ensures HPKPValue(p)
      == "pin-sha256=\"abc=\"; pin-sha256=\"def=\"; 5184000; includeSubdomains; report-uri=\"" + p.reportURI + "\""
  {
    var uri := p.reportURI;
    ExamplePins(p.keys);
    assert forall i, j :: 0 <= i < |p.keys| && 0 <= j < |p.keys[i]| ==> IsPlain(p.keys[i][j]);
    assert p.maxAge / Second == 5184000;
    HPKPValueText(p);
    SixtyDaysText();
    var x := Join(Pins(p.keys)) + "; " + NatText(5184000) + "; " + "includeSubdomains" + "; ";
    ConcatAssoc(x, "report-uri=", "\"" + uri + "\"");
    ConcatAssoc(x + "report-uri=", "\"" + uri, "\"");
    ConcatAssoc(x + "report-uri=", "\"", uri);
    ExamplePrefix(Join(Pins(p.keys)), NatText(5184000));
  }

  /** 30 days in seconds, in decimal. */
  lemma ThirtyDaysText()
    ensures NatText(2592000) == "2592000"
  {
    NatTextSnoc(25, "2", '5');
    NatTextSnoc(259, "25", '9');
    NatTextSnoc(2592, "259", '2');
    NatTextSnoc(25920, "2592", '0');
    NatTextSnoc(259200, "25920", '0');
    NatTextSnoc(2592000, "259200", '0');
  }

  /** 60 days in seconds, in decimal. */
  lemma SixtyDaysText()
    ensures NatText(5184000) == "5184000"
  {
    NatTextSnoc(51, "5", '1');
    NatTextSnoc(518, "51", '8');
    NatTextSnoc(5184, "518", '4');
    NatTextSnoc(51840, "5184", '0');
    NatTextSnoc(518400, "51840", '0');
    NatTextSnoc(5184000, "518400", '0');
  }

  /** The default 30-day HSTS block with no flags gives "; 2592000": no
      `max-age=` label and a leading separator. */
  lemma HSTSDefaultValue(h: HSTSOptions)
    requires h.maxAge == HSTSDefaultMaxAge && !h.includeSubdomains && !h.preload
    ensures HSTSValue(h) == "; 2592000"
  {
    HSTSValueText(h);
    assert h.maxAge / Second == 2592000;
    ThirtyDaysText();
  }

  /** The preload threshold is met by durations in nanoseconds: a max age of
      one second passes the preload rule, and 10886399 ns is the longest
      that fails it. */
  lemma PreloadThresholdInNanoseconds()
    ensures HSTSCheck(true, HSTSOptions(1_000_000_000, true, true)).None?
    ensures HSTSCheck(true, HSTSOptions(10886400, true, true)).None?
    ensures HSTSCheck(true, HSTSOptions(10886399, true, true)) == Some(HSTSPreloadTooShort)
  {
  }

  /** A valid HSTS block implies forced SSL. */
  lemma ValidHSTSImpliesSSLForced(options: Option<Options>)
    requires Valid(options) && options.Some? && options.value.hsts.Some?
    ensures options.value.sslForced
  {
  }
}
