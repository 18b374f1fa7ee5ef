/** Text formatting the security headers are built from: the decimal text
    that Go's `%.f` verb prints for a duration's seconds, the quoting that
    the `%q` verb applies to a string, and the `"; "`-separated directive
    lists that both header values are made of, with `Split` as their
    reading side. */
module Format {

  /** Nanoseconds per second. */
  const Second: int := 1_000_000_000

  predicate IsDigit(c: char) { '0' <= c <= '9' }

  predicate AllDigits(s: string) { forall i :: 0 <= i < |s| ==> IsDigit(s[i]) }

  function DigitChar(d: int): (c: char)
    requires 0 <= d < 10
    ensures IsDigit(c) && c as int - '0' as int == d
  {
    ('0' as int + d) as char
  }

  /** The decimal digits of n, most significant first. */
  function NatText(n: nat): string
    decreases n
  {
    if n < 10 then [DigitChar(n)] else NatText(n / 10) + [DigitChar(n % 10)]
  }

  /** The number a string of decimal digits denotes. */
  function DigitsValue(s: string): nat
    requires AllDigits(s)
  {
    if s == [] then 0 else DigitsValue(s[..|s| - 1]) * 10 + (s[|s| - 1] as int - '0' as int)
  }

  /** NatText prints only digits, without a leading zero, and the digits read
      back as the number printed. */
  lemma {:induction false} NatTextDecodes(n: nat)
    ensures |NatText(n)| >= 1 && AllDigits(NatText(n))
    ensures NatText(n)[0] == '0' ==> n == 0
    ensures DigitsValue(NatText(n)) == n
  {
    if n >= 10 {
      NatTextDecodes(n / 10);
      var s := NatText(n);
      assert s == NatText(n / 10) + [DigitChar(n % 10)];
      assert s[..|s| - 1] == NatText(n / 10);
    }
  }

  /** One more digit on the right: the step that evaluates NatText on a
      constant one digit at a time. */
  lemma NatTextSnoc(n: nat, s: string, c: char)
    requires n >= 10 && NatText(n / 10) == s && c == DigitChar(n % 10)
    ensures NatText(n) == s + [c]
  {
  }

  /** ns / Second rounded to the nearest integer, ties to even: the rounding
      `%.f` applies to the float value of `Duration.Seconds()`. */
  function RoundedSeconds(ns: nat): nat
  {
    var q, r := ns / Second, ns % Second;
    if 2 * r > Second || (2 * r == Second && q % 2 == 1) then q + 1 else q
  }

  /** RoundedSeconds is within half a second of the duration, and on a tie it
      is even. */
  lemma RoundedSecondsNearest(ns: nat)
    ensures 2 * ns - Second <= 2 * RoundedSeconds(ns) * Second <= 2 * ns + Second
    ensures 2 * RoundedSeconds(ns) * Second == 2 * ns + Second ==> RoundedSeconds(ns) % 2 == 0
    ensures 2 * RoundedSeconds(ns) * Second == 2 * ns - Second ==> RoundedSeconds(ns) % 2 == 0
  {
  }

  /** The text `fmt.Sprintf("%.f", d.Seconds())` gives for a duration of d
      nanoseconds: a minus sign for any negative duration (Go prints "-0"
      for one that rounds to zero), then the rounded magnitude in decimal. */
  function SecondsText(d: int): string
  {
    (if d < 0 then "-" else "") + NatText(RoundedSeconds(if d < 0 then -d else d))
  }

  /** For a non-negative whole number of seconds the text is exactly that
      number in decimal, and it reads back as the number of seconds. */
  lemma WholeSecondsText(d: int)
    requires d >= 0 && d % Second == 0
    ensures SecondsText(d) == NatText(d / Second)
  {
  }

  /** A whole, non-negative number of seconds reads back from its text. */
  lemma WholeSecondsDecode(d: int)
    requires d >= 0 && d % Second == 0
    ensures AllDigits(SecondsText(d)) && DigitsValue(SecondsText(d)) == d / Second
  {
    WholeSecondsText(d);
    NatTextDecodes(d / Second);
  }

  /** The seconds text never holds the directive separator. */
  lemma SecondsTextNoSemicolon(d: int)
    ensures ';' !in SecondsText(d)
  {
    var m := RoundedSeconds(if d < 0 then -d else d);
    NatTextDecodes(m);
    assert forall i :: 0 <= i < |NatText(m)| ==> NatText(m)[i] != ';';
  }

  function HexDigit(d: int): (c: char)
    requires 0 <= d < 16
  {
    "0123456789abcdef"[d]
  }

  /** How strconv.Quote writes one character inside the quotes, for the ASCII
      range: backslash escapes for the quote, the backslash and the seven
      named control characters, `\xNN` in lower-case hex for the other
      control characters and DEL, the character itself otherwise. */
  function EscapeChar(c: char): string
  {
    if c == '"' then "\\\""
    else if c == '\\' then "\\\\"
    else if c as int == 7 then "\\a"
    else if c as int == 8 then "\\b"
    else if c as int == 12 then "\\f"
    else if c == '\n' then "\\n"
    else if c == '\r' then "\\r"
    else if c == '\t' then "\\t"
    else if c as int == 11 then "\\v"
    else if c as int < 0x20 || c as int == 0x7f then
      "\\x" + [HexDigit(c as int / 16), HexDigit(c as int % 16)]
    else [c]
  }

  function Escape(s: string): string
  {
    if s == [] then "" else EscapeChar(s[0]) + Escape(s[1..])
  }

  /** The `%q` rendering of a string. */
  function Quote(s: string): string
  {
    "\"" + Escape(s) + "\""
  }

  /** A character that `%q` writes unchanged: printable ASCII other than the
      quote and the backslash (every character of a Base64 key is one). */
  predicate IsPlain(c: char)
  {
    0x20 <= c as int < 0x7f && c != '"' && c != '\\'
  }

  lemma {:induction false} EscapePlain(s: string)
    requires forall i :: 0 <= i < |s| ==> IsPlain(s[i])
    ensures Escape(s) == s
  {
    if s != [] {
      EscapePlain(s[1..]);
      assert s == [s[0]] + s[1..];
    }
  }

  /** On plain text, quoting is wrapping in double quotes. */
  lemma QuotePlain(s: string)
    requires forall i :: 0 <= i < |s| ==> IsPlain(s[i])
    ensures Quote(s) == "\"" + s + "\""
  {
    EscapePlain(s);
  }

  lemma EscapeCharNoSemicolon(c: char)
    requires c != ';'
    ensures ';' !in EscapeChar(c)
  {
    if c as int < 0x20 || c as int == 0x7f {
      assert HexDigit(c as int / 16) != ';' && HexDigit(c as int % 16) != ';';
    }
  }

  lemma {:induction false} EscapeNoSemicolon(s: string)
    requires ';' !in s
    ensures ';' !in Escape(s)
  {
    if s != [] {
      assert s[0] != ';' && ';' !in s[1..];
      EscapeCharNoSemicolon(s[0]);
      EscapeNoSemicolon(s[1..]);
    }
  }

  /** Quoting never introduces the directive separator. */
  lemma QuoteNoSemicolon(s: string)
    requires ';' !in s
    ensures ';' !in Quote(s)
  {
    EscapeNoSemicolon(s);
  }

  lemma EmptyConcat(x: string)
    ensures "" + x == x
  {
  }

  lemma ConcatAssoc(x: string, y: string, z: string)
    ensures x + (y + z) == x + y + z
  {
  }

  lemma TakeSnoc<T>(s: seq<T>, i: int)
    requires 0 <= i < |s|
    ensures s[..i + 1] == s[..i] + [s[i]]
  {
  }

  lemma TakeAll<T>(s: seq<T>)
    ensures s[..|s|] == s
  {
  }

  /** The directives joined by `"; "`. */
  function Join(ds: seq<string>): string
  {
    if |ds| == 0 then "" else if |ds| == 1 then ds[0] else ds[0] + "; " + Join(ds[1..])
  }

  /** Appending one more directive to a joined list. */
  lemma {:induction false} JoinSnoc(ds: seq<string>, d: string)
    requires |ds| >= 1
    ensures Join(ds + [d]) == Join(ds) + "; " + d
  {
    if |ds| == 1 {
      assert ds + [d] == [ds[0], d];
    } else {
      assert (ds + [d])[1..] == ds[1..] + [d];
      JoinSnoc(ds[1..], d);
    }
  }

  /** A header value cut at every `"; "`: the reading side of Join. */
  function Split(s: string): (parts: seq<string>)
    ensures |parts| >= 1
    decreases |s|
  {
    if |s| == 0 then [""]
    else if |s| >= 2 && s[0] == ';' && s[1] == ' ' then [""] + Split(s[2..])
    else
      var rest := Split(s[1..]);
      [[s[0]] + rest[0]] + rest[1..]
  }

  lemma {:induction false} SplitWhole(d: string)
    requires ';' !in d
    ensures Split(d) == [d]
  {
    if d != [] {
      assert ';' !in d[1..];
      SplitWhole(d[1..]);
      assert d == [d[0]] + d[1..];
    }
  }

  lemma {:induction false} SplitFirst(d: string, rest: string)
    requires ';' !in d
    ensures Split(d + "; " + rest) == [d] + Split(rest)
  {
    var s := d + "; " + rest;
    if d == [] {
      assert s[2..] == rest;
    } else {
      assert s[0] == d[0] && s[1..] == d[1..] + "; " + rest;
      assert ';' !in d[1..];
      SplitFirst(d[1..], rest);
      assert d == [d[0]] + d[1..];
    }
  }

  /** No directive holds a `;`. */
  predicate NoSeparator(ds: seq<string>)
  {
    forall i :: 0 <= i < |ds| ==> ';' !in ds[i]
  }

  lemma NoSeparatorSnoc(ds: seq<string>, d: string)
    requires NoSeparator(ds) && ';' !in d
    ensures NoSeparator(ds + [d])
  {
  }

  /** Joining directives that hold no `;` and splitting the result gives the
      same directives back, in the same order. */
  lemma {:induction false} SplitJoin(ds: seq<string>)
    requires |ds| >= 1 && NoSeparator(ds)
    ensures Split(Join(ds)) == ds
  {
    if |ds| == 1 {
      SplitWhole(ds[0]);
    } else {
      SplitFirst(ds[0], Join(ds[1..]));
      SplitJoin(ds[1..]);
    }
  }
}
