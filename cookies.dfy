/** The `getCookie` helper that static/js/app.js, static/js/tasks.js and
    static/js/base.js each define with the same text: a scan of the
    `document.cookie` string for one cookie, whose value is then decoded by
    `decodeURIComponent` (section 19.2.6.5 of ECMA-262). The cookie string is
    a parameter. JavaScript strings are held as sequences of Unicode scalar
    values. */
module Cookies {

  import opened Outcomes
  import opened Text

  /** The error `decodeURIComponent` throws. */
  const UriError := "URIError: URI malformed"

  // ---------------------------------------------------- decodeURIComponent

  predicate IsHexDigit(c: char) { '0' <= c <= '9' || 'a' <= c <= 'f' || 'A' <= c <= 'F' }

  function HexValue(c: char): (n: nat)
    requires IsHexDigit(c)
    ensures n < 16
  {
    if '0' <= c <= '9' then c as int - '0' as int
    else if 'a' <= c <= 'f' then c as int - 'a' as int + 10
    else c as int - 'A' as int + 10
  }

  /** The octet written as `%XY` at position `k`, if one is written there. */
  function OctetAt(s: string, k: nat): (b: Option<nat>)
    ensures b.Some? ==> b.value < 256 && k + 3 <= |s| && s[k] == '%'
  {
    if k + 3 <= |s| && s[k] == '%' && IsHexDigit(s[k + 1]) && IsHexDigit(s[k + 2])
    then Some(16 * HexValue(s[k + 1]) + HexValue(s[k + 2]))
    else None
  }

  /** The number of octets of the UTF-8 sequence a leading octet opens: its
      count of leading one bits, 0 where that count is 1 or above 4. */
  function SequenceLength(b: nat): (n: nat)
    ensures n == 0 || 2 <= n <= 4
  {
    if 0xC0 <= b <= 0xDF then 2
    else if 0xE0 <= b <= 0xEF then 3
    else if 0xF0 <= b <= 0xF7 then 4
    else 0
  }

  /** The payload of the `%XY` continuation octet at `k`, if it is one (10xxxxxx). */
  function ContinuationAt(s: string, k: nat): (p: Option<nat>)
    ensures p.Some? ==> p.value < 64 && k + 3 <= |s|
  {
    match OctetAt(s, k)
    case Some(b) => if 0x80 <= b <= 0xBF then Some(b - 0x80) else None
    case None => None
  }

  predicate IsScalar(v: int) { 0 <= v < 0xD800 || 0xE000 <= v < 0x110000 }

  /** The character a UTF-8 sequence of `n` escaped octets, the first `b`,
      encodes at the start of `s`; `None` for a sequence that is cut short,
      overlong, a surrogate, or above U+10FFFF. */
  function SequenceAt(s: string, b: nat, n: nat): (c: Option<char>)
    requires 2 <= n <= 4 && 0xC0 <= b < 0xF8
    ensures c.Some? ==> 3 * n <= |s|
  {
    var c1 := ContinuationAt(s, 3);
    if c1.None? then None
    else if n == 2 then
      var v := (b - 0xC0) * 64 + c1.value;
      if 0x80 <= v then Some(v as char) else None
    else
      var c2 := ContinuationAt(s, 6);
      if c2.None? then None
      else if n == 3 then
        var v := (b - 0xE0) * 4096 + c1.value * 64 + c2.value;
        if 0x800 <= v && IsScalar(v) then Some(v as char) else None
      else
        var c3 := ContinuationAt(s, 9);
        if c3.None? then None
        else
          var v := (b - 0xF0) * 262144 + c1.value * 4096 + c2.value * 64 + c3.value;
          if 0x10000 <= v && IsScalar(v) then Some(v as char) else None
  }

  function Prepend(c: char, r: Result<string, string>): Result<string, string> {
    match r
    case Ok(t) => Ok([c] + t)
    case Err(e) => Err(e)
  }

  /** `decodeURIComponent(s)`: every `%XY` escape, or run of escapes forming
      one UTF-8 sequence, becomes the character it encodes; anything else is
      kept. A `%` not followed by two hex digits, or escapes that are not
      well-formed UTF-8, throw. */
  function Decode(s: string): (r: Result<string, string>)
    ensures r.Ok? ==> |r.value| <= |s|
    ensures r.Err? ==> r.error == UriError
    decreases |s|
  {
    if s == [] then Ok([])
    else if s[0] != '%' then Prepend(s[0], Decode(s[1..]))
    else match OctetAt(s, 0)
      case None => Err(UriError)
      case Some(b) =>
        if b < 0x80 then Prepend(b as char, Decode(s[3..]))
        else
          var n := SequenceLength(b);
          if n == 0 then Err(UriError)
          else match SequenceAt(s, b, n)
            case None => Err(UriError)
            case Some(c) => Prepend(c, Decode(s[3 * n..]))
  }

  /** Text without `%` decodes to itself. */
  lemma {:induction false} DecodePlain(s: string)
    requires '%' !in s
    ensures Decode(s) == Ok(s)
    decreases |s|
  {
    if s != [] {
      assert '%' !in s[1..] by {
        forall k | 0 <= k < |s| - 1 ensures s[1..][k] != '%' {
          assert s[1..][k] == s[k + 1];
        }
      }
      DecodePlain(s[1..]);
      assert [s[0]] + s[1..] == s;
    }
  }

  /** A `%` that does not start an escape makes the whole decoding fail. */
  lemma {:induction false} BrokenEscape(s: string, k: nat)
    requires k < |s| && s[k] == '%' && '%' !in s[..k]
    requires k + 3 > |s| || !IsHexDigit(s[k + 1]) || !IsHexDigit(s[k + 2])
    ensures Decode(s) == Err(UriError)
  {
    if k > 0 {
      assert s[0] == s[..k][0];
      assert s[1..][k - 1] == s[k] && s[1..][..k - 1] == s[..k][1..];
      BrokenEscape(s[1..], k - 1);
    }
  }

  // ------------------------------------------- encodeURIComponent (partner)

  /** The characters `encodeURIComponent` leaves as they are. */
  predicate Unreserved(c: char) {
    ('A' <= c <= 'Z') || ('a' <= c <= 'z') || ('0' <= c <= '9')
    || c == '-' || c == '_' || c == '.' || c == '!' || c == '~' || c == '*'
    || c == '\'' || c == '(' || c == ')'
  }

  function HexDigit(n: nat): (c: char)
    requires n < 16
    ensures IsHexDigit(c) && HexValue(c) == n
  {
    if n < 10 then ('0' as int + n) as char else ('A' as int + n - 10) as char
  }

  /** `%XY` for one octet, in upper-case hex. */
  function Escape(b: nat): (e: string)
    requires b < 256
    ensures |e| == 3 && OctetAt(e, 0) == Some(b)
  {
    "%" + [HexDigit(b / 16)] + [HexDigit(b % 16)]
  }

  /** The UTF-8 octets of one character. */
  function Utf8(c: char): (bs: seq<nat>)
    ensures 1 <= |bs| <= 4 && forall i :: 0 <= i < |bs| ==> bs[i] < 256
  {
    var v := c as int;
    if v < 0x80 then [v]
    else if v < 0x800 then [0xC0 + v / 64, 0x80 + v % 64]
    else if v < 0x10000 then [0xE0 + v / 4096, 0x80 + (v / 64) % 64, 0x80 + v % 64]
    else [0xF0 + v / 262144, 0x80 + (v / 4096) % 64, 0x80 + (v / 64) % 64, 0x80 + v % 64]
  }

  function EscapeAll(bs: seq<nat>): (e: string)
    requires forall i :: 0 <= i < |bs| ==> bs[i] < 256
    ensures |e| == 3 * |bs|
  {
    if bs == [] then "" else Escape(bs[0]) + EscapeAll(bs[1..])
  }

  function EncodeChar(c: char): (e: string) {
    if Unreserved(c) then [c] else EscapeAll(Utf8(c))
  }

  /** `encodeURIComponent(s)`, the encoding a cookie value is written with. */
  function Encode(s: string): (e: string)
    ensures |e| >= |s|
  {
    if s == [] then "" else EncodeChar(s[0]) + Encode(s[1..])
  }

  lemma DecodeUnreserved(c: char, t: string)
    requires Unreserved(c)
    ensures Decode([c] + t) == Prepend(c, Decode(t))
  {
    assert ([c] + t)[1..] == t;
  }

  lemma OctetShift(s: string, d: nat, k: nat)
    requires d <= |s|
    ensures OctetAt(s, d + k) == OctetAt(s[d..], k)
  {
    if d + k + 3 <= |s| {
      assert s[d..][k] == s[d + k] && s[d..][k + 1] == s[d + k + 1] && s[d..][k + 2] == s[d + k + 2];
    }
  }

  lemma OctetPrefix(p: string, t: string, k: nat)
    requires k + 3 <= |p|
    ensures OctetAt(p + t, k) == OctetAt(p, k)
  {
    assert (p + t)[k] == p[k] && (p + t)[k + 1] == p[k + 1] && (p + t)[k + 2] == p[k + 2];
  }

  /** The escapes of `bs` followed by `t` carry the `i`-th octet of `bs` at
      position `3 * i`. */
  lemma {:induction false} EscapeOctet(bs: seq<nat>, t: string, i: nat)
    requires forall k :: 0 <= k < |bs| ==> bs[k] < 256
    requires i < |bs|
    ensures OctetAt(EscapeAll(bs) + t, 3 * i) == Some(bs[i])
    decreases i
  {
    var r := EscapeAll(bs[1..]) + t;
    var s := EscapeAll(bs) + t;
    assert s == Escape(bs[0]) + r;
    if i == 0 {
      OctetPrefix(Escape(bs[0]), r, 0);
    } else {
      EscapeOctet(bs[1..], t, i - 1);
      assert s[3..] == r;
      OctetShift(s, 3, 3 * (i - 1));
    }
  }

  /** One step of `Decode` over a multi-octet sequence. */
  lemma DecodeSequence(s: string, b: nat, n: nat, c: char)
    requires OctetAt(s, 0) == Some(b) && 0x80 <= b && SequenceLength(b) == n && n != 0
    requires SequenceAt(s, b, n) == Some(c)
    ensures Decode(s) == Prepend(c, Decode(s[3 * n..]))
  {
  }

  lemma DecodeOne(c: char, t: string)
    requires !Unreserved(c) && (c as int) < 0x80
    ensures Decode(EncodeChar(c) + t) == Prepend(c, Decode(t))
  {
    var bs := Utf8(c);
    var s := EscapeAll(bs) + t;
    EscapeOctet(bs, t, 0);
    assert s[3..] == t;
  }

  lemma DecodeTwo(c: char, t: string)
    requires 0x80 <= c as int < 0x800
    ensures Decode(EncodeChar(c) + t) == Prepend(c, Decode(t))
  {
    var v := c as int;
    var bs := Utf8(c);
    var s := EscapeAll(bs) + t;
    EscapeOctet(bs, t, 0);
    EscapeOctet(bs, t, 1);
    assert s[6..] == t;
    assert ContinuationAt(s, 3) == Some(v % 64);
    assert (bs[0] - 0xC0) * 64 + v % 64 == v;
    assert SequenceAt(s, bs[0], 2) == Some(c);
    DecodeSequence(s, bs[0], 2, c);
  }

  /** Splitting a value into its low six bits and the rest. */
  lemma SixBits(v: nat)
    ensures v == (v / 64) * 64 + v % 64 && v % 64 < 64
  {
  }

  lemma ThreeOctets(v: int)
    requires 0x800 <= v < 0x10000
    ensures 0xE0 <= 0xE0 + v / 4096 <= 0xEF
    ensures (v / 4096) * 4096 + ((v / 64) % 64) * 64 + v % 64 == v
  {
    SixBits(v);
    SixBits(v / 64);
    assert v / 4096 == (v / 64) / 64;
  }

  lemma FourOctets(v: int)
    requires 0x10000 <= v < 0x110000
    ensures 0xF0 <= 0xF0 + v / 262144 <= 0xF4
    ensures (v / 262144) * 262144 + ((v / 4096) % 64) * 4096 + ((v / 64) % 64) * 64 + v % 64 == v
  {
    SixBits(v);
    SixBits(v / 64);
    SixBits(v / 4096);
    assert v / 4096 == (v / 64) / 64;
    assert v / 262144 == (v / 4096) / 64;
  }

  /** The character a three-octet sequence with the given payloads encodes. */
  lemma SequenceThree(s: string, b: nat, p1: nat, p2: nat, c: char)
    requires 0xE0 <= b <= 0xEF && ContinuationAt(s, 3) == Some(p1) && ContinuationAt(s, 6) == Some(p2)
    requires (b - 0xE0) * 4096 + p1 * 64 + p2 == c as int && 0x800 <= c as int
    ensures SequenceAt(s, b, 3) == Some(c)
  {
  }

  lemma SequenceFour(s: string, b: nat, p1: nat, p2: nat, p3: nat, c: char)
    requires 0xF0 <= b <= 0xF4 && ContinuationAt(s, 3) == Some(p1)
    requires ContinuationAt(s, 6) == Some(p2) && ContinuationAt(s, 9) == Some(p3)
    requires (b - 0xF0) * 262144 + p1 * 4096 + p2 * 64 + p3 == c as int && 0x10000 <= c as int
    ensures SequenceAt(s, b, 4) == Some(c)
  {
  }

  lemma DecodeThree(c: char, t: string)
    requires 0x800 <= c as int < 0x10000
    ensures Decode(EncodeChar(c) + t) == Prepend(c, Decode(t))
  {
    var v := c as int;
    var bs := Utf8(c);
    var s := EscapeAll(bs) + t;
    assert SequenceLength(bs[0]) == 3 by { ThreeOctets(v); }
    assert OctetAt(s, 0) == Some(bs[0]) by { EscapeOctet(bs, t, 0); }
    assert SequenceAt(s, bs[0], 3) == Some(c) by {
      ThreeOctets(v);
      EscapeOctet(bs, t, 1);
      EscapeOctet(bs, t, 2);
      SequenceThree(s, bs[0], (v / 64) % 64, v % 64, c);
    }
    assert s[9..] == t;
    DecodeSequence(s, bs[0], 3, c);
  }

  lemma DecodeFour(c: char, t: string)
    requires 0x10000 <= c as int
    ensures Decode(EncodeChar(c) + t) == Prepend(c, Decode(t))
  {
    var v := c as int;
    var bs := Utf8(c);
    var s := EscapeAll(bs) + t;
    assert SequenceLength(bs[0]) == 4 by { FourOctets(v); }
    assert OctetAt(s, 0) == Some(bs[0]) by { EscapeOctet(bs, t, 0); }
    assert SequenceAt(s, bs[0], 4) == Some(c) by {
      FourOctets(v);
      EscapeOctet(bs, t, 1);
      EscapeOctet(bs, t, 2);
      EscapeOctet(bs, t, 3);
      SequenceFour(s, bs[0], (v / 4096) % 64, (v / 64) % 64, v % 64, c);
    }
    assert s[12..] == t;
    DecodeSequence(s, bs[0], 4, c);
  }

  lemma DecodeEncodedChar(c: char, t: string)
    ensures Decode(EncodeChar(c) + t) == Prepend(c, Decode(t))
  {
    var v := c as int;
    if Unreserved(c) {
      DecodeUnreserved(c, t);
    } else if v < 0x80 {
      DecodeOne(c, t);
    } else if v < 0x800 {
      DecodeTwo(c, t);
    } else if v < 0x10000 {
      DecodeThree(c, t);
    } else {
      DecodeFour(c, t);
    }
  }

  /** Decoding undoes encoding, for every string. */
  lemma {:induction false} DecodeEncode(s: string)
    ensures Decode(Encode(s)) == Ok(s)
    decreases |s|
  {
    if s != [] {
      DecodeEncode(s[1..]);
      DecodeEncodedChar(s[0], Encode(s[1..]));
      assert [s[0]] + s[1..] == s;
    }
  }

  // --------------------------------------------------------------- getCookie

  /** JavaScript `s.substring(0, end)`: the first `end` characters, or all
      of a shorter string. */
  function Prefix(s: string, end: nat): (p: string)
    ensures |p| <= |s| && |p| <= end && p == s[..|p|]
    ensures end <= |s| ==> |p| == end
  {
    if end <= |s| then s[..end] else s
  }

  /** JavaScript `s.substring(start)`: the text from `start` on, empty past the end. */
  function Suffix(s: string, start: nat): (t: string)
    ensures start <= |s| ==> t == s[start..]
    ensures start > |s| ==> t == ""
  {
    if start <= |s| then s[start..] else ""
  }

  /** The trimmed entry `cookie` matches `name`:
      `cookie.substring(0, name.length + 1) === (name + '=')`. */
  predicate Matches(cookie: string, name: string) {
    Prefix(cookie, |name| + 1) == name + "="
  }

  /** The test is a prefix test: the entry starts with `name=`. */
  lemma MatchesIsPrefix(cookie: string, name: string)
    ensures Matches(cookie, name) <==> StartsWith(cookie, name + "=")
  {
  }

  /** Which entries, once trimmed, match `name`. */
  function Hits(entries: seq<string>, name: string): (hits: seq<bool>)
    ensures |hits| == |entries|
  {
    if entries == [] then [] else [Matches(JsTrim(entries[0]), name)] + Hits(entries[1..], name)
  }

  lemma {:induction false} HitAt(entries: seq<string>, name: string, i: nat)
    requires i < |entries|
    ensures Hits(entries, name)[i] == Matches(JsTrim(entries[i]), name)
  {
    if i > 0 {
      HitAt(entries[1..], name, i - 1);
    }
  }

  /** The index of the first `true`. */
  function FirstTrue(bs: seq<bool>): (r: Option<nat>)
    ensures r.Some? ==> r.value < |bs| && bs[r.value] && forall j :: 0 <= j < r.value ==> !bs[j]
    ensures r.None? ==> forall j :: 0 <= j < |bs| ==> !bs[j]
  {
    if bs == [] then None
    else if bs[0] then Some(0)
    else match FirstTrue(bs[1..])
      case None => None
      case Some(k) => Some(k + 1)
  }

  /** Scanning one more flag past a prefix without a `true`. */
  lemma FirstTrueAt(bs: seq<bool>, i: nat)
    requires i < |bs| && FirstTrue(bs[..i]).None?
    ensures bs[i] ==> FirstTrue(bs) == Some(i)
    ensures !bs[i] ==> FirstTrue(bs[..i + 1]).None?
  {
    assert forall j :: 0 <= j < i ==> bs[..i][j] == bs[j];
    assert forall j :: 0 <= j <= i ==> bs[..i + 1][j] == bs[j];
  }

  lemma FirstTrueWhole(bs: seq<bool>)
    requires FirstTrue(bs[..|bs|]).None?
    ensures FirstTrue(bs).None?
  {
    assert bs[..|bs|] == bs;
  }

  /** The decoded value of a matching entry: `decodeURIComponent` of what
      follows `name=`. */
  function ValueOf(entry: string, name: string): (r: Result<Option<string>, string>)
    ensures r.Ok? ==> r.value.Some?
  {
    match Decode(Suffix(entry, |name| + 1))
    case Ok(v) => Ok(Some(v))
    case Err(e) => Err(e)
  }

  /** What `getCookie(name)` gives for the cookie string `cookie`: `Ok(None)`
      for `null`, `Ok(Some(v))` for a value, `Err` when decoding throws. */
  function CookieLookup(cookie: string, name: string): (r: Result<Option<string>, string>) {
    if cookie == "" then Ok(None)
    else
      var entries := Split(cookie, ";");
      match FirstTrue(Hits(entries, name))
      case None => Ok(None)
      case Some(i) => ValueOf(JsTrim(entries[i]), name)
  }

  /** `getCookie(name)` over `document.cookie`: split on ";", trim each
      entry, stop at the first that starts with `name=` and decode the rest. */
  method GetCookie(cookie: string, name: string) returns (r: Result<Option<string>, string>)
    ensures r == CookieLookup(cookie, name)
  {
    if cookie == "" {
      return Ok(None);
    }
    var cookies := Split(cookie, ";");
    ghost var hits := Hits(cookies, name);
    var i := 0;
    while i < |cookies|
      invariant 0 <= i <= |cookies| == |hits|
      invariant FirstTrue(hits[..i]).None?
    {
      var entry := JsTrim(cookies[i]);
      HitAt(cookies, name, i);
      if Matches(entry, name) {
        FirstTrueAt(hits, i);
        return ValueOf(entry, name);
      }
      FirstTrueAt(hits, i);
      i := i + 1;
    }
    FirstTrueWhole(hits);
    return Ok(None);
  }

  /** No cookies, no value. */
  lemma NoCookies(name: string)
    ensures CookieLookup("", name) == Ok(None)
  {
  }

  /** A cookie whose name merely starts with `name` is not taken for it. */
  lemma LongerNameNoMatch(name: string, other: string, value: string)
    requires |name| < |other| && other[..|name|] == name && other[|name|] != '='
    ensures !Matches(other + "=" + value, name)
  {
    assert (other + "=" + value)[|name|] == other[|name|];
  }

  // ---------------------------------------------------------- cookie jars

  /** Characters of a cookie name: a token of section 4.1.1 of RFC 6265,
      which excludes blanks, ";" and "=". */
  predicate NameChar(c: char) {
    0x21 <= c as int <= 0x7E && c != '"' && c != ',' && c != ';' && c != '\\' && c != '='
    && c != '(' && c != ')' && c != '<' && c != '>' && c != '@' && c != ':' && c != '/'
    && c != '[' && c != ']' && c != '?' && c != '{' && c != '}'
  }

  /** Characters of a cookie value (cookie-octet of section 4.1.1 of RFC 6265). */
  predicate ValueChar(c: char) {
    0x21 <= c as int <= 0x7E && c != '"' && c != ',' && c != ';' && c != '\\'
  }

  predicate WellFormedJar(jar: seq<(string, string)>) {
    forall i :: 0 <= i < |jar| ==>
      |jar[i].0| > 0
      && (forall k :: 0 <= k < |jar[i].0| ==> NameChar(jar[i].0[k]))
      && (forall k :: 0 <= k < |jar[i].1| ==> ValueChar(jar[i].1[k]))
  }

  /** The entries of the `document.cookie` text of a jar: `name=value`
      pairs, each after the first preceded by the blank of the "; " separator. */
  function Entry(jar: seq<(string, string)>, i: nat): string
    requires i < |jar|
  {
    (if i == 0 then "" else " ") + jar[i].0 + "=" + jar[i].1
  }

  function Entries(jar: seq<(string, string)>): (es: seq<string>)
    ensures |es| == |jar| && forall i :: 0 <= i < |jar| ==> es[i] == Entry(jar, i)
  {
    seq(|jar|, i requires 0 <= i < |jar| => Entry(jar, i))
  }

  function CookieString(jar: seq<(string, string)>): string {
    Join(Entries(jar), ";")
  }

  /** The raw value of the first cookie of the jar called `name`. */
  function JarValue(jar: seq<(string, string)>, name: string): (v: Option<string>)
    ensures v.Some? ==> exists i :: 0 <= i < |jar| && jar[i] == (name, v.value)
    ensures v.None? ==> forall i :: 0 <= i < |jar| ==> jar[i].0 != name
  {
    if jar == [] then None
    else if jar[0].0 == name then Some(jar[0].1)
    else match JarValue(jar[1..], name)
      case None => None
      case Some(v) =>
        assert forall i :: 1 <= i < |jar| ==> jar[1..][i - 1] == jar[i];
        Some(v)
  }

  /** With names free of "=", an entry matches exactly when its name is the one sought. */
  lemma MatchesName(n: string, v: string, name: string)
    requires '=' !in n && '=' !in name
    ensures Matches(n + "=" + v, name) <==> n == name
  {
    var e := n + "=" + v;
    if |name| < |n| {
      assert e[|name|] == n[|name|];
      assert n[|name|] in n;
    } else if |name| > |n| {
      if |name| + 1 <= |e| {
        assert e[..|name| + 1][|n|] == '=';
        assert (name + "=")[|n|] == name[|n|];
        assert name[|n|] in name;
      }
    } else {
      assert e[..|name| + 1] == n + "=";
      if Matches(e, name) {
        assert n == (n + "=")[..|n|];
        assert name == (name + "=")[..|name|];
      }
    }
  }

  /** Trimming text with no blank at either end, after one leading blank. */
  lemma TrimAfterBlank(e: string)
    requires e != [] && !IsJsSpace(e[0]) && !IsJsSpace(e[|e| - 1])
    ensures JsTrim(" " + e) == e
  {
    var t := " " + e;
    assert TrimStart(t, JavaScript) == e by {
      assert t[1..] == e;
      assert TrimStart(e, JavaScript) == e;
    }
    assert TrimEnd(e, JavaScript) == e;
  }

  /** A cookie's `name=value` text starts and ends with a printable character. */
  lemma PairEnds(n: string, v: string)
    requires |n| > 0 && NameChar(n[0])
    requires v != [] ==> ValueChar(v[|v| - 1])
    ensures var e := n + "=" + v; e != [] && !IsJsSpace(e[0]) && !IsJsSpace(e[|e| - 1])
  {
    var e := n + "=" + v;
    assert e[0] == n[0];
    if v != [] { assert e[|e| - 1] == v[|v| - 1]; }
  }

  lemma TrimPair(n: string, v: string, first: bool)
    requires |n| > 0 && NameChar(n[0])
    requires v != [] ==> ValueChar(v[|v| - 1])
    ensures JsTrim((if first then "" else " ") + n + "=" + v) == n + "=" + v
  {
    var e := n + "=" + v;
    PairEnds(n, v);
    if first {
      assert JsTrim("" + n + "=" + v) == e by {
        assert "" + n + "=" + v == e;
        TrimUnpadded(e, JavaScript);
      }
    } else {
      assert JsTrim(" " + n + "=" + v) == e by {
        assert " " + n + "=" + v == " " + e;
        TrimAfterBlank(e);
      }
    }
  }

  lemma TrimEntry(jar: seq<(string, string)>, i: nat)
    requires WellFormedJar(jar) && i < |jar|
    ensures JsTrim(Entry(jar, i)) == jar[i].0 + "=" + jar[i].1
  {
    var n, v := jar[i].0, jar[i].1;
    assert |n| > 0 && NameChar(n[0]) && (v != [] ==> ValueChar(v[|v| - 1]));
    TrimPair(n, v, i == 0);
  }

  /** Which cookies of the jar carry the name. */
  function NameHits(jar: seq<(string, string)>, name: string): (hits: seq<bool>)
    ensures |hits| == |jar| && forall i :: 0 <= i < |jar| ==> hits[i] == (jar[i].0 == name)
  {
    seq(|jar|, i requires 0 <= i < |jar| => jar[i].0 == name)
  }

  /** An entry of the cookie string matches exactly when its cookie carries the name. */
  lemma JarHits(jar: seq<(string, string)>, name: string)
    requires WellFormedJar(jar) && '=' !in name
    ensures Hits(Entries(jar), name) == NameHits(jar, name)
  {
    forall i | 0 <= i < |jar|
      ensures Hits(Entries(jar), name)[i] == (jar[i].0 == name)
    {
      HitAt(Entries(jar), name, i);
      TrimEntry(jar, i);
      assert '=' !in jar[i].0 by {
        forall k | 0 <= k < |jar[i].0| ensures jar[i].0[k] != '=' { assert NameChar(jar[i].0[k]); }
      }
      MatchesName(jar[i].0, jar[i].1, name);
    }
  }

  /** The first cookie carrying the name is the one `JarValue` reports. */
  lemma {:induction false} FirstNamed(jar: seq<(string, string)>, name: string)
    ensures match JarValue(jar, name)
      case None => FirstTrue(NameHits(jar, name)).None?
      case Some(v) => (FirstTrue(NameHits(jar, name)).Some?
        && jar[FirstTrue(NameHits(jar, name)).value] == (name, v))
  {
    if jar != [] {
      FirstNamed(jar[1..], name);
      assert NameHits(jar, name)[1..] == NameHits(jar[1..], name);
    }
  }

  lemma NoSemicolon(jar: seq<(string, string)>, k: nat)
    requires WellFormedJar(jar) && k < |jar|
    ensures ';' !in Entry(jar, k)
  {
    var e := Entry(jar, k);
    var pad := if k == 0 then 0 else 1;
    forall p | 0 <= p < |e| ensures e[p] != ';' {
      if p >= pad + |jar[k].0| + 1 {
        assert e[p] == jar[k].1[p - pad - |jar[k].0| - 1];
      } else if p >= pad && p < pad + |jar[k].0| {
        assert e[p] == jar[k].0[p - pad];
      }
    }
  }

  /** The cookie string of a non-empty jar is not empty, and splitting it on
      ";" gives back its entries. */
  lemma CookieEntries(jar: seq<(string, string)>)
    requires WellFormedJar(jar) && jar != []
    ensures CookieString(jar) != "" && Split(CookieString(jar), ";") == Entries(jar)
  {
    var entries := Entries(jar);
    forall k | 0 <= k < |entries| ensures ';' !in entries[k] {
      NoSemicolon(jar, k);
    }
    SplitJoinChar(entries, ';');
    assert |Entry(jar, 0)| > 0;
    if |jar| > 1 {
      JoinCons(entries[0], entries[1..], ";");
      assert entries == [entries[0]] + entries[1..];
    }
  }

  /** Reading a cookie back from the cookie string of a jar gives the
      decoded value of the first cookie of that name, and `null` when the jar
      has none. */
  lemma JarLookup(jar: seq<(string, string)>, name: string)
    requires WellFormedJar(jar) && '=' !in name
    ensures CookieLookup(CookieString(jar), name) ==
      match JarValue(jar, name)
      case None => Ok(None)
      case Some(v) =>
        match Decode(v)
        case Ok(d) => Ok(Some(d))
        case Err(e) => Err(e)
  {
    if jar != [] {
      CookieEntries(jar);
      JarHits(jar, name);
      FirstNamed(jar, name);
      match FirstTrue(NameHits(jar, name))
      case None =>
      case Some(i) =>
        TrimEntry(jar, i);
        assert Suffix(jar[i].0 + "=" + jar[i].1, |name| + 1) == jar[i].1;
    }
  }
}
