/** `build_curl_command` and `get_random_ua`: the query URL for a
    (resource type, keyword) pair and the curl command line that fetches
    it with a client identity drawn from a fixed pool. The keyword is
    percent-encoded as `urllib.parse.quote(keyword, safe='')` does: UTF-8
    bytes, each byte outside the unreserved set of section 2.3 of RFC 3986
    written as `%HH` (section 2.1). */
module Request {
  import opened Text
  import opened Json
  import opened Extraction

  type Byte = b: int | 0 <= b < 256

  /** The pool of client identities. */
  const UserAgents: seq<string> := [
    "Mozilla/5.0 (Windows NT 10.0; Win64; x64) AppleWebKit/537.36 (KHTML, like Gecko) Chrome/128.0.0.0 Safari/537.36",
    "Mozilla/5.0 (Macintosh; Intel Mac OS X 10_15_7) AppleWebKit/537.36 (KHTML, like Gecko) Chrome/127.0.0.0 Safari/537.36",
    "Mozilla/5.0 (Windows NT 10.0; Win64; x64) AppleWebKit/537.36 (KHTML, like Gecko) Edge/128.0.0.0 Safari/537.36",
    "Mozilla/5.0 (Macintosh; Intel Mac OS X 10_15_7) AppleWebKit/605.1.15 (KHTML, like Gecko) Version/17.6 Safari/605.1.15",
    "Mozilla/5.0 (X11; Linux x86_64) AppleWebKit/537.36 (KHTML, like Gecko) Chrome/127.0.0.0 Safari/537.36"
  ]

  /** The outcome of `random.choice(USER_AGENTS)`, as an index into the pool. */
  type UaIndex = i: nat | i < 5

  /** `get_random_ua()`, given the index the choice fell on: every index
      names a member of the pool. */
  function RandomUa(i: UaIndex): (ua: string)
    ensures ua in UserAgents
  {
    UserAgents[i]
  }

  const DefaultBase := "http://127.0.0.1:16181/query"

  // ---------------------------------------------------------------- UTF-8

  /** UTF-8 encoding of one code point (section 3 of RFC 3629). */
  function Utf8(c: char): (r: seq<Byte>)
    ensures 1 <= |r| <= 4
  {
    var n := c as int;
    var m1 := n / 64;
    var m2 := m1 / 64;
    var m3 := m2 / 64;
    if n < 0x80 then [n]
    else if n < 0x800 then [0xC0 + m1, 0x80 + n % 64]
    else if n < 0x10000 then [0xE0 + m2, 0x80 + m1 % 64, 0x80 + n % 64]
    else [0xF0 + m3, 0x80 + m2 % 64, 0x80 + m1 % 64, 0x80 + n % 64]
  }

  /** `s.encode('utf-8')`. */
  function Utf8Encode(s: string): seq<Byte> {
    if s == [] then [] else Utf8(s[0]) + Utf8Encode(s[1..])
  }

  predicate IsContinuation(b: Byte) {
    0x80 <= b < 0xC0
  }

  /** The six payload bits of a continuation byte. */
  function Low(b: Byte): int {
    b as int - 0x80
  }

  /** The code point `v` read from an `n`-byte sequence, if it is a
      scalar value that needs exactly `n` bytes. */
  function Scalar(v: int, least: int, n: nat): Option<(char, nat)> {
    if least <= v && (0 <= v < 0xD800 || 0xE000 <= v < 0x110000) then Some((v as char, n)) else None
  }

  /** Decode the first character of a byte sequence: the character and the
      number of bytes it took, or `None` if the bytes are not UTF-8. */
  function DecodeOne(bs: seq<Byte>): (r: Option<(char, nat)>)
    requires bs != []
    ensures r.Some? ==> 1 <= r.value.1 <= |bs|
  {
    var b0: int := bs[0];
    if b0 < 0x80 then Some((b0 as char, 1))
    else if 0xC0 <= b0 < 0xE0 && |bs| >= 2 && IsContinuation(bs[1]) then
      Scalar((b0 - 0xC0) * 64 + Low(bs[1]), 0x80, 2)
    else if 0xE0 <= b0 < 0xF0 && |bs| >= 3 && IsContinuation(bs[1]) && IsContinuation(bs[2]) then
      Scalar(((b0 - 0xE0) * 64 + Low(bs[1])) * 64 + Low(bs[2]), 0x800, 3)
    else if 0xF0 <= b0 < 0xF8 && |bs| >= 4 && IsContinuation(bs[1]) && IsContinuation(bs[2]) && IsContinuation(bs[3]) then
      Scalar((((b0 - 0xF0) * 64 + Low(bs[1])) * 64 + Low(bs[2])) * 64 + Low(bs[3]), 0x10000, 4)
    else None
  }

  /** Strict UTF-8 decoding of a whole byte sequence. */
  function Utf8Decode(bs: seq<Byte>): Option<string>
    decreases |bs|
  {
    if bs == [] then Some([])
    else match DecodeOne(bs)
      case None => None
      case Some((c, n)) =>
        match Utf8Decode(bs[n..])
        case None => None
        case Some(rest) => Some([c] + rest)
  }

  /** The decoder reads back the first encoded character, whatever follows. */
  lemma DecodeOneEncoded(c: char, rest: seq<Byte>)
    ensures DecodeOne(Utf8(c) + rest) == Some((c, |Utf8(c)|))
  {
    var n := c as int;
    if n < 0x80 {
    } else if n < 0x800 {
      DecodeTwo(c, rest);
    } else if n < 0x10000 {
      DecodeThree(c, rest);
    } else {
      DecodeFour(c, rest);
    }
  }

  lemma DecodeTwo(c: char, rest: seq<Byte>)
    requires 0x80 <= c as int < 0x800
    ensures DecodeOne(Utf8(c) + rest) == Some((c, 2))
  {
    var n := c as int;
    var m1 := n / 64;
    assert m1 * 64 + n % 64 == n;
    var bs := Utf8(c) + rest;
    assert bs[0] == 0xC0 + m1 && bs[1] == 0x80 + n % 64;
  }

  lemma DecodeThree(c: char, rest: seq<Byte>)
    requires 0x800 <= c as int < 0x10000
    ensures DecodeOne(Utf8(c) + rest) == Some((c, 3))
  {
    var n := c as int;
    var m1 := n / 64;
    var m2 := m1 / 64;
    assert m1 * 64 + n % 64 == n;
    assert m2 * 64 + m1 % 64 == m1;
    var bs := Utf8(c) + rest;
    assert bs[0] == 0xE0 + m2 && bs[1] == 0x80 + m1 % 64 && bs[2] == 0x80 + n % 64;
  }

  lemma DecodeFour(c: char, rest: seq<Byte>)
    requires 0x10000 <= c as int
    ensures DecodeOne(Utf8(c) + rest) == Some((c, 4))
  {
    var n := c as int;
    var m1 := n / 64;
    var m2 := m1 / 64;
    var m3 := m2 / 64;
    assert m1 * 64 + n % 64 == n;
    assert m2 * 64 + m1 % 64 == m1;
    assert m3 * 64 + m2 % 64 == m2;
    var bs := Utf8(c) + rest;
    assert bs[0] == 0xF0 + m3 && bs[1] == 0x80 + m2 % 64 && bs[2] == 0x80 + m1 % 64 && bs[3] == 0x80 + n % 64;
  }

  /** UTF-8 round trip: decoding an encoded string gives it back. */
  lemma {:induction false} Utf8RoundTrip(s: string)
    ensures Utf8Decode(Utf8Encode(s)) == Some(s)
  {
    if s != [] {
      var rest := Utf8Encode(s[1..]);
      DecodeOneEncoded(s[0], rest);
      assert (Utf8(s[0]) + rest)[|Utf8(s[0])|..] == rest;
      Utf8RoundTrip(s[1..]);
      assert s == [s[0]] + s[1..];
    }
  }

  // ---------------------------------------------------- percent-encoding

  /** The unreserved characters of section 2.3 of RFC 3986, which `quote`
      leaves as they are. */
  predicate IsUnreserved(c: char) {
    ('A' <= c <= 'Z') || ('a' <= c <= 'z') || ('0' <= c <= '9') || c == '_' || c == '.' || c == '-' || c == '~'
  }

  predicate IsUpperHex(c: char) {
    ('0' <= c <= '9') || ('A' <= c <= 'F')
  }

  function HexDigit(d: nat): (c: char)
    requires d < 16
    ensures IsUpperHex(c)
  {
    "0123456789ABCDEF"[d]
  }

  /** Value of a hexadecimal digit, either case. */
  function HexValue(c: char): Option<nat> {
    if '0' <= c <= '9' then Some(c as int - '0' as int)
    else if 'A' <= c <= 'F' then Some(c as int - 'A' as int + 10)
    else if 'a' <= c <= 'f' then Some(c as int - 'a' as int + 10)
    else None
  }

  lemma HexValueOfDigit(d: nat)
    requires d < 16
    ensures HexValue(HexDigit(d)) == Some(d)
  {
  }

  function QuoteByte(b: Byte): string {
    if b < 0x80 && IsUnreserved(b as char) then [b as char]
    else ['%', HexDigit(b / 16), HexDigit(b % 16)]
  }

  function QuoteBytes(bs: seq<Byte>): string {
    if bs == [] then [] else QuoteByte(bs[0]) + QuoteBytes(bs[1..])
  }

  /** `urllib.parse.quote(s, safe='')`. */
  function Quote(s: string): string {
    QuoteBytes(Utf8Encode(s))
  }

  /** Percent-decoding to bytes: the reference inverse of `QuoteBytes`. */
  function UnquoteBytes(e: string): Option<seq<Byte>>
    decreases |e|
  {
    if e == [] then Some([])
    else if e[0] == '%' then
      if |e| >= 3 && HexValue(e[1]).Some? && HexValue(e[2]).Some?
         && HexValue(e[1]).value < 16 && HexValue(e[2]).value < 16 then
        match UnquoteBytes(e[3..])
        case None => None
        case Some(rest) => Some([16 * HexValue(e[1]).value + HexValue(e[2]).value] + rest)
      else None
    else if IsUnreserved(e[0]) then
      match UnquoteBytes(e[1..])
      case None => None
      case Some(rest) => Some([e[0] as int] + rest)
    else None
  }

  /** Percent-decoding followed by UTF-8 decoding. */
  function Unquote(e: string): Option<string> {
    match UnquoteBytes(e)
    case None => None
    case Some(bs) => Utf8Decode(bs)
  }

  lemma {:induction false} UnquoteQuoteBytes(bs: seq<Byte>)
    ensures UnquoteBytes(QuoteBytes(bs)) == Some(bs)
  {
    if bs != [] {
      UnquoteQuoteBytes(bs[1..]);
      UnquoteQuoteByte(bs[0], QuoteBytes(bs[1..]));
      assert bs == [bs[0]] + bs[1..];
    }
  }

  /** Decoding consumes exactly the encoding of one byte. */
  lemma UnquoteQuoteByte(b: Byte, rest: string)
    requires UnquoteBytes(rest).Some?
    ensures UnquoteBytes(QuoteByte(b) + rest) == Some([b] + UnquoteBytes(rest).value)
  {
    var e := QuoteByte(b) + rest;
    if b < 0x80 && IsUnreserved(b as char) {
      assert e[0] == b as char && e[1..] == rest;
    } else {
      HexValueOfDigit(b / 16);
      HexValueOfDigit(b % 16);
      assert e[0] == '%' && e[1] == HexDigit(b / 16) && e[2] == HexDigit(b % 16) && e[3..] == rest;
    }
  }

  /** Round trip of the keyword encoding: decoding gives the keyword back. */
  lemma QuoteRoundTrip(s: string)
    ensures Unquote(Quote(s)) == Some(s)
  {
    UnquoteQuoteBytes(Utf8Encode(s));
    Utf8RoundTrip(s);
  }

  /** The characters an encoded keyword is made of. */
  predicate IsQuotedChar(c: char) {
    IsUnreserved(c) || c == '%'
  }

  lemma {:induction false} QuoteBytesAlphabet(bs: seq<Byte>)
    ensures forall k :: 0 <= k < |QuoteBytes(bs)| ==> IsQuotedChar(QuoteBytes(bs)[k])
  {
    if bs != [] {
      QuoteBytesAlphabet(bs[1..]);
      var q := QuoteByte(bs[0]);
      assert forall k :: 0 <= k < |q| ==> IsQuotedChar(q[k]);
    }
  }

  /** An encoded keyword holds only unreserved characters and the `%` of
      `%HH` triplets; in particular no quote, ampersand, question mark,
      space or other character the query or the shell would interpret. */
  lemma QuoteAlphabet(s: string)
    ensures forall k :: 0 <= k < |Quote(s)| ==> IsQuotedChar(Quote(s)[k])
    ensures '"' !in Quote(s) && '&' !in Quote(s) && '?' !in Quote(s) && ' ' !in Quote(s)
    ensures '$' !in Quote(s) && '`' !in Quote(s) && '\\' !in Quote(s) && '#' !in Quote(s)
  {
    QuoteBytesAlphabet(Utf8Encode(s));
  }

  /** A keyword made only of unreserved characters is sent unchanged. */
  lemma {:induction false} QuoteUnreservedIsIdentity(s: string)
    requires forall k :: 0 <= k < |s| ==> IsUnreserved(s[k])
    ensures Quote(s) == s
  {
    if s != [] {
      QuoteUnreservedIsIdentity(s[1..]);
      assert Utf8Encode(s) == [s[0] as int] + Utf8Encode(s[1..]);
      assert QuoteBytes(Utf8Encode(s)) == QuoteByte(s[0] as int) + QuoteBytes(Utf8Encode(s[1..]));
      assert s == [s[0]] + s[1..];
    }
  }

  // ------------------------------------------------------- URL and command

  /** `f"{base_url}/{resource_type}?search={encoded}&pageSize=1000"`. */
  function Url(base: string, rt: ResourceType, keyword: string): string {
    SearchPrefix(base, rt) + Quote(keyword) + PageSizeParam
  }

  const PageSizeParam := "&pageSize=1000"

  /** The URL up to the search value. */
  function SearchPrefix(base: string, rt: ResourceType): string {
    base + "/" + Label(rt) + "?search="
  }

  /** The value of the `search` parameter as a server reads it: everything
      after the prefix up to the next `&`. */
  function SearchValue(url: string, prefix: string): string
    requires |prefix| <= |url|
  {
    var q := url[|prefix|..];
    q[..IndexOf(q, '&')]
  }

  /** The search value of `p + e + "&" + t` is `e` when `e` has no `&`. */
  lemma SearchValueOf(p: string, e: string, t: string)
    requires '&' !in e
    ensures SearchValue(p + e + ['&'] + t, p) == e
  {
    var url := p + e + ['&'] + t;
    assert url[|p|..] == e + ['&'] + t;
    IndexOfFirst(e, '&', t);
    assert (e + ['&'] + t)[..|e|] == e;
  }

  /** The keyword cannot break out of its parameter: the search value of
      the URL is its encoding, it decodes back to the keyword, and what
      follows it is exactly the page size parameter. */
  lemma SearchValueRoundTrip(base: string, rt: ResourceType, keyword: string)
    ensures |SearchPrefix(base, rt)| <= |Url(base, rt, keyword)|
    ensures Url(base, rt, keyword)[..|SearchPrefix(base, rt)|] == SearchPrefix(base, rt)
    ensures SearchValue(Url(base, rt, keyword), SearchPrefix(base, rt)) == Quote(keyword)
    ensures Unquote(SearchValue(Url(base, rt, keyword), SearchPrefix(base, rt))) == Some(keyword)
    ensures Url(base, rt, keyword)[|SearchPrefix(base, rt)| + |Quote(keyword)|..] == PageSizeParam
  {
    var p := SearchPrefix(base, rt);
    var e := Quote(keyword);
    var t := PageSizeParam[1..];
    assert PageSizeParam == ['&'] + t;
    assert Url(base, rt, keyword) == p + e + ['&'] + t;
    QuoteAlphabet(keyword);
    SearchValueOf(p, e, t);
    QuoteRoundTrip(keyword);
  }

  /** The characters that keep a special meaning inside a double-quoted
      shell word. */
  predicate ShellQuoteSafe(s: string) {
    forall k :: 0 <= k < |s| ==> s[k] != '"' && s[k] != '\\' && s[k] != '$' && s[k] != '`'
  }

  /** `build_curl_command(resource_type, keyword, base_url)`, where `ua`
      is what its call of `get_random_ua` returned (`RandomUa`). */
  function CurlCommand(rt: ResourceType, keyword: string, ua: string, base: string := DefaultBase): string {
    CurlPrefix + ua + CurlOptions + Url(base, rt, keyword) + "\""
  }

  /** The command line up to the user agent, and what lies between the
      user agent and the URL: the connect timeout of 10 s and the overall
      limit of 60 s. */
  const CurlPrefix := "curl -A \""
  const CurlOptions := "\" --connect-timeout 10 --max-time 60 \""

  /** The command line's words: `curl -A "`, the user agent, the two
      timeouts, and the URL as the final double-quoted word; for a safe base
      no keyword can put a double quote inside that word. */
  lemma CurlCommandWords(rt: ResourceType, keyword: string, ua: string, base: string)
    requires ShellQuoteSafe(base)
    ensures var cmd := CurlCommand(rt, keyword, ua, base);
            var u := Url(base, rt, keyword);
            var n := |CurlPrefix| + |ua| + |CurlOptions|;
            |cmd| == n + |u| + 1
            && cmd[..|CurlPrefix|] == "curl -A \""
            && cmd[|CurlPrefix|..|CurlPrefix| + |ua|] == ua
            && cmd[|CurlPrefix| + |ua|..n] == "\" --connect-timeout 10 --max-time 60 \""
            && cmd[n - 1] == '"' && cmd[n..n + |u|] == u && cmd[n + |u|] == '"'
            && '"' !in u
  {
    Layout(CurlPrefix, ua, CurlOptions, Url(base, rt, keyword), "\"");
    UrlShellSafe(rt, keyword, base);
  }

  /** Where each of five concatenated parts sits in the whole. */
  lemma Layout(p: string, x: string, o: string, u: string, q: string)
    ensures var s := p + x + o + u + q;
            var n := |p| + |x| + |o|;
            |s| == n + |u| + |q|
            && s[..|p|] == p && s[|p|..|p| + |x|] == x && s[|p| + |x|..n] == o
            && s[n..n + |u|] == u && s[n + |u|..] == q
  {
    var s := p + x + o + u + q;
    var n := |p| + |x| + |o|;
    assert s == (p + x + o) + (u + q);
    assert s[n..] == u + q;
    assert (p + x + o)[..|p| + |x|] == p + x;
  }

  /** The base URL the source always uses holds no shell-special
      character. */
  lemma DefaultBaseShellSafe()
    ensures ShellQuoteSafe(DefaultBase)
  {
  }

  /** The command an attempt runs, with the default base and a pool
      agent: the URL is the final double-quoted word and holds no
      shell-special character, whatever the keyword. */
  lemma AttemptCommandWords(rt: ResourceType, keyword: string, i: UaIndex)
    ensures var ua := RandomUa(i);
            var cmd := CurlCommand(rt, keyword, ua);
            var u := Url(DefaultBase, rt, keyword);
            var n := |CurlPrefix| + |ua| + |CurlOptions|;
            |cmd| == n + |u| + 1
            && cmd[..|CurlPrefix|] == "curl -A \""
            && cmd[|CurlPrefix|..|CurlPrefix| + |ua|] == ua
            && cmd[|CurlPrefix| + |ua|..n] == "\" --connect-timeout 10 --max-time 60 \""
            && cmd[n - 1] == '"' && cmd[n..n + |u|] == u && cmd[n + |u|] == '"'
            && ShellQuoteSafe(u)
  {
    DefaultBaseShellSafe();
    CurlCommandWords(rt, keyword, RandomUa(i), DefaultBase);
    UrlShellSafe(rt, keyword, DefaultBase);
  }

  /** The URL is one double-quoted shell word taken literally whatever
      the keyword: it cannot end its quotes or expand, provided the base
      URL cannot either. */
  lemma UrlShellSafe(rt: ResourceType, keyword: string, base: string)
    requires ShellQuoteSafe(base)
    ensures ShellQuoteSafe(Url(base, rt, keyword))
  {
    var e := Quote(keyword);
    var tail := "/" + Label(rt) + "?search=";
    FixedPartsShellSafe(rt);
    QuotedShellSafe(keyword);
    ConcatShellSafe(base, tail);
    assert SearchPrefix(base, rt) == base + tail;
    ConcatShellSafe(base + tail, e);
    ConcatShellSafe(base + tail + e, PageSizeParam);
  }

  /** The fixed parts of the URL hold no shell-special character. */
  lemma FixedPartsShellSafe(rt: ResourceType)
    ensures ShellQuoteSafe("/" + Label(rt) + "?search=")
    ensures ShellQuoteSafe(PageSizeParam)
  {
    assert ShellQuoteSafe(Label(rt));
  }

  /** Nor does a percent-encoded value. */
  lemma QuotedShellSafe(keyword: string)
    ensures ShellQuoteSafe(Quote(keyword))
  {
    QuoteAlphabet(keyword);
    var e := Quote(keyword);
    forall k | 0 <= k < |e| ensures e[k] != '"' && e[k] != '\\' && e[k] != '$' && e[k] != '`' {
      assert IsQuotedChar(e[k]);
    }
  }

  lemma ConcatShellSafe(a: string, b: string)
    requires ShellQuoteSafe(a) && ShellQuoteSafe(b)
    ensures ShellQuoteSafe(a + b)
  {
    assert forall k :: |a| <= k < |a + b| ==> (a + b)[k] == b[k - |a|];
  }
}
