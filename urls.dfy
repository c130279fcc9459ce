/**
  The URL pieces the resolver builds and takes apart: `quote_plus` and
  `urlencode` (the form encoding of the HTML living standard, built on the
  percent-encoding of section 2.1 of RFC 3986), the scheme and authority that
  `urlparse` reads from a URL (section 3 of RFC 3986), and the three URLs
  `resolve_m3u8_link` composes (M3U8ResolverOMG.py lines 166, 173, 195-197).
*/
module Urls {
  import opened Text

  // ---------------------------------------------------------------------
  // quote_plus(s, safe='')
  // ---------------------------------------------------------------------

  /** The characters `quote` never escapes: letters, digits and `_.-~`. */
  predicate Unreserved(c: char) {
    'A' <= c <= 'Z' || 'a' <= c <= 'z' || '0' <= c <= '9' || c == '_' || c == '.' || c == '-' || c == '~'
  }

  /** The only characters `quote_plus` can produce. */
  predicate FormSafe(c: char) {
    Unreserved(c) || c == '+' || c == '%'
  }

  predicate IsAscii(s: string) {
    forall k :: 0 <= k < |s| ==> s[k] as int < 0x80
  }

  function HexDigit(n: int): (c: char)
    requires 0 <= n < 16
    ensures Unreserved(c)
  {
    if n < 10 then ('0' as int + n) as char else ('A' as int + n - 10) as char
  }

  predicate IsHex(c: char) {
    '0' <= c <= '9' || 'A' <= c <= 'F' || 'a' <= c <= 'f'
  }

  function HexValue(c: char): (n: int)
    requires IsHex(c)
    ensures 0 <= n < 16
  {
    if '0' <= c <= '9' then c as int - '0' as int
    else if 'A' <= c <= 'F' then c as int - 'A' as int + 10
    else c as int - 'a' as int + 10
  }

  lemma HexRoundTrip(n: int)
    requires 0 <= n < 16
    ensures IsHex(HexDigit(n)) && HexValue(HexDigit(n)) == n
  {
  }

  /** The UTF-8 encoding of one character (section 3 of RFC 3629). */
  function Utf8(c: char): (bytes: seq<int>)
    ensures 1 <= |bytes| <= 4
    ensures forall k :: 0 <= k < |bytes| ==> 0 <= bytes[k] < 0x100
    ensures |bytes| == 1 <==> c as int < 0x80
    ensures |bytes| == 1 ==> bytes[0] == c as int
  {
    var n := c as int;
    if n < 0x80 then [n]
    else if n < 0x800 then [0xC0 + n / 0x40, 0x80 + n % 0x40]
    else if n < 0x10000 then [0xE0 + n / 0x1000, 0x80 + n / 0x40 % 0x40, 0x80 + n % 0x40]
    else [0xF0 + n / 0x40000, 0x80 + n / 0x1000 % 0x40, 0x80 + n / 0x40 % 0x40, 0x80 + n % 0x40]
  }

  /** `%XX` for every byte, with upper-case hexadecimal digits. */
  function PercentBytes(bytes: seq<int>): (r: string)
    requires forall k :: 0 <= k < |bytes| ==> 0 <= bytes[k] < 0x100
    ensures |r| == 3 * |bytes|
    ensures forall k :: 0 <= k < |r| ==> FormSafe(r[k])
    decreases |bytes|
  {
    if bytes == [] then []
    else ['%', HexDigit(bytes[0] / 16), HexDigit(bytes[0] % 16)] + PercentBytes(bytes[1..])
  }

  /** What `quote_plus` writes for one character. */
  function QuoteChar(c: char): (r: string)
    ensures r != [] && forall k :: 0 <= k < |r| ==> FormSafe(r[k])
    ensures Unreserved(c) ==> r == [c]
    ensures c == ' ' ==> r == "+"
    ensures !Unreserved(c) && c != ' ' ==> r[0] == '%' && |r| == 3 * |Utf8(c)|
  {
    if Unreserved(c) then [c] else if c == ' ' then "+" else PercentBytes(Utf8(c))
  }

  /** `urllib.parse.quote_plus(s)`: the signature at line 159 and every urlencode key and value. */
  function QuotePlus(s: string): (r: string)
    ensures forall k :: 0 <= k < |r| ==> FormSafe(r[k])
    ensures |r| >= |s|
    decreases |s|
  {
    if s == [] then [] else QuoteChar(s[0]) + QuotePlus(s[1..])
  }

  /** A text made only of unreserved characters is its own encoding. */
  lemma {:induction false} QuotePlusUnreserved(s: string)
    requires forall k :: 0 <= k < |s| ==> Unreserved(s[k])
    ensures QuotePlus(s) == s
    decreases |s|
  {
    if s != [] {
      QuotePlusUnreserved(s[1..]);
    }
  }

  /**
    The decoding of the form encoding: `+` is a space and `%XX` the character
    with that code. For ASCII text it is `unquote_plus`.
  */
  function UnquotePlus(s: string): string
    decreases |s|
  {
    if s == [] then []
    else if s[0] == '+' then [' '] + UnquotePlus(s[1..])
    else if s[0] == '%' && |s| >= 3 && IsHex(s[1]) && IsHex(s[2]) then
      [(HexValue(s[1]) * 16 + HexValue(s[2])) as char] + UnquotePlus(s[3..])
    else [s[0]] + UnquotePlus(s[1..])
  }

  lemma UnquoteOneChar(c: char, rest: string)
    requires c as int < 0x80
    ensures UnquotePlus(QuoteChar(c) + rest) == [c] + UnquotePlus(rest)
  {
    var q := QuoteChar(c);
    if !Unreserved(c) && c != ' ' {
      var n := c as int;
      HexRoundTrip(n / 16);
      HexRoundTrip(n % 16);
      assert q == ['%', HexDigit(n / 16), HexDigit(n % 16)];
      assert (q + rest)[3..] == rest;
    } else {
      assert (q + rest)[1..] == rest;
    }
  }

  /** Decoding undoes `quote_plus` on ASCII text. */
  lemma {:induction false} QuotePlusRoundTrip(s: string)
    requires IsAscii(s)
    ensures UnquotePlus(QuotePlus(s)) == s
    decreases |s|
  {
    if s != [] {
      QuotePlusRoundTrip(s[1..]);
      UnquoteOneChar(s[0], QuotePlus(s[1..]));
    }
  }

  // ---------------------------------------------------------------------
  // urlencode(params) and the query it makes
  // ---------------------------------------------------------------------

  function EncodePair(p: (string, string)): (r: string)
    ensures '&' !in r
    ensures r != []
  {
    var r := QuotePlus(p.0) + "=" + QuotePlus(p.1);
    assert forall k :: 0 <= k < |r| ==> r[k] == '=' || FormSafe(r[k]);
    r
  }

  /** `urllib.parse.urlencode(params)` for an ordered sequence of string pairs. */
  function UrlEncode(params: seq<(string, string)>): (r: string)
    ensures r == "" <==> params == []
    decreases |params|
  {
    if params == [] then ""
    else if |params| == 1 then EncodePair(params[0])
    else EncodePair(params[0]) + "&" + UrlEncode(params[1..])
  }

  /** `s.split(c)` */
  function SplitOn(s: string, c: char): (parts: seq<string>)
    ensures parts != []
    decreases |s|
  {
    match IndexOf(s, c, 0)
    case None => [s]
    case Some(i) => [s[..i]] + SplitOn(s[i + 1..], c)
  }

  lemma SplitOnFirst(a: string, b: string, c: char)
    requires c !in a
    ensures SplitOn(a + [c] + b, c) == [a] + SplitOn(b, c)
  {
    var s := a + [c] + b;
    assert s[|a|] == c;
    assert IndexOf(s, c, 0) == Some(|a|);
    assert s[..|a|] == a && s[|a| + 1..] == b;
  }

  lemma SplitOnNone(s: string, c: char)
    requires c !in s
    ensures SplitOn(s, c) == [s]
  {
    assert IndexOf(s, c, 0).None?;
  }

  /** One `key=value` field of a query, decoded. */
  function DecodePair(field: string): (string, string) {
    match IndexOf(field, '=', 0)
    case None => (UnquotePlus(field), "")
    case Some(i) => (UnquotePlus(field[..i]), UnquotePlus(field[i + 1..]))
  }

  function DecodeFields(fields: seq<string>): (r: seq<(string, string)>)
    ensures |r| == |fields|
    decreases |fields|
  {
    if fields == [] then [] else [DecodePair(fields[0])] + DecodeFields(fields[1..])
  }

  /** The fields of a query string, in order, decoded. */
  function ParseQuery(q: string): (r: seq<(string, string)>)
    ensures q == "" <==> r == []
  {
    if q == "" then [] else DecodeFields(SplitOn(q, '&'))
  }

  lemma DecodeEncodedPair(p: (string, string))
    requires IsAscii(p.0) && IsAscii(p.1)
    ensures DecodePair(EncodePair(p)) == p
  {
    var k := QuotePlus(p.0);
    var field := k + "=" + QuotePlus(p.1);
    assert field[|k|] == '=';
    assert forall j :: 0 <= j < |k| ==> FormSafe(k[j]);
    assert IndexOf(field, '=', 0) == Some(|k|);
    assert field[..|k|] == k && field[|k| + 1..] == QuotePlus(p.1);
    QuotePlusRoundTrip(p.0);
    QuotePlusRoundTrip(p.1);
  }

  lemma ParseQueryOne(field: string)
    requires field != "" && '&' !in field
    ensures ParseQuery(field) == [DecodePair(field)]
  {
    SplitOnNone(field, '&');
  }

  lemma ParseQueryCons(field: string, rest: string)
    requires '&' !in field && rest != ""
    ensures ParseQuery(field + "&" + rest) == [DecodePair(field)] + ParseQuery(rest)
  {
    assert field + "&" + rest == field + ['&'] + rest;
    SplitOnFirst(field, rest, '&');
    assert ([field] + SplitOn(rest, '&'))[1..] == SplitOn(rest, '&');
  }

  /** Parsing the query `urlencode` writes gives back the pairs, in order. */
  lemma {:induction false} UrlEncodeRoundTrip(params: seq<(string, string)>)
    requires forall i :: 0 <= i < |params| ==> IsAscii(params[i].0) && IsAscii(params[i].1)
    ensures ParseQuery(UrlEncode(params)) == params
    decreases |params|
  {
    if params != [] {
      DecodeEncodedPair(params[0]);
      if |params| == 1 {
        ParseQueryOne(EncodePair(params[0]));
      } else {
        UrlEncodeRoundTrip(params[1..]);
        ParseQueryCons(EncodePair(params[0]), UrlEncode(params[1..]));
      }
    }
  }

  // ---------------------------------------------------------------------
  // urlparse(url).scheme and .netloc
  // ---------------------------------------------------------------------

  predicate SchemeChar(c: char) {
    'A' <= c <= 'Z' || 'a' <= c <= 'z' || '0' <= c <= '9' || c == '+' || c == '-' || c == '.'
  }

  /** Leading C0 control characters and spaces are dropped. */
  function LStripControl(s: string): (r: string)
    ensures |r| <= |s| && r == s[|s| - |r|..]
    ensures r == [] || r[0] as int > 0x20
    decreases |s|
  {
    if s != [] && s[0] as int <= 0x20 then LStripControl(s[1..]) else s
  }

  predicate Unsafe(c: char) {
    c == '\t' || c == '\r' || c == '\n'
  }

  /** A text with no tab, carriage return or line feed. */
  predicate Clean(s: string) {
    forall k :: 0 <= k < |s| ==> !Unsafe(s[k])
  }

  lemma CleanConcat(a: string, b: string)
    requires Clean(a) && Clean(b)
    ensures Clean(a + b)
  {
    assert forall k :: |a| <= k < |a + b| ==> (a + b)[k] == b[k - |a|];
  }

  /** Tabs, carriage returns and line feeds are removed everywhere. */
  function RemoveUnsafe(s: string): (r: string)
    ensures Clean(r)
    ensures Clean(s) ==> r == s
    decreases |s|
  {
    if s == [] then []
    else if Unsafe(s[0]) then RemoveUnsafe(s[1..])
    else [s[0]] + RemoveUnsafe(s[1..])
  }

  /** The end of the authority that starts at `from`: the first `/`, `?` or `#`. */
  function AuthorityEnd(s: string, from: nat): (j: nat)
    requires from <= |s|
    ensures from <= j <= |s|
    ensures forall k :: from <= k < j ==> s[k] != '/' && s[k] != '?' && s[k] != '#'
    ensures j == |s| || s[j] == '/' || s[j] == '?' || s[j] == '#'
    decreases |s| - from
  {
    if from == |s| || s[from] == '/' || s[from] == '?' || s[from] == '#' then from
    else AuthorityEnd(s, from + 1)
  }

  /** The scheme (lower-cased) and the rest of a cleaned URL. */
  function SplitScheme(url: string): (string, string) {
    match IndexOf(url, ':', 0)
    case None => ("", url)
    case Some(i) =>
      if i > 0 && ('A' <= url[0] <= 'Z' || 'a' <= url[0] <= 'z')
        && forall k :: 0 <= k < i ==> SchemeChar(url[k])
      then (Lower(url[..i]), url[i + 1..])
      else ("", url)
  }

  /**
    `(urlparse(url).scheme, urlparse(url).netloc)`, or None where `urlparse`
    raises ValueError for a `[` without `]` or a `]` without `[` in the netloc.
  */
  function UrlSplit(url: string): (r: Option<(string, string)>)
    ensures r.Some? ==> ('[' in r.value.1 <==> ']' in r.value.1)
  {
    var (scheme, rest) := SplitScheme(RemoveUnsafe(LStripControl(url)));
    var netloc := if "//" <= rest then rest[2..AuthorityEnd(rest, 2)] else "";
    if ('[' in netloc && ']' !in netloc) || (']' in netloc && '[' !in netloc) then None
    else Some((scheme, netloc))
  }

  /** `urlparse(url2).scheme + "://" + urlparse(url2).netloc` (line 135). */
  function Origin(url: string): (r: Option<string>)
    ensures r.Some? <==> UrlSplit(url).Some?
    ensures r.Some? ==> r.value == UrlSplit(url).value.0 + "://" + UrlSplit(url).value.1
  {
    match UrlSplit(url)
    case None => None
    case Some(parts) => Some(parts.0 + "://" + parts.1)
  }

  /** A scheme as section 3.1 of RFC 3986 writes it: a letter, then letters, digits, `+`, `-`, `.`. */
  predicate ValidScheme(scheme: string) {
    scheme != [] && ('A' <= scheme[0] <= 'Z' || 'a' <= scheme[0] <= 'z')
    && forall k :: 0 <= k < |scheme| ==> SchemeChar(scheme[k])
  }

  predicate Delimiter(c: char) {
    c == '/' || c == '?' || c == '#'
  }

  /** A host with no delimiter of the authority, no bracket and nothing `urlparse` removes. */
  predicate PlainHost(host: string) {
    Clean(host) && forall k :: 0 <= k < |host| ==> !Delimiter(host[k]) && host[k] != '[' && host[k] != ']'
  }

  /** What may follow the authority: nothing, or a path, query or fragment. */
  predicate AfterAuthority(rest: string) {
    Clean(rest) && (rest == [] || Delimiter(rest[0]))
  }

  lemma SplitSchemeOf(scheme: string, rest: string)
    requires ValidScheme(scheme)
    ensures SplitScheme(scheme + ":" + rest) == (Lower(scheme), rest)
  {
    var url := scheme + ":" + rest;
    assert url[|scheme|] == ':';
    assert forall k :: 0 <= k < |scheme| ==> url[k] == scheme[k] != ':';
    assert IndexOf(url, ':', 0) == Some(|scheme|);
    assert url[..|scheme|] == scheme && url[|scheme| + 1..] == rest;
  }

  lemma AuthorityEndOf(host: string, rest: string)
    requires forall k :: 0 <= k < |host| ==> !Delimiter(host[k])
    requires rest == [] || Delimiter(rest[0])
    ensures AuthorityEnd("//" + host + rest, 2) == 2 + |host|
    ensures ("//" + host + rest)[2..2 + |host|] == host
  {
    var tail := "//" + host + rest;
    assert forall k :: 2 <= k < 2 + |host| ==> tail[k] == host[k - 2];
    assert tail[2 + |host|..] == rest;
  }

  /** Cleaning leaves `scheme://authority...` alone, and the scheme splits off. */
  lemma SplitAuthorityUrl(scheme: string, host: string, rest: string)
    requires ValidScheme(scheme) && Clean(host) && Clean(rest)
    ensures SplitScheme(RemoveUnsafe(LStripControl(scheme + "://" + host + rest))) == (Lower(scheme), "//" + host + rest)
  {
    var url := scheme + "://" + host + rest;
    var tail := "//" + host + rest;
    assert url == scheme + ":" + tail;
    assert Clean(scheme);
    assert Clean(":") && Clean("//");
    CleanConcat("//", host);
    CleanConcat("//" + host, rest);
    CleanConcat(scheme, ":");
    CleanConcat(scheme + ":", tail);
    assert LStripControl(url) == url;
    SplitSchemeOf(scheme, tail);
  }

  /** For `scheme://host/...` the origin is the lower-cased scheme, `://` and the host. */
  lemma OriginOf(scheme: string, host: string, rest: string)
    requires ValidScheme(scheme) && PlainHost(host) && AfterAuthority(rest)
    ensures Origin(scheme + "://" + host + rest) == Some(Lower(scheme) + "://" + host)
  {
    SplitAuthorityUrl(scheme, host, rest);
    AuthorityEndOf(host, rest);
    assert '[' !in host && ']' !in host;
    NetlocOf(scheme + "://" + host + rest, Lower(scheme), "//" + host + rest, host);
  }

  /** A netloc with an opening bracket and no closing one makes `urlparse` raise. */
  lemma UnbalancedBracketRejected(scheme: string, host: string, rest: string)
    requires ValidScheme(scheme) && Clean(host) && AfterAuthority(rest)
    requires forall k :: 0 <= k < |host| ==> !Delimiter(host[k]) && host[k] != ']'
    requires '[' in host
    ensures UrlSplit(scheme + "://" + host + rest).None?
  {
    var tail := "//" + host + rest;
    SplitAuthorityUrl(scheme, host, rest);
    AuthorityEndOf(host, rest);
    assert "//" <= tail;
    NetlocOf(scheme + "://" + host + rest, Lower(scheme), tail, host);
  }

  /** UrlSplit once the scheme is split off and the netloc found. */
  lemma NetlocOf(url: string, scheme: string, tail: string, netloc: string)
    requires SplitScheme(RemoveUnsafe(LStripControl(url))) == (scheme, tail)
    requires "//" <= tail && tail[2..AuthorityEnd(tail, 2)] == netloc
    ensures UrlSplit(url) == if ('[' in netloc && ']' !in netloc) || (']' in netloc && '[' !in netloc) then None
      else Some((scheme, netloc))
  {
  }

  // ---------------------------------------------------------------------
  // The URLs the resolver composes
  // ---------------------------------------------------------------------

  /** The authentication URL of line 166; the signature is form-encoded (line 159). */
  function AuthUrl(authHost: string, channelKey: string, ts: string, rnd: string, sig: string): string {
    authHost + channelKey + "&ts=" + ts + "&rnd=" + rnd + "&sig=" + QuotePlus(sig)
  }

  /** The text after the last `c` in `s`, or all of `s` when there is none. */
  function AfterLast(s: string, c: char): (r: string)
    ensures c !in r
    ensures |r| <= |s| && r == s[|s| - |r|..]
    decreases |s|
  {
    if s == [] then []
    else if s[|s| - 1] == c then []
    else AfterLast(s[..|s| - 1], c) + [s[|s| - 1]]
  }

  lemma {:induction false} AfterLastOf(a: string, c: char, b: string)
    requires c !in b
    ensures AfterLast(a + [c] + b, c) == b
    decreases |b|
  {
    var s := a + [c] + b;
    if b != [] {
      assert s[..|s| - 1] == a + [c] + b[..|b| - 1];
      AfterLastOf(a, c, b[..|b| - 1]);
    }
  }

  /**
    Encoding the signature keeps it whole: the last `&` of the authentication
    URL opens `sig=`, and decoding what follows gives back the signature.
  */
  lemma AuthUrlSignature(authHost: string, channelKey: string, ts: string, rnd: string, sig: string)
    requires IsAscii(sig)
    ensures AfterLast(AuthUrl(authHost, channelKey, ts, rnd, sig), '&') == "sig=" + QuotePlus(sig)
    ensures UnquotePlus(AfterLast(AuthUrl(authHost, channelKey, ts, rnd, sig), '&')[4..]) == sig
  {
    var q := QuotePlus(sig);
    var prefix := authHost + channelKey + "&ts=" + ts + "&rnd=" + rnd;
    assert AuthUrl(authHost, channelKey, ts, rnd, sig) == prefix + ['&'] + ("sig=" + q);
    assert forall k :: 0 <= k < |q| ==> FormSafe(q[k]);
    assert '&' !in "sig=" + q;
    AfterLastOf(prefix, '&', "sig=" + q);
    assert ("sig=" + q)[4..] == q;
    QuotePlusRoundTrip(sig);
  }

  /** The server-lookup URL of line 173. */
  function LookupUrl(netloc: string, lookupPath: string, channelKey: string): string {
    "https://" + netloc + lookupPath + channelKey
  }

  /** The stream URL of lines 195-197. */
  function StreamUrl(serverKey: string, host: string, channelKey: string): string {
    "https://" + serverKey + host + serverKey + "/" + channelKey + "/mono.m3u8"
  }

  /**
    The stream URL is an https URL whose authority is the server key, the host
    and the server key again, and whose path is `/<channel key>/mono.m3u8`.
  */
  lemma StreamUrlParts(serverKey: string, host: string, channelKey: string)
    requires PlainHost(serverKey + host + serverKey)
    requires Clean(channelKey)
    ensures Origin(StreamUrl(serverKey, host, channelKey)) == Some("https://" + (serverKey + host + serverKey))
  {
    var authority := serverKey + host + serverKey;
    var rest := "/" + channelKey + "/mono.m3u8";
    StreamPathClean(channelKey);
    StreamUrlShape(serverKey, host, channelKey);
    HttpsOrigin(authority, rest);
  }

  lemma StreamPathClean(channelKey: string)
    requires Clean(channelKey)
    ensures AfterAuthority("/" + channelKey + "/mono.m3u8")
  {
    assert Clean("/") && Clean("/mono.m3u8");
    CleanConcat("/", channelKey);
    CleanConcat("/" + channelKey, "/mono.m3u8");
  }

  lemma StreamUrlShape(serverKey: string, host: string, channelKey: string)
    ensures StreamUrl(serverKey, host, channelKey)
      == "https" + "://" + (serverKey + host + serverKey) + ("/" + channelKey + "/mono.m3u8")
  {
    var s1 := "https://" + serverKey + host + serverKey;
    assert s1 == "https" + "://" + (serverKey + host + serverKey);
    assert s1 + "/" + channelKey + "/mono.m3u8" == s1 + ("/" + channelKey + "/mono.m3u8");
  }

  /** Likewise the lookup URL's origin is `https://` and the iframe's netloc. */
  lemma LookupUrlOrigin(netloc: string, lookupPath: string, channelKey: string)
    requires PlainHost(netloc)
    requires AfterAuthority(lookupPath + channelKey)
    ensures Origin(LookupUrl(netloc, lookupPath, channelKey)) == Some("https://" + netloc)
  {
    assert LookupUrl(netloc, lookupPath, channelKey) == "https" + "://" + netloc + (lookupPath + channelKey);
    HttpsOrigin(netloc, lookupPath + channelKey);
  }

  lemma HttpsOrigin(host: string, rest: string)
    requires PlainHost(host) && AfterAuthority(rest)
    ensures Origin("https" + "://" + host + rest) == Some("https://" + host)
  {
    HttpsScheme();
    OriginOf("https", host, rest);
    calc {
      Lower("https") + "://" + host;
      "https" + "://" + host;
      { assert "https" + "://" == "https://"; }
      "https://" + host;
    }
  }

  lemma HttpsScheme()
    ensures ValidScheme("https") && Lower("https") == "https"
  {
    assert forall k :: 0 <= k < 5 ==> Lower("https")[k] == LowerChar("https"[k]) == "https"[k];
  }
}
