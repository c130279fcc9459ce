/**
  The proxy wrapping of M3U8ResolverOMG.py: `build_proxy_url` (lines 58-91),
  which assembles the proxy's query parameters, and `resolve_link` (lines
  239-267), which runs the resolver and hands a resolved URL to it.

  Line 87 calls `urlencode`, which line 15 never imports: as written,
  `build_proxy_url` raises NameError whenever a proxy is configured, and
  `resolve_link` answers from its exception handler. Both the code as
  written and the evidently intended one are modelled here.
*/
module Proxy {
  import opened Text
  import opened Urls
  import opened Resolver

  /** `proxy_config`, with string values. */
  type Config = map<string, string>

  /** The keys of `headers_map` (lines 76-80), in insertion order. */
  const HeaderKeys: seq<string> := ["User-Agent", "Referer", "Origin"]

  /** `headers.get(K, headers.get(k, ''))`: the Title-case key wins over the lower-case one. */
  function HeaderValue(h: Headers, key: string): (v: string)
    ensures key in h ==> v == h[key]
    ensures key !in h && Lower(key) in h ==> v == h[Lower(key)]
    ensures key !in h && Lower(key) !in h ==> v == ""
  {
    Get(h, key, Get(h, Lower(key), ""))
  }

  /** The parameter `h_<key lower-cased>` if its value is non-empty (lines 83-84). */
  function HeaderParam(h: Headers, key: string): (r: seq<(string, string)>)
    ensures |r| <= 1
    ensures r != [] <==> HeaderValue(h, key) != ""
    ensures r != [] ==> r[0] == ("h_" + Lower(key), HeaderValue(h, key))
  {
    var v := HeaderValue(h, key);
    if v != "" then [("h_" + Lower(key), v)] else []
  }

  /** The parameters the loop of lines 82-84 adds for the given keys, in order. */
  function HeaderParams(h: Headers, keys: seq<string>): (r: seq<(string, string)>)
    ensures |r| <= |keys|
    ensures forall i :: 0 <= i < |r| ==> r[i].1 != ""
    decreases |keys|
  {
    if keys == [] then [] else HeaderParams(h, keys[..|keys| - 1]) + HeaderParam(h, keys[|keys| - 1])
  }

  lemma HeaderParamsSnoc(h: Headers, keys: seq<string>, i: nat)
    requires i < |keys|
    ensures HeaderParams(h, keys[..i + 1]) == HeaderParams(h, keys[..i]) + HeaderParam(h, keys[i])
  {
    assert keys[..i + 1][..i] == keys[..i];
  }

  /** `proxy_config.get('url', '').strip('/')` (line 65). */
  function ProxyBase(config: Config): (base: string)
    ensures base == "" || (base[0] != '/' && base[|base| - 1] != '/')
    ensures var url := Get(config, "url", "");
      exists i, j ::
        && 0 <= i <= j <= |url|
        && base == url[i..j]
        && (forall k :: 0 <= k < i ==> url[k] == '/')
        && (forall k :: j <= k < |url| ==> url[k] == '/')
  {
    StripChar(Get(config, "url", ""), '/')
  }

  /**
    The parameters of lines 69-84: the password, the target, then one `h_`
    parameter per non-empty header when the headers dictionary is non-empty.
  */
  function ProxyParams(config: Config, original: string, h: Headers): (r: seq<(string, string)>)
    ensures 2 <= |r| <= 5
    ensures r[0] == ("api_password", Get(config, "password", ""))
    ensures r[1] == ("d", original)
    ensures forall i :: 2 <= i < |r| ==> r[i].1 != ""
    ensures h == map[] ==> |r| == 2
    ensures h != map[] ==> r[2..] == HeaderParams(h, HeaderKeys)
  {
    [("api_password", Get(config, "password", "")), ("d", original)]
      + (if h != map[] then HeaderParams(h, HeaderKeys) else [])
  }

  /** `build_proxy_url` as written: with a proxy configured, line 87 raises NameError. */
  datatype Built = Built(url: string) | NameError

  function BuildProxyUrl(config: Config, original: string, h: Headers): (r: Built)
    ensures r.Built? <==> config == map[]
    ensures r.Built? ==> r.url == original
  {
    if config == map[] then Built(original) else NameError
  }

  /** `build_proxy_url` with `urlencode` imported: `<base>/proxy/stream?<query>`. */
  function BuildProxyUrlFixed(config: Config, original: string, h: Headers): (r: string)
    ensures config == map[] ==> r == original
    ensures config != map[] ==> ProxyBase(config) + "/proxy/stream?" <= r
  {
    if config == map[] then original
    else ProxyBase(config) + "/proxy/stream?" + UrlEncode(ProxyParams(config, original, h))
  }

  /** Lines 69-84: the parameter list, filled in place. */
  method CollectParams(config: Config, original: string, h: Headers) returns (params: seq<(string, string)>)
    ensures params == ProxyParams(config, original, h)
  {
    params := [("api_password", Get(config, "password", "")), ("d", original)];
    if h != map[] {
      params := AddHeaderParams(params, h);
    }
  }

  /** The loop of lines 82-84 over `headers_map`, appending each non-empty header. */
  method AddHeaderParams(init: seq<(string, string)>, h: Headers) returns (params: seq<(string, string)>)
    ensures params == init + HeaderParams(h, HeaderKeys)
  {
    params := init;
    for i := 0 to |HeaderKeys|
      invariant params == init + HeaderParams(h, HeaderKeys[..i])
    {
      var key := HeaderKeys[i];
      var value := Get(h, key, Get(h, Lower(key), ""));
      if value != "" {
        params := params + [("h_" + Lower(key), value)];
      }
      HeaderParamsSnoc(h, HeaderKeys, i);
    }
    assert HeaderKeys[..|HeaderKeys|] == HeaderKeys;
  }

  /** The dictionary `resolve_link` returns. */
  datatype LinkResult = LinkResult(resolved: Option<string>, proxied: Option<string>, headers: Headers)

  /**
    What the caller's own dictionary holds after the resolver ran: the working
    dictionary when it was the caller's (non-empty) one, else nothing, for
    `headers or {}` is then a new empty dictionary (line 267).
  */
  function CallerHeaders(given: Headers, o: Outcome): Headers {
    if given != map[] then o.current else map[]
  }

  /** `resolve_link` as written (lines 247-267). */
  function ResolveLink(url: string, given: Headers, config: Config, net: Net): (r: LinkResult)
    ensures r.proxied.None?
  {
    var o := Resolve(url, given, net);
    if config != map[] && o.resolved.Some? && o.resolved.value != "" then
      match BuildProxyUrl(config, o.resolved.value, o.headers)
      case Built(p) => LinkResult(o.resolved, Some(p), o.headers)
      case NameError => LinkResult(Some(url), None, CallerHeaders(given, o))
    else LinkResult(o.resolved, None, o.headers)
  }

  /** `resolve_link` once `urlencode` is imported. */
  function ResolveLinkFixed(url: string, given: Headers, config: Config, net: Net): (r: LinkResult)
    ensures r.resolved == Resolve(url, given, net).resolved
    ensures r.headers == Resolve(url, given, net).headers
    ensures r.proxied.Some? <==> config != map[] && r.resolved.Some? && r.resolved.value != ""
    ensures r.proxied.Some? ==> r.proxied.value == BuildProxyUrlFixed(config, r.resolved.value, r.headers)
  {
    var o := Resolve(url, given, net);
    if config != map[] && o.resolved.Some? && o.resolved.value != "" then
      LinkResult(o.resolved, Some(BuildProxyUrlFixed(config, o.resolved.value, o.headers)), o.headers)
    else LinkResult(o.resolved, None, o.headers)
  }

  // ---------------------------------------------------------------------
  // Properties
  // ---------------------------------------------------------------------

  /**
    The `h_` parameters are, in this order, User-Agent, Referer and Origin,
    each present exactly when its value is non-empty.
  */
  lemma HeaderParamOrder(h: Headers)
    ensures HeaderParams(h, HeaderKeys) ==
      (if HeaderValue(h, "User-Agent") != "" then [("h_user-agent", HeaderValue(h, "User-Agent"))] else [])
      + (if HeaderValue(h, "Referer") != "" then [("h_referer", HeaderValue(h, "Referer"))] else [])
      + (if HeaderValue(h, "Origin") != "" then [("h_origin", HeaderValue(h, "Origin"))] else [])
  {
    LowerKey("User-Agent", "user-agent");
    LowerKey("Referer", "referer");
    LowerKey("Origin", "origin");
    assert HeaderKeys[..2] == ["User-Agent", "Referer"];
    assert ["User-Agent", "Referer"][..1] == ["User-Agent"];
    assert ["User-Agent"][..0] == [];
    assert "h_" + Lower("User-Agent") == "h_user-agent";
    assert "h_" + Lower("Referer") == "h_referer";
    assert "h_" + Lower("Origin") == "h_origin";
    assert HeaderParams(h, ["User-Agent"]) == HeaderParam(h, "User-Agent");
    assert HeaderParams(h, ["User-Agent", "Referer"]) == HeaderParam(h, "User-Agent") + HeaderParam(h, "Referer");
    assert HeaderParams(h, HeaderKeys) == HeaderParams(h, ["User-Agent", "Referer"]) + HeaderParam(h, "Origin");
  }

  /** Lower-casing a fixed header name. */
  lemma LowerKey(key: string, lower: string)
    requires |key| == |lower|
    requires forall k :: 0 <= k < |key| ==> LowerChar(key[k]) == lower[k]
    ensures Lower(key) == lower
  {
  }

  /** Without a configured proxy the URL comes back unchanged (lines 62-63). */
  lemma NoProxyConfig(original: string, h: Headers)
    ensures BuildProxyUrl(map[], original, h) == Built(original)
    ensures BuildProxyUrlFixed(map[], original, h) == original
  {
  }

  /**
    As written, a configured proxy and a resolved URL end in the handler of
    lines 265-267: no proxied URL, the original URL, and the caller's own
    dictionary as the resolver left it.
  */
  lemma ProxiedBranchRaises(url: string, given: Headers, config: Config, net: Net)
    requires config != map[]
    requires Resolve(url, given, net).resolved.Some? && Resolve(url, given, net).resolved.value != ""
    ensures ResolveLink(url, given, config, net) ==
      LinkResult(Some(url), None, CallerHeaders(given, Resolve(url, given, net)))
  {
  }

  /** Without a proxy, or with nothing resolved, `resolve_link` returns the resolver's result (line 263). */
  lemma UnproxiedPassThrough(url: string, given: Headers, config: Config, net: Net)
    requires config == map[] || Resolve(url, given, net).resolved.None? || Resolve(url, given, net).resolved.value == ""
    ensures var o := Resolve(url, given, net);
      ResolveLink(url, given, config, net) == LinkResult(o.resolved, None, o.headers)
  {
  }

  /**
    The corrected proxy URL carries the parameters whole: after
    `<base>/proxy/stream?` the query decodes to exactly ProxyParams.
  */
  lemma FixedProxyQuery(config: Config, original: string, h: Headers)
    requires config != map[]
    requires IsAscii(Get(config, "password", "")) && IsAscii(original)
    requires forall k :: k in h ==> IsAscii(h[k])
    ensures var r := BuildProxyUrlFixed(config, original, h);
      var n := |ProxyBase(config) + "/proxy/stream?"|;
      n <= |r| && ParseQuery(r[n..]) == ProxyParams(config, original, h)
  {
    var params := ProxyParams(config, original, h);
    ParamsAscii(config, original, h);
    assert forall i :: 0 <= i < |params| ==> IsAscii(params[i].0) && IsAscii(params[i].1);
    UrlEncodeRoundTrip(params);
    var prefix := ProxyBase(config) + "/proxy/stream?";
    assert (prefix + UrlEncode(params))[|prefix|..] == UrlEncode(params);
  }

  /** Every name and value of the pairs is ASCII. */
  predicate AsciiPairs(ps: seq<(string, string)>) {
    forall i :: 0 <= i < |ps| ==> IsAscii(ps[i].0) && IsAscii(ps[i].1)
  }

  lemma AsciiPairsConcat(a: seq<(string, string)>, b: seq<(string, string)>)
    requires AsciiPairs(a) && AsciiPairs(b)
    ensures AsciiPairs(a + b)
  {
    forall i | 0 <= i < |a + b|
      ensures IsAscii((a + b)[i].0) && IsAscii((a + b)[i].1)
    {
      if i >= |a| {
        assert (a + b)[i] == b[i - |a|];
      }
    }
  }

  /** With ASCII values, every parameter name and value is ASCII. */
  lemma ParamsAscii(config: Config, original: string, h: Headers)
    requires IsAscii(Get(config, "password", "")) && IsAscii(original)
    requires forall k :: k in h ==> IsAscii(h[k])
    ensures AsciiPairs(ProxyParams(config, original, h))
  {
    var base := [("api_password", Get(config, "password", "")), ("d", original)];
    var rest := if h != map[] then HeaderParams(h, HeaderKeys) else [];
    LiteralsAscii();
    HeaderParamsAscii(h, HeaderKeys);
    assert AsciiPairs(base);
    AsciiPairsConcat(base, rest);
  }

  /** The fixed parameter and header names are ASCII. */
  lemma LiteralsAscii()
    ensures IsAscii("api_password") && IsAscii("d")
    ensures forall i :: 0 <= i < |HeaderKeys| ==> IsAscii(HeaderKeys[i])
  {
    assert IsAscii(HeaderKeys[0]) && IsAscii(HeaderKeys[1]) && IsAscii(HeaderKeys[2]);
  }

  /** ASCII header names and values give ASCII `h_` parameters. */
  lemma {:induction false} HeaderParamsAscii(h: Headers, keys: seq<string>)
    requires forall k :: k in h ==> IsAscii(h[k])
    requires forall i :: 0 <= i < |keys| ==> IsAscii(keys[i])
    ensures AsciiPairs(HeaderParams(h, keys))
    decreases |keys|
  {
    if keys != [] {
      var key := keys[|keys| - 1];
      HeaderParamsAscii(h, keys[..|keys| - 1]);
      assert IsAscii(key);
      assert IsAscii(Lower(key));
      assert IsAscii("h_" + Lower(key));
      assert IsAscii(HeaderValue(h, key));
      assert AsciiPairs(HeaderParam(h, key));
      AsciiPairsConcat(HeaderParams(h, keys[..|keys| - 1]), HeaderParam(h, key));
    }
  }
}
