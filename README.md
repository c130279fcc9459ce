# M3U8 playlist parser and stream resolver, modelled in Dafny

This project models the two pieces of logic of an IPTV helper:

- **The playlist parser** `parse_m3u8_file` (`M3U8Parser.py`).
  - It reads an extended-M3U playlist line by line. `#EXTM3U` and `#EXTINF` follow section 4.3 of RFC 8216; the `tvg-*` attributes and `#EXTVLCOPT:http-*` options are IPTV and VLC conventions.
  - It keeps a pending channel and a pending header map, and emits an ordered list of channel records with defaulted fields.
- **The stream resolver** `resolve_m3u8_link` (`M3U8ResolverOMG.py`).
  - It fetches a channel page, finds an iframe and fetches it, scrapes six tokens from the iframe page, authenticates, looks up a server key, and composes the final `mono.m3u8` stream URL.
  - When a step fails with a ValueError or an HTTP error, it falls back to the redirected URL (if the first body was a playlist) or to the original URL. Any other exception, such as a lookup reply that is JSON but not an object, returns the original URL.
- **The proxy wrapping** `build_proxy_url` and `resolve_link`, which hand a resolved URL to a proxy's `/proxy/stream` endpoint.

Files and modules:

| file | module | contents |
|---|---|---|
| `text.dfy` | `Text` | Python whitespace and `str.strip`, `dict.get`, and a leftmost-match `Search` that plays the role of `re.search` for anchored matchers |
| `playlist.dfy` | `Playlist` | the parser. The imperative method `ParseLines` is proved equal to a fold of `Step` over the lines; properties are proved about that fold |
| `patterns.dfy` | `Patterns` | the resolver's fixed regular expressions, each written as a matcher anchored at one position |
| `urls.dfy` | `Urls` | `quote_plus` and `urlencode` (percent-encoding per section 2.1 of RFC 3986, UTF-8 per RFC 3629), `urlparse`'s scheme and netloc (section 3 of RFC 3986), and the three URLs the resolver composes |
| `resolver.dfy` | `Resolver` | the resolver's step chain. The function `Resolve` says what it returns; the method `ResolveM3u8Link` performs the same steps on a header dictionary object that may be the caller's own |
| `proxy.dfy` | `Proxy` | `build_proxy_url` and `resolve_link`, both as written (see Findings) and as evidently intended |

Every HTTP exchange is answered by an oracle, `Resolver.Net`. The oracle sees every request the session has sent so far, because cookies and redirects make an answer depend on that history. The requests themselves are returned as a trace, so contracts can say which requests were sent, with which headers.

Three behaviours of the code are worth stating up front:

- For an empty URL the code returns `resolved_url = None` and `headers or {}` (M3U8ResolverOMG.py:99-101).
- The code sets Referer and Origin in place in `current_headers`. That is the caller's own dictionary whenever the caller's one is non-empty (lines 105, 136-137).
- No proxied URL is ever produced, because `urlencode` is never imported (see Findings).

## Model

| member | source | states |
|---|---|---|
| Text.Strip | M3U8Parser.py:15 | `line.strip()` removes exactly the leading and the trailing whitespace (Python's `str.isspace` set): the result is a slice of the line, everything before and after it is whitespace, and the result neither starts nor ends with whitespace |
| Text.StripKeepsLast | M3U8Parser.py:52 | a text that ends in a non-whitespace character does not strip to the empty string |
| Text.StripChar | M3U8ResolverOMG.py:65 | `s.strip('/')` removes exactly the leading and the trailing run of `/`: the result is a slice of the text, everything before and after it is `/`, and the result neither starts nor ends with `/` |
| Text.Get | M3U8ResolverOMG.py:77-79 | `d.get(k, default)`: the stored value when the key is present, the default otherwise |
| Text.TakeUntil | M3U8Parser.py:34 | the capture of `([^"]*)`: the longest prefix free of the stop character, ending at the end of the text or just before that character |
| Text.Lower | M3U8ResolverOMG.py:84 | `str.lower()` on header names: same length, each character lower-cased on its own (ASCII A-Z to a-z, anything else kept) |
| Text.Search | M3U8Parser.py:34 | `re.search` finds a match exactly when some position of the text matches |
| Text.SearchAt | M3U8Parser.py:34-47 | `re.search` returns the captures at the first position that matches |
| Text.SearchNone | M3U8Parser.py:35 | `re.search` finds nothing exactly when no position matches |
| Text.FirstMatchAtLeftmost | M3U8Parser.py:34 | no position before the leftmost match matches, and with no match no position matches |
| Playlist.Record | M3U8Parser.py:20-26 | a record has exactly the six fields; a set name, group, logo or tvg_id is carried over, and an unset one becomes 'Unknown Channel', 'Undefined', '' or '' |
| Playlist.AttributeAt | M3U8Parser.py:34-45 | `<key>="([^"]*)"` at one position: a match holds `<key>="`, the quote-free value and a closing quote, in that order |
| Playlist.Attribute | M3U8Parser.py:34-45 | the attribute search returns a value without quotes; which occurrence it takes is stated by Playlist.AttributeFirstOccurrence |
| Playlist.CommaTitleAt | M3U8Parser.py:47 | `,(.+)$` at one position: a comma, then a non-empty newline-free capture that runs to the end of the text or to a final newline |
| Playlist.HttpOptionAt | M3U8Parser.py:57 | `http-([^=]+)=(.+)` at one position: `http-`, a non-empty key without `=`, `=`, and a non-empty newline-free value, in that order |
| Playlist.ExtinfAttributes | M3U8Parser.py:29-52 | the pending dict of an `#EXTINF:` line has no url, and its tvg_id, logo and group are the results of their attribute searches; its name is stated by Playlist.NamePrecedence |
| Playlist.HeaderName | M3U8Parser.py:61-70 | no ensures: the renaming of referrer, user-agent and origin is stated by Playlist.OptionLineSetsHeader |
| Playlist.ApplyOption | M3U8Parser.py:57-70 | no ensures: the header an option line sets is stated by Playlist.OptionLineSetsHeader and Playlist.ApplyFirstOption |
| Playlist.Classify | M3U8Parser.py:17-72 | no ensures: what each kind of line does is stated by Playlist.InertLine, Playlist.UrlLine and Playlist.RunBlock |
| Playlist.Flush | M3U8Parser.py:19-27 | an `#EXTINF:` line emits a record for the pending channel exactly when that channel is a non-empty dict, and that record has url '' and the pending headers |
| Playlist.Step | M3U8Parser.py:15-86 | no ensures: one pass of the loop body; stated by Playlist.InertLine, Playlist.UrlLine, Playlist.OptionLineSetsHeader and Playlist.RunBlock, and Playlist.RunAppendsOnly states that records are only appended |
| Playlist.RunFrom | M3U8Parser.py:14-86 | no ensures: the loop as a fold of Step; stated by Playlist.RunFromAppend, Playlist.RunAppendsOnly and Playlist.RunBlock, and Playlist.ParseLines proves the loop equal to it |
| Playlist.FinalFlush | M3U8Parser.py:88-97 | no ensures: Playlist.EndOfInputBlockUnreachable proves it adds nothing after any run from the start |
| Playlist.Parse | M3U8Parser.py:8-97 | no ensures: the parser's result; stated by Playlist.ParseLines, Playlist.ParseBlocks, Playlist.ParseCompleteBlocks and Playlist.ParseCountBound |
| Playlist.ParseLines | M3U8Parser.py:8-97 | the loop over the lines, with the end-of-input block, returns exactly the fold `Parse` of the lines, and at most one record per `#EXTINF:` line |
| Playlist.RunFromAppend | M3U8Parser.py:14 | running the loop over two pieces of input one after the other is running it over their concatenation |
| Playlist.EndOfInputBlockUnreachable | M3U8Parser.py:85-97 | the block after the loop never adds a record: a pending channel never holds a `url` key, because a URL line resets it to None |
| Playlist.ParseCountBound | M3U8Parser.py:17-31 | the number of records is at most the number of `#EXTINF:` lines |
| Playlist.RunAppendsOnly | M3U8Parser.py:20-27 | records are only appended: the output for a prefix of the input is a prefix of the output for the whole input |
| Playlist.InertLine | M3U8Parser.py:72-74 | a blank line, a `#` line other than `#EXTINF:` or `#EXTVLCOPT:`, or a URL line with no non-empty pending channel changes neither the output nor the pending state |
| Playlist.NamePrecedence | M3U8Parser.py:37-52 | a non-empty tvg-name wins; otherwise the stripped text after the first comma that has text after it, never empty; an empty tvg-name with no comma text gives ''; no source at all leaves the name unset |
| Playlist.CommaTitleToEnd | M3U8Parser.py:47 | on a text that ends in a non-whitespace character, `,(.+)$` captures everything after the comma |
| Playlist.CommaTitleNotBlank | M3U8Parser.py:47-52 | on a stripped line, the comma title does not strip to the empty string |
| Playlist.OptionLineSetsHeader | M3U8Parser.py:55-70 | `#EXTVLCOPT:http-<key>=<value>` stores the stripped value under the stripped key, renamed only for the exact keys referrer, user-agent and origin, overwriting an earlier value |
| Playlist.HttpOptionMatch | M3U8Parser.py:57-60 | `http-([^=]+)=(.+)` splits `http-<key>=<value>` at the first `=` |
| Playlist.ApplyFirstOption | M3U8Parser.py:57-70 | the header an option line sets comes from the first match of the option pattern |
| Playlist.AttributeFirstOccurrence | M3U8Parser.py:34-45 | an attribute's value is read at its first `<key>="`, up to the next quote; with no closing quote there is no match at all |
| Playlist.ParseBlocks | M3U8Parser.py:14-97 | a playlist of well-formed blocks gives one record per block, in order, each carrying exactly its own option headers; a block without a URL line gets url '' when the next `#EXTINF:` comes, and a last block without one is dropped |
| Playlist.ParseCompleteBlocks | M3U8Parser.py:72-86 | when every block has a URL line, record i is block i's, with the stripped URL |
| Playlist.RunBlock | M3U8Parser.py:17-86 | one well-formed block takes the parser from a state to `AfterBlock` of it: the pending channel is flushed, then either a record or a new pending channel |
| Playlist.UrlLine | M3U8Parser.py:72-86 | a URL line closes a non-empty pending channel into a record with that URL and resets both the channel and the headers |
| Patterns.IframeAt | M3U8ResolverOMG.py:125 | `iframe src="([^"]+)` matches exactly when the opening quote is followed by a non-quote character; the capture is non-empty, quote-free and runs to the next quote or the end (no closing quote needed) |
| Patterns.FindIframe | M3U8ResolverOMG.py:125-130 | the first iframe URL is non-empty and quote-free; which one it is is stated by Patterns.FirstIframe and Patterns.EmptySrcSkipped |
| Patterns.FirstIframe | M3U8ResolverOMG.py:125-130 | the iframe URL is the capture at the first `iframe src="` that is followed by a non-quote character |
| Patterns.EmptySrcSkipped | M3U8ResolverOMG.py:125-130 | an empty `src=""` is skipped and a later `iframe src="` is used |
| Patterns.ChannelKeyAt | M3U8ResolverOMG.py:145 | ` channelKey = "([^"]*)` matches exactly at ` channelKey = "`, capturing up to the next quote |
| Patterns.ChannelKeyMatch | M3U8ResolverOMG.py:145 | ` channelKey = "<value>` captures the value, whether or not a closing quote follows |
| Patterns.AssignmentAt | M3U8ResolverOMG.py:146-148 | ` <name>\s*= "([^"]*)` only matches at ` <name>`, and its capture holds no quote |
| Patterns.AssignmentMatch | M3U8ResolverOMG.py:146-148 | ` <name><whitespace>= "<value>` captures the value for any run of whitespace |
| Patterns.AuthTsAt | M3U8ResolverOMG.py:146 | ` authTs\s*= "([^"]*)` only matches at ` authTs`, and its capture holds no quote |
| Patterns.AuthRndAt | M3U8ResolverOMG.py:147 | ` authRnd\s*= "([^"]*)` only matches at ` authRnd`, and its capture holds no quote |
| Patterns.AuthSigAt | M3U8ResolverOMG.py:148 | ` authSig\s*= "([^"]*)` only matches at ` authSig`, and its capture holds no quote |
| Patterns.AuthHostAt | M3U8ResolverOMG.py:149 | `\}\s*fetchWithRetry\(\s*'([^']*)` only matches at a `}`, and its capture holds no apostrophe |
| Patterns.AuthHostMatch | M3U8ResolverOMG.py:149 | `}<whitespace>fetchWithRetry(<whitespace>'<host>` captures the host up to the next apostrophe, for any runs of whitespace |
| Patterns.LookupAt | M3U8ResolverOMG.py:151 | `n fetchWithRetry\(\s*'([^']*)` only matches at `n fetchWithRetry(`, and its capture holds no apostrophe |
| Patterns.LookupMatch | M3U8ResolverOMG.py:151 | for any whitespace run between `(` and the apostrophe, `n fetchWithRetry(<ws>'<path>` captures the path up to the next apostrophe |
| Patterns.ExtractTokens | M3U8ResolverOMG.py:145-161 | the six tokens are found exactly when all six searches succeed; each token is its search's capture |
| Patterns.Chain | M3U8ResolverOMG.py:188 | the lazy `.*?` steps of the host pattern consume a prefix: what remains is a suffix of the text |
| Patterns.HostAt | M3U8ResolverOMG.py:188 | the host pattern only matches at `m3u8 =`, and its capture holds no quote |
| Patterns.HostMatch | M3U8ResolverOMG.py:188-191 | after `m3u8 =`, the host is what follows the third quote after the second colon, up to the next quote |
| Patterns.HostChainMatch | M3U8ResolverOMG.py:188 | the lazy steps take the first `:`, the next `:` and the next three quotes in order |
| Patterns.HostNeedsColons | M3U8ResolverOMG.py:188-190 | with no colon after `m3u8 =` there is no host |
| Patterns.FindHost | M3U8ResolverOMG.py:188-191 | the final host holds no quote; its value is stated by Patterns.HostMatch and Patterns.HostNeedsColons |
| Urls.Utf8 | M3U8ResolverOMG.py:159 | the UTF-8 encoding of a character: one to four bytes, a single byte exactly for ASCII |
| Urls.QuoteChar | M3U8ResolverOMG.py:159 | `quote_plus` keeps letters, digits and `_.-~`, writes a space as `+`, and writes any other character as `%XX` per UTF-8 byte |
| Urls.QuotePlus | M3U8ResolverOMG.py:159 | the encoded signature only holds letters, digits, `_.-~`, `+` and `%`, and is never shorter than the input |
| Urls.QuotePlusUnreserved | M3U8ResolverOMG.py:159 | a text of unreserved characters is its own encoding |
| Urls.QuotePlusRoundTrip | M3U8ResolverOMG.py:159 | decoding gives back any ASCII text `quote_plus` encoded |
| Urls.UrlEncode | M3U8ResolverOMG.py:87 | `urlencode` writes an empty query exactly for no parameters |
| Urls.UrlEncodeRoundTrip | M3U8ResolverOMG.py:87 | parsing the query `urlencode` writes gives back the parameters, in order, for ASCII names and values |
| Urls.ParseQuery | M3U8ResolverOMG.py:87 | the decoding of a query is empty exactly for the empty query |
| Urls.UrlSplit | M3U8ResolverOMG.py:135 | `urlparse` either raises ValueError or gives a netloc whose brackets are balanced |
| Urls.Origin | M3U8ResolverOMG.py:135 | the iframe origin exists exactly when `urlparse` does not raise; OriginOf gives its value for `scheme://host/...` URLs |
| Urls.OriginOf | M3U8ResolverOMG.py:135 | for `scheme://host/...`, the origin is the lower-cased scheme, `://` and the host |
| Urls.UnbalancedBracketRejected | M3U8ResolverOMG.py:135 | a netloc with `[` and no `]` makes `urlparse` raise |
| Urls.AuthUrl | M3U8ResolverOMG.py:166 | no ensures: the authentication URL; Urls.AuthUrlSignature states that its `sig=` value decodes to the signature |
| Urls.AuthUrlSignature | M3U8ResolverOMG.py:159-166 | in the authentication URL, the last `&` opens `sig=`, and decoding what follows gives back the signature |
| Urls.StreamUrlParts | M3U8ResolverOMG.py:195-197 | the stream URL is an https URL whose authority is server key, host and server key |
| Urls.StreamUrl | M3U8ResolverOMG.py:195-197 | no ensures: the stream URL; its parts are stated by Urls.StreamUrlParts |
| Urls.LookupUrl | M3U8ResolverOMG.py:173 | no ensures: the lookup URL; its scheme and netloc are stated by Urls.LookupUrlOrigin |
| Urls.LookupUrlOrigin | M3U8ResolverOMG.py:173 | the lookup URL is an https URL on the iframe's netloc |
| Resolver.StartHeaders | M3U8ResolverOMG.py:105 | the caller's headers when non-empty; otherwise a map with the single key User-Agent holding the default string |
| Resolver.Fallback | M3U8ResolverOMG.py:216-228 | the fallback answers either the redirected URL or the original URL |
| Resolver.FallbackChoice | M3U8ResolverOMG.py:217-228 | the fallback answers the redirected URL exactly when the first body, stripped, starts with `#EXTM3U` |
| Resolver.StreamHeaders | M3U8ResolverOMG.py:200-204 | the stream headers have exactly the keys User-Agent (the current value, or ''), Referer and Origin (both the iframe origin) |
| Resolver.ServerKey | M3U8ResolverOMG.py:177-183 | a server key exists exactly when the lookup gave a JSON object with a non-empty `server_key` |
| Resolver.AuthRequest | M3U8ResolverOMG.py:166-168 | no ensures: the authentication request, sent with the working headers; Resolver.TokenSteps states when it is sent |
| Resolver.LookupRequest | M3U8ResolverOMG.py:173-175 | no ensures: the lookup request, sent with the working headers; Resolver.TokenSteps states when it is sent |
| Resolver.TokenSteps | M3U8ResolverOMG.py:153-209 | at most two more requests, with the working headers. A stream exactly when all tokens were found, authentication answered, the server key is non-empty and the host was found; then exactly those two requests were sent, and the stream URL and headers are as composed. An uncaught exception exactly when the lookup JSON is not an object |
| Resolver.IframeFetch | M3U8ResolverOMG.py:135-142 | Referer and Origin are set to the iframe URL and its origin before the iframe request, which carries them; every later request carries them too |
| Resolver.IframeSteps | M3U8ResolverOMG.py:123-142 | nothing is sent and nothing changes exactly when there is no iframe or `urlparse` raises on it; otherwise the next request is to the iframe URL and the working headers carry Referer and Origin |
| Resolver.Resolve | M3U8ResolverOMG.py:93-237 | no URL exactly for the empty URL, and then no request and the given headers; otherwise one to four requests, the first to the URL with the start headers and the rest with the final working headers; the result is tagged `Caller` (the given dictionary passed straight back, line 101) exactly for an empty URL with non-empty headers, and whenever it is tagged `Working` the returned headers are the working headers, which for non-empty given headers are the caller's own dictionary (ResolveM3u8Link) |
| Resolver.HeaderDict.constructor | M3U8ResolverOMG.py:105 | a new dictionary holds the given entries |
| Resolver.HeaderDict.Put | M3U8ResolverOMG.py:136-137 | `d[k] = v` updates the one entry in place |
| Resolver.RunTokenSteps | M3U8ResolverOMG.py:145-209 | the token, authentication, lookup and host steps return exactly what `TokenSteps` says and leave the working dictionary alone |
| Resolver.RunIframeFetch | M3U8ResolverOMG.py:135-142 | setting Referer and Origin in the working dictionary and continuing gives exactly `IframeFetch` on the old entries |
| Resolver.RunIframeSteps | M3U8ResolverOMG.py:123-142 | the iframe steps on the working dictionary give exactly `IframeSteps` on its old entries |
| Resolver.ResolveM3u8Link | M3U8ResolverOMG.py:93-237 | the resolver on a dictionary object returns what `Resolve` says. A non-empty caller dictionary is the working one: it ends as `Resolve`'s working headers and is itself returned whenever the working headers are. An empty caller dictionary is left empty, and a fresh dictionary is returned instead |
| Resolver.ResolveMutation | M3U8ResolverOMG.py:105-137 | the working headers end as the start headers, plus Referer = the iframe URL and Origin = its origin once the iframe request was sent |
| Resolver.InitialFailure | M3U8ResolverOMG.py:115-116 | a failed first request returns the original URL and the start headers; the playlist fallback is not consulted (lines 230-233) |
| Resolver.NoIframe | M3U8ResolverOMG.py:125-128 | without an iframe the fallback decides, after one request, with the start headers untouched |
| Resolver.FallbackAfterIframe | M3U8ResolverOMG.py:135-137 | once the iframe is found, any later failure returns the working headers with Referer and Origin already set in place (lines 216-228, 233-237) |
| Resolver.TokensMissing | M3U8ResolverOMG.py:153-154 | an iframe page without all six tokens goes to the fallback after two requests |
| Resolver.IframePageOutcome | M3U8ResolverOMG.py:145-237 | once the iframe page is fetched, a stream is returned exactly when `TokenSteps` builds one; a caught exception gives the fallback and any other the original URL |
| Resolver.StreamNeedsIframe | M3U8ResolverOMG.py:115-142 | a stream is returned only after the first request succeeded and its body held an iframe whose origin `urlparse` could derive |
| Resolver.FetchStream | M3U8ResolverOMG.py:139-141 | a stream requires that the iframe page came back |
| Proxy.HeaderValue | M3U8ResolverOMG.py:77-79 | the Title-case key wins, then the lower-case key, then '' |
| Proxy.HeaderParam | M3U8ResolverOMG.py:82-84 | the parameter `h_<key lower-cased>` is added exactly when its value is non-empty |
| Proxy.HeaderParams | M3U8ResolverOMG.py:82-84 | at most one parameter per header key, each with a non-empty value |
| Proxy.HeaderParamOrder | M3U8ResolverOMG.py:76-84 | the `h_` parameters are h_user-agent, h_referer and h_origin in this order, each present exactly when its value is non-empty |
| Proxy.ProxyBase | M3U8ResolverOMG.py:65 | the proxy base is the configured `url` (or '') with exactly its leading and trailing `/` removed, so it has no `/` at either end |
| Proxy.ProxyParams | M3U8ResolverOMG.py:69-84 | `api_password` first, `d` second, then up to three non-empty `h_` parameters, and none when the headers are empty |
| Proxy.CollectParams | M3U8ResolverOMG.py:69-84 | filling the parameter list step by step gives exactly `ProxyParams` |
| Proxy.AddHeaderParams | M3U8ResolverOMG.py:82-84 | the loop over `headers_map` appends exactly `HeaderParams` of the three keys |
| Proxy.BuildProxyUrl | M3U8ResolverOMG.py:62-87 | as written: the URL comes back unchanged exactly when no proxy is configured; otherwise NameError |
| Proxy.BuildProxyUrlFixed | M3U8ResolverOMG.py:62-87 | corrected: the URL unchanged without a proxy, else `<base>/proxy/stream?` followed by the query |
| Proxy.NoProxyConfig | M3U8ResolverOMG.py:62-63 | without a configured proxy the URL comes back unchanged |
| Proxy.FixedProxyQuery | M3U8ResolverOMG.py:86-87 | the corrected proxy URL's query decodes to exactly `ProxyParams`, for ASCII values |
| Proxy.ResolveLink | M3U8ResolverOMG.py:247-267 | as written: `resolve_link` never returns a proxied URL |
| Proxy.CallerHeaders | M3U8ResolverOMG.py:265-267 | no ensures: `headers or {}` in the handler, the caller's own dictionary as the resolver left it when it is non-empty; stated by Proxy.ProxiedBranchRaises |
| Proxy.ProxiedBranchRaises | M3U8ResolverOMG.py:254-267 | as written: with a proxy and a resolved URL, the handler returns the original URL and the caller's own dictionary as the resolver left it |
| Proxy.UnproxiedPassThrough | M3U8ResolverOMG.py:254-263 | without a proxy, or with nothing resolved, the resolver's result comes back unchanged |
| Proxy.ResolveLinkFixed | M3U8ResolverOMG.py:251-263 | corrected: the resolver's URL and headers, plus a proxied URL exactly when a proxy is configured and the URL is non-empty; the proxied URL is `BuildProxyUrlFixed` of the resolved URL and headers |

## Left out

- Network I/O is left out: `session.get`, `raise_for_status`, redirects, cookies and timeouts. The oracle `Net` stands for it and answers from the request history.
- JSON decoding of the lookup reply is reduced to three outcomes: failure, a value that is not an object, and an object with an optional string `server_key`. A non-string `server_key` is not modelled.
- `create_proxy_session` is left out: every branch of it returns a plain session and only the logging differs. Logging, `CACHE_DURATION` and the `main` command line are left out as well.
- The parser's file open, its decoding and the handlers that turn exceptions into `[]` are left out. The model starts from the sequence of lines, and the `__main__` demo is not modelled.
- `url=None` and `url=''` are the same empty string here, and `headers=None` and `headers={}` are the same empty map. Both pairs are falsy and are treated alike by the code.
- `channel_name` and the `session` parameter are left out: they only reach logging and the oracle.
- Proxy.ResolveLink: works on dictionary values rather than objects; the caller's object as the resolver left it is given by `CallerHeaders`, and `ResolveM3u8Link` covers the aliasing.
- Proxy.Config: only string values are modelled; a config holding other JSON values is not.
- Urls.UrlSplit: only the scheme and netloc are modelled. It does not model the validation of bracketed IPv6 hosts or the NFKC check on the netloc.
- Urls.QuotePlusRoundTrip, Urls.UrlEncodeRoundTrip, Urls.AuthUrlSignature and Proxy.FixedProxyQuery: proved for ASCII text only, since the decoding is modelled byte by byte.
- Text.Lower: ASCII lower-casing only, which is enough for the fixed header names and URL schemes it is applied to.
- Text.IsSpace: the whitespace set of `str.isspace`. The same set stands for `\s` in the patterns, which is exact for str patterns.
- Ordering of dictionary keys is only modelled where the code depends on it: the parameter list of `build_proxy_url` is an ordered sequence.

## Findings

| source | as written | input that shows it | evidently intended | confidence | as-written member | corrected member |
|---|---|---|---|---|---|---|
| M3U8ResolverOMG.py:15,87 | `build_proxy_url` calls `urlencode`, which is never imported (line 15 imports only `urlparse` and `quote_plus`), so a configured proxy raises NameError; `resolve_link`'s handler (lines 265-267) then returns the original URL without `proxied_url` | any non-empty `proxy_config`, e.g. `{"url": "https://proxy.example", "password": "pw"}`, with a URL the resolver resolves to a non-empty string | `urlencode` imported from `urllib.parse`, so the result carries `proxied_url = <base>/proxy/stream?<query>` whose query holds the parameters in order | high (follows from the imports alone); not executed | Proxy.ProxiedBranchRaises | Proxy.FixedProxyQuery |
