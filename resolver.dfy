/**
  `resolve_m3u8_link` (M3U8ResolverOMG.py lines 93-237): the step chain that
  turns a channel page into a stream URL. Every HTTP exchange is answered by
  an oracle that sees all the requests the session has sent so far (cookies
  and redirects make an answer depend on that history); the requests
  themselves are returned as a trace. The function `Resolve` states what the
  resolver returns; the method `ResolveM3u8Link` performs the same steps on a
  header dictionary that may be the caller's own object, as the source's is.
*/
module Resolver {
  import opened Text
  import opened Urls
  import opened Patterns

  /** The User-Agent used when the caller gives no headers (line 105). */
  const DefaultUserAgent := "Mozilla/5.0 (Windows NT 10.0; Win64; x64) AppleWebKit/537.36 (KHTML, like Gecko) Chrome/133.0.0.0+Safari/537.36"

  datatype Request = Request(url: string, headers: Headers)

  /** `session.get(...)` then `raise_for_status()`: an exception, or the final URL and the text. */
  datatype Reply = Failure | Response(finalUrl: string, body: string)

  /**
    The server-lookup exchange of lines 175-181: an HTTP error or a body that
    is not JSON raises a RequestException; JSON that is not an object makes
    `.get` raise AttributeError; an object yields its `server_key`, if any.
  */
  datatype Lookup = LookupFailure | NotAnObject | Object(serverKey: Option<string>)

  /** The answers of the network, given every request sent so far (the last is being answered). */
  datatype Net = Net(get: seq<Request> -> Reply, lookup: seq<Request> -> Lookup)

  /** Which dictionary object is returned as "headers". */
  datatype Returned =
    | Caller   // the caller's own dictionary (line 101)
    | Working  // current_headers: the caller's dictionary if it was non-empty, else the default one
    | Fresh    // a dictionary built on return (lines 101 and 200-204)

  /**
    The returned dictionary `{"resolved_url": ..., "headers": ...}`, plus what
    the working header dictionary holds at the end and the requests sent.
  */
  datatype Outcome = Outcome(
    resolved: Option<string>,
    headers: Headers,
    returned: Returned,
    current: Headers,
    sent: seq<Request>)

  /** Line 105: the caller's headers when non-empty, else only the default User-Agent. */
  function StartHeaders(given: Headers): (h: Headers)
    ensures given == map[] ==> h.Keys == {"User-Agent"} && h["User-Agent"] == DefaultUserAgent
    ensures given != map[] ==> h == given
  {
    if given != map[] then given else map["User-Agent" := DefaultUserAgent]
  }

  /** Lines 217-228: the redirected URL when the first body is a playlist, else the original URL. */
  function Fallback(url: string, finalUrl: string, body: string): (r: string)
    ensures r == url || r == finalUrl
  {
    if body != "" && "#EXTM3U" <= Strip(body) then finalUrl else url
  }

  /** How the iframe logic of lines 123-209 ends. */
  datatype Attempt =
    | Stream(url: string, headers: Headers)  // the return of lines 206-209
    | Caught                                  // ValueError or RequestException: the fallback of lines 211-228
    | Uncaught                                // any other exception: the handler of lines 234-237

  /** An attempt, the working headers after it and the requests sent so far. */
  datatype Trial = Trial(attempt: Attempt, current: Headers, sent: seq<Request>)

  /** The stream headers of lines 200-204. */
  function StreamHeaders(current: Headers, origin: string): (h: Headers)
    ensures h.Keys == {"User-Agent", "Referer", "Origin"}
    ensures h["User-Agent"] == Get(current, "User-Agent", "")
    ensures h["Referer"] == origin && h["Origin"] == origin
  {
    map["User-Agent" := Get(current, "User-Agent", ""), "Referer" := origin, "Origin" := origin]
  }

  /** The authentication request of lines 166-168. */
  function AuthRequest(tk: Tokens, current: Headers): Request {
    Request(AuthUrl(tk.authHost, tk.channelKey, tk.authTs, tk.authRnd, tk.authSig), current)
  }

  /** The server-lookup request of lines 173-175. */
  function LookupRequest(netloc: string, tk: Tokens, current: Headers): Request {
    Request(LookupUrl(netloc, tk.serverLookup, tk.channelKey), current)
  }

  /** The server key when the lookup gave an object with a non-empty `server_key` (lines 181-183). */
  function ServerKey(l: Lookup): (r: Option<string>)
    ensures r.Some? <==> l.Object? && l.serverKey.Some? && l.serverKey.value != ""
    ensures r.Some? ==> r.value == l.serverKey.value
  {
    if l.Object? && l.serverKey.Some? && l.serverKey.value != "" then l.serverKey else None
  }

  /**
    Lines 153-209, given what the scanners found in the iframe page: the six
    tokens (all or none) and the host. Authenticate, look the server key up
    and build the stream.
  */
  function TokenSteps(tokens: Option<Tokens>, host: Option<string>, netloc: string, origin: string,
                      current: Headers, sent: seq<Request>, net: Net): (t: Trial)
    ensures t.current == current
    ensures sent <= t.sent && |t.sent| <= |sent| + 2
    ensures forall i :: |sent| <= i < |t.sent| ==> t.sent[i].headers == current
    ensures t.attempt.Stream? <==>
      && tokens.Some?
      && net.get(sent + [AuthRequest(tokens.value, current)]).Response?
      && ServerKey(net.lookup(t.sent)).Some?
      && host.Some?
    ensures t.attempt.Stream? ==>
      && t.sent == sent + [AuthRequest(tokens.value, current), LookupRequest(netloc, tokens.value, current)]
      && t.attempt.url == StreamUrl(ServerKey(net.lookup(t.sent)).value, host.value, tokens.value.channelKey)
      && t.attempt.headers == StreamHeaders(current, origin)
    ensures t.attempt.Uncaught? <==>
      && tokens.Some?
      && net.get(sent + [AuthRequest(tokens.value, current)]).Response?
      && net.lookup(t.sent).NotAnObject?
  {
    match tokens
    case None => Trial(Caught, current, sent)
    case Some(tk) =>
      var afterAuth := sent + [AuthRequest(tk, current)];
      if net.get(afterAuth).Failure? then Trial(Caught, current, afterAuth)
      else
        var afterLookup := afterAuth + [LookupRequest(netloc, tk, current)];
        var answer := net.lookup(afterLookup);
        if answer.NotAnObject? then Trial(Uncaught, current, afterLookup)
        else match ServerKey(answer)
          case None => Trial(Caught, current, afterLookup)
          case Some(key) =>
            match host
            case None => Trial(Caught, current, afterLookup)
            case Some(h) =>
              Trial(Stream(StreamUrl(key, h, tk.channelKey), StreamHeaders(current, origin)), current, afterLookup)
  }

  /**
    Lines 136-142 and on: set Referer and Origin in the working headers, fetch
    the iframe page and continue with TokenSteps on what the scanners find there.
  */
  function IframeFetch(url2: string, netloc: string, origin: string, current: Headers, sent: seq<Request>, net: Net): (t: Trial)
    ensures t.current == current["Referer" := url2]["Origin" := origin]
    ensures |sent| < |t.sent| <= |sent| + 3 && sent <= t.sent
    ensures t.sent[|sent|] == Request(url2, t.current)
    ensures forall i :: |sent| <= i < |t.sent| ==> t.sent[i].headers == t.current
    ensures t.attempt.Stream? ==> |t.sent| == |sent| + 3 && t.attempt.headers == StreamHeaders(t.current, origin)
  {
    var mutated := current["Referer" := url2]["Origin" := origin];
    var afterIframe := sent + [Request(url2, mutated)];
    match net.get(afterIframe)
    case Failure => Trial(Caught, mutated, afterIframe)
    case Response(_, page) => TokenSteps(ExtractTokens(page), FindHost(page), netloc, origin, mutated, afterIframe, net)
  }

  /**
    Lines 123-209 from the first body on: find the iframe and derive its
    `scheme://netloc` (a ValueError of `urlparse` falls back before anything
    is changed), then IframeFetch.
  */
  function IframeSteps(body: string, current: Headers, sent: seq<Request>, net: Net): (t: Trial)
    ensures sent <= t.sent && |t.sent| <= |sent| + 3
    ensures forall i :: |sent| <= i < |t.sent| ==> t.sent[i].headers == t.current
    ensures t.sent == sent <==> FindIframe(body).None? || Origin(FindIframe(body).value).None?
    ensures t.sent == sent ==> t.current == current && t.attempt.Caught?
    ensures t.sent != sent ==>
      && t.sent[|sent|].url == FindIframe(body).value
      && t.current == current["Referer" := FindIframe(body).value]["Origin" := Origin(FindIframe(body).value).value]
    ensures t.attempt.Stream? ==> |t.sent| == |sent| + 3 && t.attempt.headers == StreamHeaders(t.current, t.current["Origin"])
  {
    match FindIframe(body)
    case None => Trial(Caught, current, sent)
    case Some(url2) =>
      match UrlSplit(url2)
      case None => Trial(Caught, current, sent)
      case Some(parts) => IframeFetch(url2, parts.1, parts.0 + "://" + parts.1, current, sent, net)
  }

  /**
    `resolve_m3u8_link(url, headers)`, with `given` the caller's headers (an
    absent dictionary is the empty one: both are falsy).
  */
  function Resolve(url: string, given: Headers, net: Net): (o: Outcome)
    ensures o.resolved.None? <==> url == ""
    ensures url == "" ==> o.sent == [] && o.headers == given && o.current == given
    ensures url != "" ==> 1 <= |o.sent| <= 4 && o.sent[0] == Request(url, StartHeaders(given))
    ensures forall i :: 1 <= i < |o.sent| ==> o.sent[i].headers == o.current
    ensures o.returned == Caller <==> url == "" && given != map[]
    ensures o.returned == Working ==> o.headers == o.current
  {
    if url == "" then
      Outcome(None, given, if given != map[] then Caller else Fresh, given, [])
    else
      var current := StartHeaders(given);
      var sent := [Request(url, current)];
      match net.get(sent)
      case Failure => Outcome(Some(url), current, Working, current, sent)
      case Response(finalUrl, body) =>
        var t := IframeSteps(body, current, sent, net);
        match t.attempt
        case Stream(s, h) => Outcome(Some(s), h, Fresh, t.current, t.sent)
        case Uncaught => Outcome(Some(url), t.current, Working, t.current, t.sent)
        case Caught => Outcome(Some(Fallback(url, finalUrl, body)), t.current, Working, t.current, t.sent)
  }

  // ---------------------------------------------------------------------
  // The imperative resolver over a header dictionary that may be aliased
  // ---------------------------------------------------------------------

  /** A Python dict of headers, an object the resolver and its caller may share. */
  class HeaderDict {
    var entries: Headers

    constructor(entries: Headers)
      ensures this.entries == entries
    {
      this.entries := entries;
    }

    /** `d[k] = v` */
    method Put(k: string, v: string)
      modifies this
      ensures entries == old(entries)[k := v]
    {
      entries := entries[k := v];
    }
  }

  /** The headers an optional dictionary holds; an absent one holds none. */
  function Given(headers: HeaderDict?): Headers
    reads headers
  {
    if headers == null then map[] else headers.entries
  }

  /** TokenSteps, request by request, reading the working headers in place. */
  method RunTokenSteps(page: string, netloc: string, origin: string, current: HeaderDict, sent: seq<Request>, net: Net)
    returns (attempt: Attempt, trace: seq<Request>)
    ensures Trial(attempt, current.entries, trace) == TokenSteps(ExtractTokens(page), FindHost(page), netloc, origin, current.entries, sent, net)
  {
    trace := sent;
    var tokens := ExtractTokens(page);
    if tokens.None? {
      return Caught, trace;
    }
    var tk := tokens.value;
    trace := trace + [AuthRequest(tk, current.entries)];
    if net.get(trace).Failure? {
      return Caught, trace;
    }
    trace := trace + [LookupRequest(netloc, tk, current.entries)];
    var answer := net.lookup(trace);
    if answer.NotAnObject? {
      return Uncaught, trace;
    }
    var key := ServerKey(answer);
    if key.None? {
      return Caught, trace;
    }
    var host := FindHost(page);
    if host.None? {
      return Caught, trace;
    }
    attempt := Stream(StreamUrl(key.value, host.value, tk.channelKey), StreamHeaders(current.entries, origin));
  }

  /** IframeFetch, setting Referer and Origin in the working dictionary itself (lines 136-137). */
  method RunIframeFetch(url2: string, netloc: string, origin: string, current: HeaderDict, sent: seq<Request>, net: Net)
    returns (attempt: Attempt, trace: seq<Request>)
    modifies current
    ensures Trial(attempt, current.entries, trace) == IframeFetch(url2, netloc, origin, old(current.entries), sent, net)
  {
    current.Put("Referer", url2);
    current.Put("Origin", origin);
    trace := sent + [Request(url2, current.entries)];
    var reply := net.get(trace);
    if reply.Failure? {
      return Caught, trace;
    }
    attempt, trace := RunTokenSteps(reply.body, netloc, origin, current, trace, net);
  }

  /** IframeSteps on the working dictionary. */
  method RunIframeSteps(body: string, current: HeaderDict, sent: seq<Request>, net: Net)
    returns (attempt: Attempt, trace: seq<Request>)
    modifies current
    ensures Trial(attempt, current.entries, trace) == IframeSteps(body, old(current.entries), sent, net)
  {
    var iframe := FindIframe(body);
    if iframe.None? {
      return Caught, sent;
    }
    var parts := UrlSplit(iframe.value);
    if parts.None? {
      return Caught, sent;
    }
    attempt, trace := RunIframeFetch(iframe.value, parts.value.1, parts.value.0 + "://" + parts.value.1, current, sent, net);
  }

  /**
    `resolve_m3u8_link(url, headers)`. A non-empty caller dictionary becomes
    the working dictionary itself, so the caller sees Referer and Origin set
    whenever the iframe was reached; an empty or absent one is left alone.
  */
  method ResolveM3u8Link(url: string, headers: HeaderDict?, net: Net)
    returns (resolved: Option<string>, result: HeaderDict, sent: seq<Request>)
    modifies headers
    ensures var o := Resolve(url, old(Given(headers)), net);
      && resolved == o.resolved
      && result.entries == o.headers
      && sent == o.sent
      && (headers != null && old(headers.entries) != map[] ==> headers.entries == o.current)
      && (o.returned == Caller ==> result == headers)
      && (o.returned == Working && old(Given(headers)) != map[] ==> result == headers)
      && (o.returned == Working && old(Given(headers)) == map[] ==> fresh(result))
      && (o.returned == Fresh ==> fresh(result))
    ensures headers != null && old(headers.entries) == map[] ==> headers.entries == map[]
  {
    var given := Given(headers);
    if url == "" {
      resolved, sent := None, [];
      if given != map[] {
        result := headers;
      } else {
        result := new HeaderDict(map[]);
      }
      return;
    }
    var current: HeaderDict;
    if given != map[] {
      current := headers;
    } else {
      current := new HeaderDict(StartHeaders(given));
    }
    sent := [Request(url, current.entries)];
    var reply := net.get(sent);
    if reply.Failure? {
      resolved, result := Some(url), current;
      return;
    }
    var attempt;
    attempt, sent := RunIframeSteps(reply.body, current, sent, net);
    match attempt
    case Stream(s, h) =>
      resolved := Some(s);
      result := new HeaderDict(h);
    case Uncaught =>
      resolved, result := Some(url), current;
    case Caught =>
      resolved, result := Some(Fallback(url, reply.finalUrl, reply.body)), current;
  }

  // ---------------------------------------------------------------------
  // Properties of the resolver
  // ---------------------------------------------------------------------

  /**
    The working headers end as the start headers, with Referer set to the
    iframe URL and Origin to its `scheme://netloc` once the iframe request has
    been sent (lines 105, 135-137).
  */
  lemma ResolveMutation(url: string, given: Headers, net: Net)
    requires url != ""
    ensures var o := Resolve(url, given, net);
      && (|o.sent| == 1 ==> o.current == StartHeaders(given))
      && (|o.sent| > 1 ==>
            && Origin(o.sent[1].url).Some?
            && o.current == StartHeaders(given)["Referer" := o.sent[1].url]["Origin" := Origin(o.sent[1].url).value])
  {
    var current := StartHeaders(given);
    var first := net.get([Request(url, current)]);
    if first.Response? {
      var t := IframeSteps(first.body, current, [Request(url, current)], net);
      var o := Resolve(url, given, net);
      assert o.sent == t.sent && o.current == t.current;
      if |t.sent| > 1 {
        assert t.sent != [Request(url, current)];
      }
    }
  }

  /** A failed first request returns the original URL; the playlist fallback is not consulted (lines 230-233). */
  lemma InitialFailure(url: string, given: Headers, net: Net)
    requires url != ""
    requires net.get([Request(url, StartHeaders(given))]).Failure?
    ensures Resolve(url, given, net) ==
      Outcome(Some(url), StartHeaders(given), Working, StartHeaders(given), [Request(url, StartHeaders(given))])
  {
  }

  /** The fallback answers with the redirected URL exactly when the first body, stripped, opens with `#EXTM3U`. */
  lemma FallbackChoice(url: string, finalUrl: string, body: string)
    requires url != finalUrl
    ensures Fallback(url, finalUrl, body) == finalUrl <==> "#EXTM3U" <= Strip(body)
  {
    if "#EXTM3U" <= Strip(body) {
      assert body != "";
    }
  }

  /** Without an iframe the working headers are untouched and the fallback decides (lines 125-128). */
  lemma NoIframe(url: string, given: Headers, net: Net, finalUrl: string, body: string)
    requires url != ""
    requires net.get([Request(url, StartHeaders(given))]) == Response(finalUrl, body)
    requires FindIframe(body).None?
    ensures Resolve(url, given, net) ==
      Outcome(Some(Fallback(url, finalUrl, body)), StartHeaders(given), Working, StartHeaders(given), [Request(url, StartHeaders(given))])
  {
  }

  /**
    Once the iframe is found and its origin derived, whatever fails later
    returns the working headers with Referer = the iframe URL and Origin = its
    `scheme://netloc`, mutated in place (lines 135-137, 216-228, 233-237).
  */
  lemma FallbackAfterIframe(url: string, given: Headers, net: Net, finalUrl: string, body: string, url2: string, origin: string)
    requires url != ""
    requires net.get([Request(url, StartHeaders(given))]) == Response(finalUrl, body)
    requires FindIframe(body) == Some(url2) && Origin(url2) == Some(origin)
    ensures var o := Resolve(url, given, net);
      o.returned == Working ==> o.headers == StartHeaders(given)["Referer" := url2]["Origin" := origin]
  {
    var current := StartHeaders(given);
    var t := IframeSteps(body, current, [Request(url, current)], net);
    assert t.sent != [Request(url, current)];
  }

  /**
    An iframe page without all six tokens sends the resolver to the fallback
    after two requests (lines 153-154, 211-228).
  */
  lemma TokensMissing(url: string, given: Headers, net: Net, finalUrl: string, body: string,
                      url2: string, origin: string, page: string)
    requires url != ""
    requires net.get([Request(url, StartHeaders(given))]) == Response(finalUrl, body)
    requires FindIframe(body) == Some(url2) && Origin(url2) == Some(origin)
    requires net.get([Request(url, StartHeaders(given)), Request(url2, StartHeaders(given)["Referer" := url2]["Origin" := origin])]).Response?
    requires net.get([Request(url, StartHeaders(given)), Request(url2, StartHeaders(given)["Referer" := url2]["Origin" := origin])]).body == page
    requires ExtractTokens(page).None?
    ensures Resolve(url, given, net).resolved == Some(Fallback(url, finalUrl, body))
    ensures |Resolve(url, given, net).sent| == 2
  {
    var current := StartHeaders(given);
    var parts := UrlSplit(url2).value;
    var mutated := current["Referer" := url2]["Origin" := origin];
    var sent := [Request(url, current), Request(url2, mutated)];
    assert origin == parts.0 + "://" + parts.1;
    assert sent == [Request(url, current)] + [Request(url2, mutated)];
    var t := IframeFetch(url2, parts.1, origin, current, [Request(url, current)], net);
    assert t == TokenSteps(None, FindHost(page), parts.1, origin, mutated, sent, net);
    assert IframeSteps(body, current, [Request(url, current)], net) == t;
  }

  /**
    Once the iframe page has been fetched, the outcome is TokenSteps' on what
    the scanners find there: a stream exactly when TokenSteps builds one, the
    fallback on a caught exception and the original URL on any other (lines 145-237).
  */
  lemma IframePageOutcome(url: string, given: Headers, net: Net, finalUrl: string, body: string,
                          url2: string, origin: string, page: string)
    requires url != ""
    requires net.get([Request(url, StartHeaders(given))]) == Response(finalUrl, body)
    requires FindIframe(body) == Some(url2) && Origin(url2) == Some(origin)
    requires net.get([Request(url, StartHeaders(given)), Request(url2, StartHeaders(given)["Referer" := url2]["Origin" := origin])]).Response?
    requires net.get([Request(url, StartHeaders(given)), Request(url2, StartHeaders(given)["Referer" := url2]["Origin" := origin])]).body == page
    ensures var o := Resolve(url, given, net);
      var mutated := StartHeaders(given)["Referer" := url2]["Origin" := origin];
      var t := TokenSteps(ExtractTokens(page), FindHost(page), UrlSplit(url2).value.1, origin, mutated,
                          [Request(url, StartHeaders(given)), Request(url2, mutated)], net);
      && o.current == mutated
      && o.sent == t.sent
      && (o.returned == Fresh <==> t.attempt.Stream?)
      && (t.attempt.Stream? ==> o.resolved == Some(t.attempt.url) && o.headers == t.attempt.headers)
      && (t.attempt.Caught? ==> o.resolved == Some(Fallback(url, finalUrl, body)))
      && (t.attempt.Uncaught? ==> o.resolved == Some(url))
  {
    var current := StartHeaders(given);
    var parts := UrlSplit(url2).value;
    var mutated := current["Referer" := url2]["Origin" := origin];
    var sent := [Request(url, current), Request(url2, mutated)];
    assert origin == parts.0 + "://" + parts.1;
    assert sent == [Request(url, current)] + [Request(url2, mutated)];
    var t := IframeFetch(url2, parts.1, origin, current, [Request(url, current)], net);
    assert t == TokenSteps(ExtractTokens(page), FindHost(page), parts.1, origin, mutated, sent, net);
    assert IframeSteps(body, current, [Request(url, current)], net) == t;
  }

  /**
    A stream is returned only after the first request succeeded and its body
    held an iframe with an origin (lines 115-137); FetchStream and
    IframePageOutcome then say what the rest requires.
  */
  lemma StreamNeedsIframe(url: string, given: Headers, net: Net)
    requires url != ""
    requires Resolve(url, given, net).returned == Fresh
    ensures var first := net.get([Request(url, StartHeaders(given))]);
      && first.Response?
      && FindIframe(first.body).Some?
      && UrlSplit(FindIframe(first.body).value).Some?
      && var url2 := FindIframe(first.body).value;
      && var parts := UrlSplit(url2).value;
      && var ts := IframeFetch(url2, parts.1, parts.0 + "://" + parts.1, StartHeaders(given), [Request(url, StartHeaders(given))], net);
      && ts.attempt.Stream?
      && Resolve(url, given, net).sent == ts.sent
  {
  }

  /** IframeFetch streams only after the iframe page came back (lines 139-141). */
  lemma FetchStream(url2: string, netloc: string, origin: string, current: Headers, sent: seq<Request>, net: Net)
    requires IframeFetch(url2, netloc, origin, current, sent, net).attempt.Stream?
    ensures var t := IframeFetch(url2, netloc, origin, current, sent, net);
      net.get(sent + [Request(url2, t.current)]).Response?
  {
  }
}
