/**
  The fixed regular expressions `resolve_m3u8_link` runs over the pages it
  fetches (M3U8ResolverOMG.py lines 125, 145-151 and 188), each written as a
  matcher anchored at one position; `Search` from Text finds the leftmost
  position where it succeeds, as `re.search` and the first `re.findall` result do.
*/
module Patterns {
  import opened Text

  const IframeLead := "iframe src=\""

  /**
    `iframe src="([^"]+)`: at least one non-quote character after the opening
    quote, as many as there are; no closing quote is needed.
  */
  function IframeAt(t: string): (r: Option<string>)
    ensures r.Some? <==> IframeLead <= t && |t| > |IframeLead| && t[|IframeLead|] != '"'
    ensures r.Some? ==> IframeLead + r.value <= t && r.value != "" && '"' !in r.value
    ensures r.Some? ==> |IframeLead| + |r.value| == |t| || t[|IframeLead| + |r.value|] == '"'
  {
    if IframeLead <= t then
      var v := TakeUntil(t[|IframeLead|..], '"');
      if v != "" then Some(v) else None
    else None
  }

  /** `re.findall(r'iframe src="([^"]+)', page)[0]`, or None when the list is empty. */
  function FindIframe(page: string): (r: Option<string>)
    ensures r.Some? ==> r.value != "" && '"' !in r.value
  {
    Search(page, IframeAt)
  }

  /** ` channelKey = "([^"]*)`: the value runs to the next quote or the end. */
  function ChannelKeyAt(t: string): (r: Option<string>)
    ensures r.Some? <==> " channelKey = \"" <= t
    ensures r.Some? ==> " channelKey = \"" + r.value <= t && '"' !in r.value
  {
    var lead := " channelKey = \"";
    if lead <= t then Some(TakeUntil(t[|lead|..], '"')) else None
  }

  /**
    ` <name>\s*= "([^"]*)`. The whitespace run is taken whole: giving any of it
    back would leave a space where `=` must be, so there is one way to match.
  */
  function AssignmentAt(name: string, t: string): (r: Option<string>)
    ensures r.Some? ==> " " + name <= t && '"' !in r.value
  {
    var lead := " " + name;
    if lead <= t then
      var j := SkipSpaces(t, |lead|);
      if "= \"" <= t[j..] then Some(TakeUntil(t[j + 3..], '"')) else None
    else None
  }

  /** The three assignments of lines 146-148. */
  function AuthTsAt(t: string): (r: Option<string>)
    ensures r.Some? ==> " authTs" <= t && '"' !in r.value
  {
    AssignmentAt("authTs", t)
  }

  function AuthRndAt(t: string): (r: Option<string>)
    ensures r.Some? ==> " authRnd" <= t && '"' !in r.value
  {
    AssignmentAt("authRnd", t)
  }

  function AuthSigAt(t: string): (r: Option<string>)
    ensures r.Some? ==> " authSig" <= t && '"' !in r.value
  {
    AssignmentAt("authSig", t)
  }

  /** `\}\s*fetchWithRetry\(\s*'([^']*)`: the authentication host. */
  function AuthHostAt(t: string): (r: Option<string>)
    ensures r.Some? ==> t != [] && t[0] == '}' && '\'' !in r.value
  {
    if t != [] && t[0] == '}' then
      var j := SkipSpaces(t, 1);
      if "fetchWithRetry(" <= t[j..] then
        var k := SkipSpaces(t, j + 15);
        if k < |t| && t[k] == '\'' then Some(TakeUntil(t[k + 1..], '\'')) else None
      else None
    else None
  }

  /** `n fetchWithRetry\(\s*'([^']*)`: the server-lookup path. */
  function LookupAt(t: string): (r: Option<string>)
    ensures r.Some? ==> "n fetchWithRetry(" <= t && '\'' !in r.value
  {
    if "n fetchWithRetry(" <= t then
      var k := SkipSpaces(t, 17);
      if k < |t| && t[k] == '\'' then Some(TakeUntil(t[k + 1..], '\'')) else None
    else None
  }

  /**
    The rest of `s` once the characters of `cs` have been found in order,
    each at its earliest position after the one before; None if one is missing.
  */
  function Chain(s: string, cs: seq<char>): (r: Option<string>)
    ensures r.Some? ==> |r.value| <= |s| && r.value == s[|s| - |r.value|..]
    decreases |cs|
  {
    if cs == [] then Some(s)
    else match IndexOf(s, cs[0], 0)
      case None => None
      case Some(p) =>
        var tail := s[p + 1..];
        var r := Chain(tail, cs[1..]);
        if r.Some? then
          assert tail[|tail| - |r.value|..] == s[|s| - |r.value|..];
          r
        else r
  }

  /**
    `(?s)m3u8 =.*?:.*?:.*?".*?".*?"([^"]*)`. Each lazy `.*?` stops at the
    earliest character that lets the rest match, and `([^"]*)` always
    matches, so the match takes the first `:`, the next `:`, then the next
    three quotes, and captures up to the following quote.
  */
  function HostAt(t: string): (r: Option<string>)
    ensures r.Some? ==> "m3u8 =" <= t && '"' !in r.value
  {
    if "m3u8 =" <= t then
      match Chain(t[6..], HostChain)
      case None => None
      case Some(rest) => Some(TakeUntil(rest, '"'))
    else None
  }

  /** The six values read from the iframe page (lines 145-161, before encoding). */
  datatype Tokens = Tokens(
    channelKey: string,
    authTs: string,
    authRnd: string,
    authSig: string,
    authHost: string,
    serverLookup: string)

  /** Lines 145-154: all six searches must succeed, or the step fails as a whole. */
  function ExtractTokens(page: string): (r: Option<Tokens>)
    ensures r.Some? <==>
      && Search(page, ChannelKeyAt).Some?
      && Search(page, AuthTsAt).Some?
      && Search(page, AuthRndAt).Some?
      && Search(page, AuthSigAt).Some?
      && Search(page, AuthHostAt).Some?
      && Search(page, LookupAt).Some?
    ensures r.Some? ==> r.value.channelKey == Search(page, ChannelKeyAt).value
    ensures r.Some? ==> r.value.authTs == Search(page, AuthTsAt).value
    ensures r.Some? ==> r.value.authRnd == Search(page, AuthRndAt).value
    ensures r.Some? ==> r.value.authSig == Search(page, AuthSigAt).value
    ensures r.Some? ==> r.value.authHost == Search(page, AuthHostAt).value
    ensures r.Some? ==> r.value.serverLookup == Search(page, LookupAt).value
  {
    var channelKey := Search(page, ChannelKeyAt);
    var authTs := Search(page, AuthTsAt);
    var authRnd := Search(page, AuthRndAt);
    var authSig := Search(page, AuthSigAt);
    var authHost := Search(page, AuthHostAt);
    var serverLookup := Search(page, LookupAt);
    if channelKey.Some? && authTs.Some? && authRnd.Some? && authSig.Some? && authHost.Some? && serverLookup.Some? then
      Some(Tokens(channelKey.value, authTs.value, authRnd.value, authSig.value, authHost.value, serverLookup.value))
    else None
  }

  /** The final host (line 188), or None when the page has no such chain. */
  function FindHost(page: string): (r: Option<string>)
    ensures r.Some? ==> '"' !in r.value
  {
    Search(page, HostAt)
  }

  // ---------------------------------------------------------------------
  // What the scanners find in pages of a known shape.
  // ---------------------------------------------------------------------

  /**
    The iframe URL is the text after the first `iframe src="` that is followed
    by a non-quote character, up to the next quote or the end of the page.
  */
  lemma FirstIframe(pre: string, src: string, post: string)
    requires forall j :: 0 <= j < |pre| ==> IframeAt((pre + IframeLead + src + post)[j..]).None?
    requires src != "" && '"' !in src
    requires post == "" || post[0] == '"'
    ensures FindIframe(pre + IframeLead + src + post) == Some(src)
  {
    var page := pre + IframeLead + src + post;
    IframeMatch(src, post);
    assert page[|pre|..] == IframeLead + src + post;
    SearchAt(page, IframeAt, |pre|);
  }

  lemma IframeMatch(src: string, post: string)
    requires src != "" && '"' !in src
    requires post == "" || post[0] == '"'
    ensures IframeAt(IframeLead + src + post) == Some(src)
  {
    var t := IframeLead + src + post;
    assert t[|IframeLead|..] == src + post;
    TakeUntilValue(src, post, '"');
  }

  /** An empty `src=""` is no match: the search goes on to a later `iframe src="`. */
  lemma EmptySrcSkipped(src: string)
    requires src != "" && '"' !in src
    ensures FindIframe(IframeLead + "\"" + IframeLead + src) == Some(src)
  {
    var page := IframeLead + "\"" + IframeLead + src;
    var i := |IframeLead| + 1;
    assert page == (IframeLead + "\"") + IframeLead + src + "";
    forall j | 0 <= j < i
      ensures IframeAt(page[j..]).None?
    {
      if j == 0 {
        assert page[|IframeLead|] == '"';
        IframeNotEmpty(page);
      } else {
        assert page[j..][0] == page[j] != 'i';
      }
    }
    FirstIframe(IframeLead + "\"", src, "");
  }

  lemma IframeNotEmpty(t: string)
    requires |t| > |IframeLead| && t[|IframeLead|] == '"'
    ensures IframeAt(t).None?
  {
  }

  /** ` channelKey = "<value>` yields the value up to the next quote. */
  lemma ChannelKeyMatch(value: string, post: string)
    requires '"' !in value
    requires post == "" || post[0] == '"'
    ensures ChannelKeyAt(" channelKey = \"" + value + post) == Some(value)
  {
    var t := " channelKey = \"" + value + post;
    assert t[15..] == value + post;
    TakeUntilValue(value, post, '"');
  }

  /** ` <name><spaces>= "<value>` yields the value, for any run of whitespace. */
  lemma AssignmentMatch(name: string, spaces: string, value: string, post: string)
    requires forall k :: 0 <= k < |spaces| ==> IsSpace(spaces[k])
    requires '"' !in value
    requires post == "" || post[0] == '"'
    ensures AssignmentAt(name, " " + name + (spaces + ("= \"" + (value + post)))) == Some(value)
  {
    var lead := " " + name;
    var after := "= \"" + (value + post);
    var t := lead + (spaces + after);
    var j := |lead| + |spaces|;
    SpacesThen(lead, spaces, after);
    assert after[3..] == value + post;
    TakeUntilValue(value, post, '"');
  }

  /** After `lead`, SkipSpaces passes a run of whitespace and stops where `rest` begins. */
  lemma SpacesThen(lead: string, spaces: string, rest: string)
    requires forall k :: 0 <= k < |spaces| ==> IsSpace(spaces[k])
    requires rest != "" && !IsSpace(rest[0])
    ensures SkipSpaces(lead + (spaces + rest), |lead|) == |lead| + |spaces|
    ensures (lead + (spaces + rest))[|lead| + |spaces|..] == rest
  {
    var t := lead + (spaces + rest);
    assert t[|lead| + |spaces|] == rest[0];
    assert forall k :: |lead| <= k < |lead| + |spaces| ==> t[k] == spaces[k - |lead|];
    SkipSpacesOver(t, |lead|, |lead| + |spaces|);
  }

  /** SpacesThen at position `i` of a text whose suffix from `i` is the whitespace run and `rest`. */
  lemma SkipShifted(t: string, i: nat, spaces: string, rest: string)
    requires i <= |t| && t[i..] == spaces + rest
    requires forall k :: 0 <= k < |spaces| ==> IsSpace(spaces[k])
    requires rest != "" && !IsSpace(rest[0])
    ensures SkipSpaces(t, i) == i + |spaces|
    ensures t[i + |spaces|..] == rest
  {
    assert t[i + |spaces|] == rest[0];
    assert forall k :: i <= k < i + |spaces| ==> t[k] == t[i..][k - i] == spaces[k - i];
    SkipSpacesOver(t, i, i + |spaces|);
    assert t[i + |spaces|..] == t[i..][|spaces|..];
  }

  /** SkipSpaces stops at the first character that is not whitespace. */
  lemma SkipSpacesOver(t: string, i: nat, j: nat)
    requires i <= j < |t| && !IsSpace(t[j])
    requires forall k :: i <= k < j ==> IsSpace(t[k])
    ensures SkipSpaces(t, i) == j
  {
  }

  /** The lookup step's path: after `n fetchWithRetry(`, any whitespace and an apostrophe, the text up to the next apostrophe. */
  lemma LookupMatch(ws: string, path: string, post: string)
    requires forall k :: 0 <= k < |ws| ==> IsSpace(ws[k])
    requires '\'' !in path
    requires post == "" || post[0] == '\''
    ensures LookupAt("n fetchWithRetry(" + (ws + ("'" + (path + post)))) == Some(path)
  {
    var t := "n fetchWithRetry(" + (ws + ("'" + (path + post)));
    SpacesThen("n fetchWithRetry(", ws, "'" + (path + post));
    assert t[17 + |ws|] == '\'';
    assert t[17 + |ws| + 1..] == path + post;
    TakeUntilValue(path, post, '\'');
  }

  /** `}<whitespace>fetchWithRetry(<whitespace>'<host>` yields the host up to the next apostrophe. */
  lemma AuthHostMatch(ws1: string, ws2: string, host: string, post: string)
    requires forall k :: 0 <= k < |ws1| ==> IsSpace(ws1[k])
    requires forall k :: 0 <= k < |ws2| ==> IsSpace(ws2[k])
    requires '\'' !in host
    requires post == "" || post[0] == '\''
    ensures AuthHostAt("}" + (ws1 + ("fetchWithRetry(" + (ws2 + ("'" + (host + post)))))) == Some(host)
  {
    var quoted := "'" + (host + post);
    var call := "fetchWithRetry(" + (ws2 + quoted);
    var t := "}" + (ws1 + call);
    var j := 1 + |ws1|;
    SpacesThen("}", ws1, call);
    assert t[j..][..15] == "fetchWithRetry(";
    assert t[j + 15..] == ws2 + quoted;
    var k := j + 15 + |ws2|;
    SkipShifted(t, j + 15, ws2, quoted);
    assert t[k + 1..] == host + post;
    TakeUntilValue(host, post, '\'');
    AuthHostAtParts(t, j, k);
  }

  /** AuthHostAt once both whitespace runs are passed: the capture starts after the apostrophe at `k`. */
  lemma AuthHostAtParts(t: string, j: nat, k: nat)
    requires t != [] && t[0] == '}' && SkipSpaces(t, 1) == j && "fetchWithRetry(" <= t[j..]
    requires j + 15 <= |t| && SkipSpaces(t, j + 15) == k && k < |t| && t[k] == '\''
    ensures AuthHostAt(t) == Some(TakeUntil(t[k + 1..], '\''))
  {
  }

  /** One link of the chain: the first `c` is the one after `x` when `x` has none. */
  lemma ChainStep(x: string, c: char, rest: string, cs: seq<char>)
    requires c !in x && cs != [] && cs[0] == c
    ensures Chain(x + [c] + rest, cs) == Chain(rest, cs[1..])
  {
    var s := x + [c] + rest;
    assert s[|x|] == c;
    assert forall k :: 0 <= k < |x| ==> s[k] == x[k];
    assert IndexOf(s, c, 0) == Some(|x|);
    assert s[|x| + 1..] == rest;
  }

  const HostChain := "::\"\"\""

  /**
    After `m3u8 =`, the host is what the third quote after the second colon
    opens, up to the next quote.
  */
  lemma HostMatch(a: string, b: string, c: string, d: string, e: string, host: string, post: string)
    requires ':' !in a && ':' !in b && '"' !in c && '"' !in d && '"' !in e && '"' !in host
    requires post == "" || post[0] == '"'
    ensures HostAt("m3u8 =" + (a + ":" + (b + ":" + (c + "\"" + (d + "\"" + (e + "\"" + (host + post))))))) == Some(host)
  {
    var r5 := host + post;
    HostChainMatch(a, b, c, d, e, r5);
    HostAfterLead("m3u8 =" + (a + ":" + (b + ":" + (c + "\"" + (d + "\"" + (e + "\"" + r5))))), r5);
    TakeUntilValue(host, post, '"');
  }

  /** The chain of two colons and three quotes runs through the five fields. */
  lemma HostChainMatch(a: string, b: string, c: string, d: string, e: string, rest: string)
    requires ':' !in a && ':' !in b && '"' !in c && '"' !in d && '"' !in e
    ensures Chain(a + ":" + (b + ":" + (c + "\"" + (d + "\"" + (e + "\"" + rest)))), HostChain) == Some(rest)
  {
    var r4 := e + "\"" + rest;
    var r3 := d + "\"" + r4;
    var r2 := c + "\"" + r3;
    var r1 := b + ":" + r2;
    ChainStep(a, ':', r1, "::\"\"\"");
    ChainStep(b, ':', r2, ":\"\"\"");
    ChainStep(c, '"', r3, "\"\"\"");
    ChainStep(d, '"', r4, "\"\"");
    ChainStep(e, '"', rest, "\"");
  }

  lemma HostAfterLead(t: string, rest: string)
    requires "m3u8 =" <= t && Chain(t[6..], HostChain) == Some(rest)
    ensures HostAt(t) == Some(TakeUntil(rest, '"'))
  {
  }

  /** With no `:` after `m3u8 =`, there is no host and the resolver falls back. */
  lemma HostNeedsColons(t: string)
    requires "m3u8 =" <= t && ':' !in t
    ensures HostAt(t).None?
  {
    assert ':' !in t[6..];
    assert IndexOf(t[6..], ':', 0).None?;
  }
}
