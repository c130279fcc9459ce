/**
  The extended-M3U playlist parser (M3U8Parser.py, parse_m3u8_file).

  The file is read as a sequence of lines. Each line is stripped and
  classified: `#EXTINF:` opens a pending channel (and first emits the one
  already pending, without a URL), `#EXTVLCOPT:` adds a request header to the
  pending header map, and any other non-empty line not starting with `#` is the
  URL that closes the pending channel. `#EXTM3U` and the extension attributes
  follow section 4.3 of RFC 8216; the `tvg-*` attributes and the
  `#EXTVLCOPT:http-*` options are IPTV and VLC conventions.
*/
module Playlist {
  import opened Text

  /** One output record: exactly the six fields the parser writes. */
  datatype Channel = Channel(
    name: string,
    group: string,
    logo: string,
    tvgId: string,
    url: string,
    headers: Headers)

  /**
    The pending channel dict. Its keys are only ever `tvg_id`, `name`, `logo`,
    `group` and `url`, so it is a record with one optional field per key.
  */
  datatype Fields = Fields(
    tvgId: Option<string>,
    name: Option<string>,
    logo: Option<string>,
    group: Option<string>,
    url: Option<string>)

  const NoFields := Fields(None, None, None, None, None)

  /** `current_channel`: Python's `None` or a dict, as `None` or `Some(dict)`. */
  type Pending = Option<Fields>

  /** A dict is true in Python exactly when it is not empty. */
  predicate Truthy(current: Pending) {
    current.Some? && current.value != NoFields
  }

  /** `dict.get(key, default)` for one field. */
  function GetOr(field: Option<string>, default: string): string {
    if field.Some? then field.value else default
  }

  // ---------------------------------------------------------------------
  // The regular expressions, as matchers anchored at the start of the text.
  // ---------------------------------------------------------------------

  /** `<key>="([^"]*)"` */
  function AttributeAt(key: string, t: string): (r: Option<string>)
    ensures r.Some? ==> key + "=\"" + r.value + "\"" <= t && '"' !in r.value
  {
    var lead := key + "=\"";
    if lead <= t then
      var v := TakeUntil(t[|lead|..], '"');
      if |lead| + |v| < |t| then Some(v) else None
    else None
  }

  function Attribute(line: string, key: string): (r: Option<string>)
    ensures r.Some? ==> '"' !in r.value
  {
    Search(line, t => AttributeAt(key, t))
  }

  /**
    `,(.+)$`: `.` is any character but a newline, and `$` matches at the end
    or just before a newline that ends the text.
  */
  function CommaTitleAt(t: string): (r: Option<string>)
    ensures r.Some? ==> "," + r.value <= t && r.value != "" && '\n' !in r.value
    ensures r.Some? ==> |t| == 1 + |r.value| || (|t| == 2 + |r.value| && t[|t| - 1] == '\n')
  {
    if t != [] && t[0] == ',' then
      var rest := t[1..];
      var v := TakeUntil(rest, '\n');
      if |v| >= 1 && |v| + 1 >= |rest| then Some(v) else None
    else None
  }

  /** `http-([^=]+)=(.+)` */
  function HttpOptionAt(t: string): (r: Option<(string, string)>)
    ensures r.Some? ==> "http-" + r.value.0 + "=" + r.value.1 <= t
    ensures r.Some? ==> r.value.0 != "" && '=' !in r.value.0 && r.value.1 != "" && '\n' !in r.value.1
  {
    if "http-" <= t then
      var key := TakeUntil(t[5..], '=');
      if |key| >= 1 && 5 + |key| < |t| then
        var value := TakeUntil(t[6 + |key|..], '\n');
        if |value| >= 1 then Some((key, value)) else None
      else None
    else None
  }

  // ---------------------------------------------------------------------
  // What one line contributes.
  // ---------------------------------------------------------------------

  /** The pending channel dict built from an `#EXTINF:` line (lines 30-52). */
  function ExtinfAttributes(line: string): (r: Fields)
    ensures r.url.None?
    ensures r.tvgId == Attribute(line, "tvg-id") && r.logo == Attribute(line, "tvg-logo")
    ensures r.group == Attribute(line, "group-title")
  {
    var d := Fields(
      Attribute(line, "tvg-id"),
      Attribute(line, "tvg-name"),
      Attribute(line, "tvg-logo"),
      Attribute(line, "group-title"),
      None);
    match Search(line, CommaTitleAt)
    case None => d
    case Some(title) =>
      if d.name.None? || d.name.value == "" then d.(name := Some(Strip(title))) else d
  }

  /** The header name an `#EXTVLCOPT:http-<key>` option is stored under. */
  function HeaderName(key: string): string {
    if key == "referrer" then "Referer"
    else if key == "user-agent" then "User-Agent"
    else if key == "origin" then "Origin"
    else key
  }

  /** The header map after an `#EXTVLCOPT:` line (lines 57-70). */
  function ApplyOption(h: Headers, line: string): Headers {
    match Search(line, HttpOptionAt)
    case None => h
    case Some(option) => h[HeaderName(Strip(option.0)) := Strip(option.1)]
  }

  /** A record from the pending dict, with the parser's defaults. */
  function Record(fields: Fields, url: string, headers: Headers): (c: Channel)
    ensures fields.name.None? ==> c.name == "Unknown Channel"
    ensures fields.group.None? ==> c.group == "Undefined"
    ensures fields.logo.None? ==> c.logo == ""
    ensures fields.tvgId.None? ==> c.tvgId == ""
    ensures fields.name.Some? ==> c.name == fields.name.value
    ensures fields.group.Some? ==> c.group == fields.group.value
    ensures fields.logo.Some? ==> c.logo == fields.logo.value
    ensures fields.tvgId.Some? ==> c.tvgId == fields.tvgId.value
    ensures c.url == url && c.headers == headers
  {
    Channel(
      GetOr(fields.name, "Unknown Channel"),
      GetOr(fields.group, "Undefined"),
      GetOr(fields.logo, ""),
      GetOr(fields.tvgId, ""),
      url,
      headers)
  }

  datatype LineKind = ExtInf | VlcOpt | Url | Other

  /** How the parser treats a line once stripped (lines 17, 55, 72). */
  function Classify(line: string): LineKind {
    if "#EXTINF:" <= line then ExtInf
    else if "#EXTVLCOPT:" <= line then VlcOpt
    else if line != "" && !("#" <= line) then Url
    else Other
  }

  // ---------------------------------------------------------------------
  // The parser as a state machine over lines.
  // ---------------------------------------------------------------------

  /** `channels`, `current_channel` and `current_headers` between two lines. */
  datatype State = State(channels: seq<Channel>, current: Pending, headers: Headers)

  const Start := State([], None, map[])

  /** The URL-less record an `#EXTINF:` line emits for the channel pending before it. */
  function Flush(st: State): (r: seq<Channel>)
    ensures |r| <= 1 && (r != [] <==> Truthy(st.current))
    ensures r != [] ==> r[0].url == "" && r[0].headers == st.headers
  {
    if Truthy(st.current) then [Record(st.current.value, "", st.headers)] else []
  }

  function Step(st: State, raw: string): State {
    var line := Strip(raw);
    match Classify(line)
    case ExtInf => State(st.channels + Flush(st), Some(ExtinfAttributes(line)), map[])
    case VlcOpt => st.(headers := ApplyOption(st.headers, line))
    case Url =>
      if Truthy(st.current) then
        var fields := st.current.value.(url := Some(line));
        State(st.channels + [Record(fields, fields.url.value, st.headers)], None, map[])
      else st
    case Other => st
  }

  function RunFrom(st: State, lines: seq<string>): State
    decreases |lines|
  {
    if lines == [] then st else Step(RunFrom(st, lines[..|lines| - 1]), lines[|lines| - 1])
  }

  /** The block after the loop (lines 89-97): a pending channel that already has a URL. */
  function FinalFlush(st: State): seq<Channel> {
    if Truthy(st.current) && GetOr(st.current.value.url, "") != "" then
      [Record(st.current.value, st.current.value.url.value, st.headers)]
    else []
  }

  function Parse(lines: seq<string>): seq<Channel> {
    var st := RunFrom(Start, lines);
    st.channels + FinalFlush(st)
  }

  function CountExtinf(lines: seq<string>): nat
    decreases |lines|
  {
    if lines == [] then 0
    else CountExtinf(lines[..|lines| - 1]) + if Classify(Strip(lines[|lines| - 1])) == ExtInf then 1 else 0
  }

  lemma RunFromSnoc(lines: seq<string>, i: nat)
    requires i < |lines|
    ensures RunFrom(Start, lines[..i + 1]) == Step(RunFrom(Start, lines[..i]), lines[i])
  {
    assert lines[..i + 1][..i] == lines[..i];
  }

  /**
    parse_m3u8_file once the file has been read into its lines: the loop of
    lines 14-86 and the end-of-input block of lines 89-97.
  */
  method ParseLines(lines: seq<string>) returns (channels: seq<Channel>)
    ensures channels == Parse(lines)
    ensures |channels| <= CountExtinf(lines)
  {
    channels := [];
    var current: Pending := None;
    var headers: Headers := map[];
    for i := 0 to |lines|
      invariant State(channels, current, headers) == RunFrom(Start, lines[..i])
    {
      ghost var st := State(channels, current, headers);
      RunFromSnoc(lines, i);
      var line := Strip(lines[i]);
      if "#EXTINF:" <= line {
        assert Classify(line) == ExtInf;
        if Truthy(current) {
          channels := channels + [Record(current.value, "", headers)];
        }
        current := Some(ExtinfAttributes(line));
        headers := map[];
        assert State(channels, current, headers) == Step(st, lines[i]);
      } else if "#EXTVLCOPT:" <= line {
        assert Classify(line) == VlcOpt;
        headers := ApplyOption(headers, line);
        assert State(channels, current, headers) == Step(st, lines[i]);
      } else if line != "" && !("#" <= line) {
        assert Classify(line) == Url;
        if Truthy(current) {
          current := Some(current.value.(url := Some(line)));
          channels := channels + [Record(current.value, current.value.url.value, headers)];
          current := None;
          headers := map[];
        }
        assert State(channels, current, headers) == Step(st, lines[i]);
      } else {
        assert Classify(line) == Other;
      }
    }
    assert lines[..|lines|] == lines;
    if Truthy(current) && GetOr(current.value.url, "") != "" {
      channels := channels + [Record(current.value, current.value.url.value, headers)];
    }
    ParseCountBound(lines);
  }

  // ---------------------------------------------------------------------
  // Properties.
  // ---------------------------------------------------------------------

  lemma {:induction false} RunFromAppend(st: State, a: seq<string>, b: seq<string>)
    ensures RunFrom(st, a + b) == RunFrom(RunFrom(st, a), b)
    decreases |b|
  {
    if b == [] {
      assert a + b == a;
    } else {
      assert (a + b)[..|a + b| - 1] == a + b[..|b| - 1];
      RunFromAppend(st, a, b[..|b| - 1]);
    }
  }

  /** A pending dict never holds a `url` key between two lines. */
  predicate NoPendingUrl(st: State) {
    st.current.Some? ==> st.current.value.url.None?
  }

  lemma {:induction false} RunKeepsNoPendingUrl(lines: seq<string>)
    ensures NoPendingUrl(RunFrom(Start, lines))
    decreases |lines|
  {
    if lines != [] {
      RunKeepsNoPendingUrl(lines[..|lines| - 1]);
      StepKeepsNoPendingUrl(RunFrom(Start, lines[..|lines| - 1]), lines[|lines| - 1]);
    }
  }

  lemma StepKeepsNoPendingUrl(st: State, raw: string)
    requires NoPendingUrl(st)
    ensures NoPendingUrl(Step(st, raw))
  {
  }

  /**
    The end-of-input block never fires: a URL line resets the pending channel
    right after recording it, so a channel still pending at the end never has
    a URL and is dropped.
  */
  lemma EndOfInputBlockUnreachable(lines: seq<string>)
    ensures FinalFlush(RunFrom(Start, lines)) == []
    ensures Parse(lines) == RunFrom(Start, lines).channels
  {
    RunKeepsNoPendingUrl(lines);
  }

  /** Every `#EXTINF:` line contributes at most one record. */
  lemma {:induction false} ParseCountBound(lines: seq<string>)
    ensures |Parse(lines)| <= CountExtinf(lines)
  {
    CountInvariant(lines);
    EndOfInputBlockUnreachable(lines);
  }

  lemma {:induction false} CountInvariant(lines: seq<string>)
    ensures var st := RunFrom(Start, lines);
      |st.channels| + (if Truthy(st.current) then 1 else 0) <= CountExtinf(lines)
    decreases |lines|
  {
    if lines != [] {
      CountInvariant(lines[..|lines| - 1]);
      StepCount(RunFrom(Start, lines[..|lines| - 1]), lines[|lines| - 1]);
    }
  }

  lemma StepCount(st: State, raw: string)
    ensures var st' := Step(st, raw);
      |st'.channels| + (if Truthy(st'.current) then 1 else 0)
        <= |st.channels| + (if Truthy(st.current) then 1 else 0)
           + if Classify(Strip(raw)) == ExtInf then 1 else 0
  {
  }

  /** Records are only ever appended: what a prefix emits stays at the front. */
  lemma {:induction false} RunAppendsOnly(a: seq<string>, b: seq<string>)
    ensures RunFrom(Start, a).channels <= RunFrom(Start, a + b).channels
    decreases |b|
  {
    RunFromAppend(Start, a, b);
    ChannelsGrow(RunFrom(Start, a), b);
  }

  lemma {:induction false} ChannelsGrow(st: State, b: seq<string>)
    ensures st.channels <= RunFrom(st, b).channels
    decreases |b|
  {
    if b != [] {
      ChannelsGrow(st, b[..|b| - 1]);
      StepGrows(RunFrom(st, b[..|b| - 1]), b[|b| - 1]);
    }
  }

  lemma StepGrows(st: State, raw: string)
    ensures st.channels <= Step(st, raw).channels
  {
  }

  /**
    A line the parser ignores leaves both the output and the pending state
    unchanged: a blank line, a `#` line other than `#EXTINF:`/`#EXTVLCOPT:`,
    or a URL line when no non-empty channel is pending.
  */
  lemma InertLine(a: seq<string>, line: string, b: seq<string>)
    requires var kind := Classify(Strip(line));
      kind == Other || (kind == Url && !Truthy(RunFrom(Start, a).current))
    ensures RunFrom(Start, a + [line]) == RunFrom(Start, a)
    ensures Parse(a + [line] + b) == Parse(a + b)
  {
    RunFromAppend(Start, a + [line], b);
    RunFromAppend(Start, a, b);
  }

  // ---------------------------------------------------------------------
  // Name precedence and header options.
  // ---------------------------------------------------------------------

  /**
    A non-empty tvg-name wins; otherwise the text after the first comma that
    still has text after it, stripped (never empty on a stripped line); an
    empty tvg-name with no such text gives the empty name, and no source at
    all leaves the key unset (so the record says "Unknown Channel").
  */
  lemma NamePrecedence(line: string)
    requires Strip(line) == line
    ensures var name := ExtinfAttributes(line).name;
      var tvgName := Attribute(line, "tvg-name");
      var title := Search(line, CommaTitleAt);
      && (tvgName.Some? && tvgName.value != "" ==> name == tvgName)
      && ((tvgName.None? || tvgName.value == "") && title.Some? ==>
            name == Some(Strip(title.value)) && name.value != "")
      && (tvgName == Some("") && title.None? ==> name == Some(""))
      && (tvgName.None? && title.None? ==> name.None?)
  {
    var title := Search(line, CommaTitleAt);
    if title.Some? {
      CommaTitleNotBlank(line);
    }
  }

  /** On a stripped line the comma title ends the line, so it is not all whitespace. */
  lemma CommaTitleNotBlank(line: string)
    requires Strip(line) == line
    requires Search(line, CommaTitleAt).Some?
    ensures Strip(Search(line, CommaTitleAt).value) != ""
  {
    var i := FirstMatchAt(line, CommaTitleAt, 0).value;
    var t := line[i..];
    assert CommaTitleAt(t).Some? && t != [];
    assert i < |line| && !IsSpace(line[|line| - 1]);
    assert t[|t| - 1] == line[|line| - 1];
    CommaTitleToEnd(t);
    StripKeepsLast(CommaTitleAt(t).value);
  }

  /** When the text ends in a non-whitespace character, the comma title runs to its end. */
  lemma CommaTitleToEnd(t: string)
    requires CommaTitleAt(t).Some? && !IsSpace(t[|t| - 1])
    ensures CommaTitleAt(t).value == t[1..]
  {
  }

  /**
    An option line `#EXTVLCOPT:http-<key>=<value>` stores the stripped value
    under the stripped key, renamed only for the exact keys `referrer`,
    `user-agent` and `origin`; a later line with the same key overwrites.
  */
  lemma OptionLineSetsHeader(h: Headers, key: string, value: string)
    requires key != "" && '=' !in key
    requires value != "" && '\n' !in value
    ensures ApplyOption(h, "#EXTVLCOPT:http-" + key + "=" + value) == h[HeaderName(Strip(key)) := Strip(value)]
  {
    var t := "http-" + key + "=" + value;
    var line := "#EXTVLCOPT:" + t;
    assert line == "#EXTVLCOPT:http-" + key + "=" + value;
    assert line[11..] == t;
    HttpOptionMatch(key, value);
    NoHttpOptionInPrefix(line);
    SearchAt(line, HttpOptionAt, 11);
    ApplyFirstOption(h, line, key, value);
  }

  /** The header an option line sets comes from its first `http-<key>=<value>` match. */
  lemma ApplyFirstOption(h: Headers, line: string, key: string, value: string)
    requires Search(line, HttpOptionAt) == Some((key, value))
    ensures ApplyOption(h, line) == h[HeaderName(Strip(key)) := Strip(value)]
  {
  }

  /** `http-` cannot start inside the `#EXTVLCOPT:` prefix. */
  lemma NoHttpOptionInPrefix(line: string)
    requires "#EXTVLCOPT:" <= line
    ensures forall j {:trigger HttpOptionAt(line[j..])} :: 0 <= j < 11 ==> HttpOptionAt(line[j..]).None?
  {
    forall j | 0 <= j < 11
      ensures HttpOptionAt(line[j..]).None?
    {
      assert line[j..][0] == line[j] != 'h';
    }
  }

  /** `http-([^=]+)=(.+)` splits `http-<key>=<value>` at the first `=`. */
  lemma HttpOptionMatch(key: string, value: string)
    requires key != "" && '=' !in key
    requires value != "" && '\n' !in value
    ensures HttpOptionAt("http-" + key + "=" + value) == Some((key, value))
  {
    var t := "http-" + key + "=" + value;
    TakeUntilPrefix(key, "=" + value, '=');
    assert t[5..] == key + ("=" + value);
    assert t[6 + |key|..] == value;
    TakeUntilAll(value, '\n');
  }

  /**
    The value of `<key>="..."` is what follows the FIRST occurrence of
    `<key>="` up to the next quote; with no quote after that occurrence there
    is no match at all, since any later occurrence would contain one.
  */
  lemma AttributeFirstOccurrence(line: string, key: string, i: nat)
    requires i + |key| + 2 <= |line| && line[i..i + |key| + 2] == key + "=\""
    requires forall j :: 0 <= j < i ==> !(key + "=\"" <= line[j..])
    ensures var v := TakeUntil(line[i + |key| + 2..], '"');
      Attribute(line, key) == if i + |key| + 2 + |v| < |line| then Some(v) else None
  {
    var m := t => AttributeAt(key, t);
    var v := TakeUntil(line[i + |key| + 2..], '"');
    AttributeAtOccurrence(line, key, i);
    if i + |key| + 2 + |v| < |line| {
      SearchAt(line, m, i);
    } else {
      forall j | 0 <= j <= |line|
        ensures m(line[j..]).None?
      {
        if i < j {
          NoQuoteAfter(line, key, i, j);
        }
      }
      SearchNone(line, m);
    }
  }

  /** What `<key>="..."` captures at an occurrence of `<key>="`. */
  lemma AttributeAtOccurrence(line: string, key: string, i: nat)
    requires i + |key| + 2 <= |line| && line[i..i + |key| + 2] == key + "=\""
    ensures var v := TakeUntil(line[i + |key| + 2..], '"');
      AttributeAt(key, line[i..]) == if i + |key| + 2 + |v| < |line| then Some(v) else None
  {
    assert line[i..][|key| + 2..] == line[i + |key| + 2..];
  }

  /** Past an unclosed `<key>="`, no later position holds `<key>="` either. */
  lemma NoQuoteAfter(line: string, key: string, i: nat, j: nat)
    requires i < j <= |line|
    requires i + |key| + 2 <= |line| && line[i..i + |key| + 2] == key + "=\""
    requires i + |key| + 2 + |TakeUntil(line[i + |key| + 2..], '"')| >= |line|
    ensures AttributeAt(key, line[j..]).None?
  {
    var lead := key + "=\"";
    if j + |lead| <= |line| {
      var v := TakeUntil(line[i + |lead|..], '"');
      var q := j + |lead| - 1;
      assert v == line[i + |lead|..];
      assert line[q] == v[q - (i + |lead|)];
      assert line[j..][|lead| - 1] == line[q];
    }
  }

  // ---------------------------------------------------------------------
  // Well-formed playlists: blocks of `#EXTINF:`, options, URL.
  // ---------------------------------------------------------------------

  /** An `#EXTINF:` line, the option or comment lines after it, and its URL line if any. */
  datatype Block = Block(extinf: string, options: seq<string>, url: Option<string>)

  predicate WellFormed(b: Block) {
    && Classify(Strip(b.extinf)) == ExtInf
    && ExtinfAttributes(Strip(b.extinf)) != NoFields
    && (forall l :: l in b.options ==> Classify(Strip(l)) == VlcOpt || Classify(Strip(l)) == Other)
    && (b.url.Some? ==> Classify(Strip(b.url.value)) == Url)
  }

  function BlockLines(b: Block): seq<string> {
    [b.extinf] + b.options + if b.url.Some? then [b.url.value] else []
  }

  function Concat(bs: seq<Block>): seq<string>
    decreases |bs|
  {
    if bs == [] then [] else Concat(bs[..|bs| - 1]) + BlockLines(bs[|bs| - 1])
  }

  /** The headers the option lines of a block leave, starting from `h`. */
  function OptionHeaders(h: Headers, options: seq<string>): Headers
    decreases |options|
  {
    if options == [] then h
    else
      var before := OptionHeaders(h, options[..|options| - 1]);
      var line := Strip(options[|options| - 1]);
      if Classify(line) == VlcOpt then ApplyOption(before, line) else before
  }

  /** The record a block stands for; a block without a URL gets url ''. */
  function BlockRecord(b: Block): Channel {
    Record(
      ExtinfAttributes(Strip(b.extinf)),
      if b.url.Some? then Strip(b.url.value) else "",
      OptionHeaders(map[], b.options))
  }

  function Records(bs: seq<Block>): (r: seq<Channel>)
    ensures |r| == |bs|
    decreases |bs|
  {
    if bs == [] then [] else Records(bs[..|bs| - 1]) + [BlockRecord(bs[|bs| - 1])]
  }

  /** The i-th record is the i-th block's. */
  lemma {:induction false} RecordsAt(bs: seq<Block>, i: nat)
    requires i < |bs|
    ensures Records(bs)[i] == BlockRecord(bs[i])
    decreases |bs|
  {
    var init := bs[..|bs| - 1];
    assert Records(bs) == Records(init) + [BlockRecord(bs[|bs| - 1])];
    if i < |bs| - 1 {
      RecordsAt(init, i);
      assert init[i] == bs[i];
    }
  }

  /** Every block gives its record, in order, except a last block that has no URL. */
  function Expected(bs: seq<Block>): seq<Channel> {
    if bs != [] && bs[|bs| - 1].url.None? then Records(bs[..|bs| - 1]) else Records(bs)
  }

  lemma {:induction false} RunOptions(st: State, options: seq<string>)
    requires forall l :: l in options ==> Classify(Strip(l)) == VlcOpt || Classify(Strip(l)) == Other
    ensures RunFrom(st, options) == st.(headers := OptionHeaders(st.headers, options))
    decreases |options|
  {
    if options != [] {
      RunOptions(st, options[..|options| - 1]);
    }
  }

  /** The state after one block, from the state before it. */
  function AfterBlock(st: State, b: Block): State {
    if b.url.Some? then State(st.channels + Flush(st) + [BlockRecord(b)], None, map[])
    else State(st.channels + Flush(st), Some(ExtinfAttributes(Strip(b.extinf))), OptionHeaders(map[], b.options))
  }

  lemma RunBlock(st: State, b: Block)
    requires WellFormed(b)
    ensures RunFrom(st, BlockLines(b)) == AfterBlock(st, b)
  {
    var fields := ExtinfAttributes(Strip(b.extinf));
    var afterExtinf := State(st.channels + Flush(st), Some(fields), map[]);
    var afterOptions := afterExtinf.(headers := OptionHeaders(map[], b.options));
    assert RunFrom(st, [b.extinf]) == afterExtinf by {
      assert [b.extinf][..0] == [];
    }
    RunFromAppend(st, [b.extinf], b.options);
    RunOptions(afterExtinf, b.options);
    assert RunFrom(st, [b.extinf] + b.options) == afterOptions;
    if b.url.Some? {
      RunFromAppend(st, [b.extinf] + b.options, [b.url.value]);
      UrlLine(afterOptions, b.url.value);
    } else {
      assert BlockLines(b) == [b.extinf] + b.options;
    }
  }

  /** A URL line closes a pending channel into a record carrying that URL. */
  lemma UrlLine(st: State, line: string)
    requires Classify(Strip(line)) == Url && Truthy(st.current)
    ensures RunFrom(st, [line]) ==
      State(st.channels + [Record(st.current.value, Strip(line), st.headers)], None, map[])
  {
    assert [line][..0] == [];
  }

  /** The state the parser is in after whole blocks. */
  function StateAfter(bs: seq<Block>): State {
    if bs != [] && bs[|bs| - 1].url.None? then
      var b := bs[|bs| - 1];
      State(Records(bs[..|bs| - 1]), Some(ExtinfAttributes(Strip(b.extinf))), OptionHeaders(map[], b.options))
    else State(Records(bs), None, map[])
  }

  /** Flushing the state after whole blocks emits the record of an open last block. */
  lemma FlushAfter(init: seq<Block>)
    requires init != [] ==> ExtinfAttributes(Strip(init[|init| - 1].extinf)) != NoFields
    ensures StateAfter(init).channels + Flush(StateAfter(init)) == Records(init)
  {
    if init != [] && init[|init| - 1].url.None? {
      var prev := init[|init| - 1];
      var before := init[..|init| - 1];
      var fields := ExtinfAttributes(Strip(prev.extinf));
      var st := State(Records(before), Some(fields), OptionHeaders(map[], prev.options));
      assert StateAfter(init) == st;
      assert Flush(st) == [Record(fields, "", st.headers)];
      assert Records(init) == Records(before) + [BlockRecord(prev)];
    }
  }

  lemma StateAfterBlock(bs: seq<Block>)
    requires bs != [] && (|bs| > 1 ==> ExtinfAttributes(Strip(bs[|bs| - 2].extinf)) != NoFields)
    ensures AfterBlock(StateAfter(bs[..|bs| - 1]), bs[|bs| - 1]) == StateAfter(bs)
  {
    var init := bs[..|bs| - 1];
    var last := bs[|bs| - 1];
    var emitted := StateAfter(init).channels + Flush(StateAfter(init));
    FlushAfter(init);
    assert emitted == Records(init);
    if last.url.Some? {
      calc {
        AfterBlock(StateAfter(init), last);
        State(emitted + [BlockRecord(last)], None, map[]);
        State(Records(bs), None, map[]);
      }
    } else {
      calc {
        AfterBlock(StateAfter(init), last);
        State(emitted, Some(ExtinfAttributes(Strip(last.extinf))), OptionHeaders(map[], last.options));
      }
    }
  }

  lemma {:induction false} RunBlocks(bs: seq<Block>)
    requires forall i :: 0 <= i < |bs| ==> WellFormed(bs[i])
    ensures RunFrom(Start, Concat(bs)) == StateAfter(bs)
    decreases |bs|
  {
    if bs != [] {
      var init := bs[..|bs| - 1];
      var last := bs[|bs| - 1];
      var before := StateAfter(init);
      RunFromAppend(Start, Concat(init), BlockLines(last));
      RunBlocks(init);
      assert RunFrom(Start, Concat(bs)) == RunFrom(before, BlockLines(last));
      RunBlock(before, last);
      StateAfterBlock(bs);
    }
  }

  /**
    A playlist made of well-formed blocks parses to one record per block, in
    order: a block's headers are exactly those of its own option lines, a
    block with no URL line is emitted with url '' when the next `#EXTINF:`
    arrives, and a last block with no URL line is dropped.
  */
  lemma ParseBlocks(bs: seq<Block>)
    requires forall i :: 0 <= i < |bs| ==> WellFormed(bs[i])
    ensures Parse(Concat(bs)) == Expected(bs)
  {
    RunBlocks(bs);
    EndOfInputBlockUnreachable(Concat(bs));
  }

  /** When every block has its URL line, the i-th record is the i-th block's. */
  lemma ParseCompleteBlocks(bs: seq<Block>)
    requires forall i :: 0 <= i < |bs| ==> WellFormed(bs[i]) && bs[i].url.Some?
    ensures |Parse(Concat(bs))| == |bs|
    ensures forall i :: 0 <= i < |bs| ==>
      Parse(Concat(bs))[i] == BlockRecord(bs[i]) && Parse(Concat(bs))[i].url == Strip(bs[i].url.value)
  {
    ParseBlocks(bs);
    forall i | 0 <= i < |bs|
      ensures Parse(Concat(bs))[i] == BlockRecord(bs[i])
    {
      RecordsAt(bs, i);
    }
  }
}
