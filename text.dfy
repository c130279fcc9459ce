/**
  String primitives shared by the playlist parser and the resolver: Python's
  notion of whitespace (str.isspace, and `\s` in a str pattern), str.strip(),
  dictionary lookups with a default, and the leftmost-match search that
  `re.search` performs for a pattern with no look-behind and no `^` anchor.
*/
module Text {

  datatype Option<+T> = None | Some(value: T)

  type Headers = map<string, string>

  /** Python's whitespace: category Zs, or bidirectional class WS, B or S. */
  predicate IsSpace(c: char) {
    var n := c as int;
    n == 0x20 || 0x09 <= n <= 0x0D || 0x1C <= n <= 0x1F || n == 0x85 || n == 0xA0
    || n == 0x1680 || 0x2000 <= n <= 0x200A || n == 0x2028 || n == 0x2029
    || n == 0x202F || n == 0x205F || n == 0x3000
  }

  /** `d.get(k, default)` */
  function Get(m: Headers, k: string, default: string): (r: string)
    ensures k in m ==> r == m[k]
    ensures k !in m ==> r == default
  {
    if k in m then m[k] else default
  }

  /** The first index at or after `i` that is not whitespace. */
  function SkipSpaces(s: string, i: nat): (j: nat)
    requires i <= |s|
    ensures i <= j <= |s|
    ensures forall k :: i <= k < j ==> IsSpace(s[k])
    ensures j == |s| || !IsSpace(s[j])
    decreases |s| - i
  {
    if i == |s| || !IsSpace(s[i]) then i else SkipSpaces(s, i + 1)
  }

  /** The end of `s` once trailing whitespace is removed, never below `lo`. */
  function ContentEnd(s: string, lo: nat): (j: nat)
    requires lo <= |s|
    ensures lo <= j <= |s|
    ensures forall k :: j <= k < |s| ==> IsSpace(s[k])
    ensures j == lo || !IsSpace(s[j - 1])
    decreases |s|
  {
    if |s| == lo || !IsSpace(s[|s| - 1]) then |s| else ContentEnd(s[..|s| - 1], lo)
  }

  /**
    `s.strip()`: exactly the leading and the trailing whitespace are removed,
    so what is left is a slice of `s` with no whitespace at either end.
  */
  function Strip(s: string): (r: string)
    ensures r == "" || (!IsSpace(r[0]) && !IsSpace(r[|r| - 1]))
    ensures exists i, j ::
      && 0 <= i <= j <= |s|
      && r == s[i..j]
      && (forall k :: 0 <= k < i ==> IsSpace(s[k]))
      && (forall k :: j <= k < |s| ==> IsSpace(s[k]))
    ensures (forall k :: 0 <= k < |s| ==> IsSpace(s[k])) ==> r == ""
  {
    var i := SkipSpaces(s, 0);
    var j := ContentEnd(s, i);
    assert s[i..j] == s[i..j];
    s[i..j]
  }

  /** A text that ends in a non-whitespace character does not strip to the empty string. */
  lemma StripKeepsLast(s: string)
    requires s != "" && !IsSpace(s[|s| - 1])
    ensures Strip(s) != ""
  {
    var i := SkipSpaces(s, 0);
    assert i < |s|;
    assert ContentEnd(s, i) == |s|;
  }

  /** The first index at or after `i` that does not hold `c`. */
  function SkipChar(s: string, c: char, i: nat): (j: nat)
    requires i <= |s|
    ensures i <= j <= |s|
    ensures forall k :: i <= k < j ==> s[k] == c
    ensures j == |s| || s[j] != c
    decreases |s| - i
  {
    if i == |s| || s[i] != c then i else SkipChar(s, c, i + 1)
  }

  /** The end of `s` once trailing `c` are removed, never below `lo`. */
  function CharEnd(s: string, c: char, lo: nat): (j: nat)
    requires lo <= |s|
    ensures lo <= j <= |s|
    ensures forall k :: j <= k < |s| ==> s[k] == c
    ensures j == lo || s[j - 1] != c
    decreases |s|
  {
    if |s| == lo || s[|s| - 1] != c then |s| else CharEnd(s[..|s| - 1], c, lo)
  }

  /**
    `s.strip(c)` for a single character `c`: exactly the leading and the
    trailing run of `c` are removed.
  */
  function StripChar(s: string, c: char): (r: string)
    ensures r == "" || (r[0] != c && r[|r| - 1] != c)
    ensures exists i, j ::
      && 0 <= i <= j <= |s|
      && r == s[i..j]
      && (forall k :: 0 <= k < i ==> s[k] == c)
      && (forall k :: j <= k < |s| ==> s[k] == c)
    ensures (forall k :: 0 <= k < |s| ==> s[k] == c) ==> r == ""
    ensures (s == "" || (s[0] != c && s[|s| - 1] != c)) ==> r == s
  {
    var i := SkipChar(s, c, 0);
    var j := CharEnd(s, c, i);
    assert s[i..j] == s[i..j];
    s[i..j]
  }

  /** The longest prefix of `s` without `c`: the capture of `([^c]*)`. */
  function TakeUntil(s: string, c: char): (r: string)
    ensures r <= s && c !in r
    ensures |r| == |s| || s[|r|] == c
    decreases |s|
  {
    if s == [] || s[0] == c then [] else [s[0]] + TakeUntil(s[1..], c)
  }

  /** TakeUntil stops at the first `c`, even when more text follows. */
  lemma {:induction false} TakeUntilPrefix(a: string, b: string, c: char)
    requires c !in a && b != [] && b[0] == c
    ensures TakeUntil(a + b, c) == a
    decreases |a|
  {
    if a != [] {
      assert (a + b)[1..] == a[1..] + b;
      TakeUntilPrefix(a[1..], b, c);
    }
  }

  /** TakeUntil keeps all of a text without `c`. */
  lemma {:induction false} TakeUntilAll(a: string, c: char)
    requires c !in a
    ensures TakeUntil(a, c) == a
    decreases |a|
  {
    if a != [] {
      TakeUntilAll(a[1..], c);
    }
  }
  /** TakeUntil reads a value up to the `c` that closes it, or to the end. */
  lemma TakeUntilValue(v: string, post: string, c: char)
    requires c !in v
    requires post == "" || post[0] == c
    ensures TakeUntil(v + post, c) == v
  {
    if post == "" {
      assert v + post == v;
      TakeUntilAll(v, c);
    } else {
      TakeUntilPrefix(v, post, c);
    }
  }

  /** The first index at or after `from` holding `c`. */
  function IndexOf(s: string, c: char, from: nat): (r: Option<nat>)
    ensures r.Some? ==> from <= r.value < |s| && s[r.value] == c
    ensures r.Some? ==> forall k :: from <= k < r.value ==> s[k] != c
    ensures r.None? ==> forall k :: from <= k < |s| ==> s[k] != c
    decreases |s| - from
  {
    if from >= |s| then None
    else if s[from] == c then Some(from)
    else IndexOf(s, c, from + 1)
  }

  /** ASCII `str.lower()`, enough for the fixed header names and URL schemes. */
  function LowerChar(c: char): char {
    if 'A' <= c <= 'Z' then (c as int + 32) as char else c
  }

  function Lower(s: string): (r: string)
    ensures |r| == |s|
    ensures forall k :: 0 <= k < |s| ==> r[k] == LowerChar(s[k])
  {
    seq(|s|, k requires 0 <= k < |s| => LowerChar(s[k]))
  }

  /**
    The leftmost position, from `from` on, at which the matcher `m` succeeds on
    the rest of `s`. A matcher looks only at the text from its position on.
  */
  function FirstMatchAt<T>(s: string, m: string -> Option<T>, from: nat): (r: Option<nat>)
    ensures r.Some? ==> from <= r.value <= |s| && m(s[r.value..]).Some?
    decreases |s| + 1 - from
  {
    if from > |s| then None
    else if m(s[from..]).Some? then Some(from)
    else FirstMatchAt(s, m, from + 1)
  }

  /** No position before the one FirstMatchAt finds matches, and none at all when it finds none. */
  lemma {:induction false} FirstMatchAtLeftmost<T>(s: string, m: string -> Option<T>, from: nat)
    ensures FirstMatchAt(s, m, from).Some? ==>
      forall j {:trigger m(s[j..])} :: from <= j < FirstMatchAt(s, m, from).value ==> m(s[j..]).None?
    ensures FirstMatchAt(s, m, from).None? ==>
      forall j {:trigger m(s[j..])} :: from <= j <= |s| ==> m(s[j..]).None?
    decreases |s| + 1 - from
  {
    if from <= |s| && m(s[from..]).None? {
      FirstMatchAtLeftmost(s, m, from + 1);
    }
  }

  /** `re.search`: the captures of the leftmost match, if any. */
  function Search<T>(s: string, m: string -> Option<T>): (r: Option<T>)
    ensures r.Some? <==> FirstMatchAt(s, m, 0).Some?
  {
    match FirstMatchAt(s, m, 0)
    case None => None
    case Some(i) => m(s[i..])
  }

  /** Search finds nothing exactly when the matcher fails at every position. */
  lemma SearchNone<T>(s: string, m: string -> Option<T>)
    ensures Search(s, m).None? <==> forall j {:trigger m(s[j..])} :: 0 <= j <= |s| ==> m(s[j..]).None?
  {
    FirstMatchAtLeftmost(s, m, 0);
  }

  /** Search returns the captures at the first position that matches. */
  lemma SearchAt<T>(s: string, m: string -> Option<T>, i: nat)
    requires i <= |s| && m(s[i..]).Some?
    requires forall j {:trigger m(s[j..])} :: 0 <= j < i ==> m(s[j..]).None?
    ensures Search(s, m) == m(s[i..])
  {
    FirstMatchAtLeftmost(s, m, 0);
  }
}
