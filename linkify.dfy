/** The `linkify` pipe: every URL in a chat message becomes an anchor. The
    pipe runs the global regular expression `/((https?:\/\/|www\.)[^\s]+)/g`
    through `String.prototype.replace`. Here that scan is a tokenizer, the
    replacement is a renderer, and the two are tied by a round trip. */
module Linkify {
  import opened Text

  const HttpPrefix := "http://"
  const HttpsPrefix := "https://"
  const WwwPrefix := "www."

  /** `s` starts with `p` and at least one non-whitespace character follows. */
  predicate PrefixThenText(s: string, p: string)
  {
    |s| > |p| && s[..|p|] == p && !IsWhitespace(s[|p|])
  }

  /** The regular expression matches at the very start of `s`: one of its
      three alternatives (in either order, the outcome is the same) and then
      at least one character of `[^\s]`. */
  predicate MatchesHere(s: string)
  {
    PrefixThenText(s, HttpPrefix) || PrefixThenText(s, HttpsPrefix) || PrefixThenText(s, WwwPrefix)
  }

  predicate NoWhitespace(s: string)
  {
    forall i :: 0 <= i < |s| ==> !IsWhitespace(s[i])
  }

  /** Length of the longest whitespace-free prefix of `s`; the greedy `[^\s]+`
      stops exactly there. */
  function RunLength(s: string): (n: nat)
    ensures n <= |s| && NoWhitespace(s[..n])
    ensures n == |s| || IsWhitespace(s[n])
  {
    if s == [] || IsWhitespace(s[0]) then 0 else 1 + RunLength(s[1..])
  }

  /** None of the three prefixes holds whitespace. */
  lemma PrefixesHaveNoWhitespace()
    ensures NoWhitespace(HttpPrefix) && NoWhitespace(HttpsPrefix) && NoWhitespace(WwwPrefix)
  {
    assert HttpsPrefix == ['h', 't', 't', 'p', 's', ':', '/', '/'];
    assert WwwPrefix == ['w', 'w', 'w', '.'];
  }

  /** Where the expression matches, the match (prefix and the maximal run that
      follows) is itself a match, free of whitespace, and longer than the
      prefix alone. */
  lemma {:induction false} MatchIsRun(s: string)
    requires MatchesHere(s)
    ensures 0 < RunLength(s) && MatchesHere(s[..RunLength(s)])
  {
    PrefixesHaveNoWhitespace();
    var n := RunLength(s);
    var p := if PrefixThenText(s, HttpPrefix) then HttpPrefix
             else if PrefixThenText(s, HttpsPrefix) then HttpsPrefix else WwwPrefix;
    assert PrefixThenText(s, p);
    if n <= |p| {
      assert false;
    }
    assert s[..n][..|p|] == p;
    assert PrefixThenText(s[..n], p);
  }

  /** One piece of a scanned message: a character the expression skipped, or
      a whole match. */
  datatype Token = Char(c: char) | Link(url: string)

  /** The text a token was scanned from. */
  function Source(t: Token): string
  {
    match t
    case Char(c) => [c]
    case Link(url) => url
  }

  /** The message with every link put back as its own text: the inverse of
      scanning. */
  function Strip(ts: seq<Token>): string
  {
    if ts == [] then [] else Source(ts[0]) + Strip(ts[1..])
  }

  /** What a global `replace` with this expression does, told token by token:
      a position where no match starts is copied and the scan moves one
      character on (leftmost); a match is the prefix and the longest run of
      non-whitespace after it, so the text after it is empty or begins with
      whitespace (greedy), and the scan resumes behind it (non-overlapping). */
  ghost predicate ValidScan(ts: seq<Token>)
  {
    ts == [] ||
    match ts[0]
    case Char(_) => !MatchesHere(Strip(ts)) && ValidScan(ts[1..])
    case Link(url) =>
      && MatchesHere(url) && NoWhitespace(url)
      && (Strip(ts[1..]) == [] || IsWhitespace(Strip(ts[1..])[0]))
      && ValidScan(ts[1..])
  }

  /** Putting a skipped character in front of a scan. */
  lemma PrependChar(c: char, rest: seq<Token>)
    requires !MatchesHere([c] + Strip(rest)) && ValidScan(rest)
    ensures Strip([Char(c)] + rest) == [c] + Strip(rest)
    ensures ValidScan([Char(c)] + rest)
  {
    assert ([Char(c)] + rest)[1..] == rest;
  }

  /** Putting a maximal match in front of a scan. */
  lemma PrependLink(url: string, rest: seq<Token>)
    requires MatchesHere(url) && NoWhitespace(url)
    requires Strip(rest) == [] || IsWhitespace(Strip(rest)[0])
    requires ValidScan(rest)
    ensures Strip([Link(url)] + rest) == url + Strip(rest)
    ensures ValidScan([Link(url)] + rest)
  {
    assert ([Link(url)] + rest)[1..] == rest;
  }

  /** The scan of `s`: it gives `s` back when stripped, and it scans the way
      the regular expression does. */
  function Tokens(s: string): (ts: seq<Token>)
    ensures Strip(ts) == s
    ensures ValidScan(ts)
    decreases |s|
  {
    if s == [] then []
    else if MatchesHere(s) then
      var n := RunLength(s);
      MatchIsRun(s);
      var rest := Tokens(s[n..]);
      PrependLink(s[..n], rest);
      assert s == s[..n] + s[n..];
      [Link(s[..n])] + rest
    else
      var rest := Tokens(s[1..]);
      assert s == [s[0]] + s[1..];
      PrependChar(s[0], rest);
      [Char(s[0])] + rest
  }

  lemma TokensAtChar(s: string)
    requires s != [] && !MatchesHere(s)
    ensures Tokens(s) == [Char(s[0])] + Tokens(s[1..])
  {
  }

  lemma TokensAtLink(s: string)
    requires MatchesHere(s)
    ensures Tokens(s) == [Link(s[..RunLength(s)])] + Tokens(s[RunLength(s)..])
  {
  }

  /** A scan is determined by its text: whatever scans `s` as the expression
      does is `Tokens(s)`. */
  lemma {:induction false} ScanIsUnique(ts: seq<Token>)
    requires ValidScan(ts)
    ensures Tokens(Strip(ts)) == ts
  {
    if ts != [] {
      var s := Strip(ts);
      var rest := ts[1..];
      assert ValidScan(rest);
      ScanIsUnique(rest);
      assert s == Source(ts[0]) + Strip(rest);
      match ts[0]
      case Char(c) =>
        assert !MatchesHere(s);
        assert s[1..] == Strip(rest);
        TokensAtChar(s);
      case Link(url) =>
        LinkIsRun(url, Strip(rest));
        assert s[..|url|] == url;
        assert s[|url|..] == Strip(rest);
        TokensAtLink(s);
    }
  }

  /** A match followed by nothing or by whitespace is exactly the match the
      greedy run finds at the start of the combined text. */
  lemma {:induction false} LinkIsRun(url: string, rest: string)
    requires MatchesHere(url) && NoWhitespace(url)
    requires rest == [] || IsWhitespace(rest[0])
    ensures MatchesHere(url + rest)
    ensures RunLength(url + rest) == |url|
  {
    var s := url + rest;
    assert s[..|url|] == url;
    var p := if PrefixThenText(url, HttpPrefix) then HttpPrefix
             else if PrefixThenText(url, HttpsPrefix) then HttpsPrefix else WwwPrefix;
    assert s[..|p|] == url[..|p|];
    assert PrefixThenText(s, p);
    RunLengthOf(s, |url|);
  }

  /** The run length is the position of the first whitespace. */
  lemma {:induction false} RunLengthOf(s: string, n: nat)
    requires n <= |s| && NoWhitespace(s[..n])
    requires n == |s| || IsWhitespace(s[n])
    ensures RunLength(s) == n
  {
    if n > 0 {
      assert s[0] == s[..n][0];
      assert s[1..][..n - 1] == s[..n][1..];
      RunLengthOf(s[1..], n - 1);
    }
  }

  /** The `href` of an anchor: a match that already starts with `http` is used
      as it is, any other (the `www.` ones) gets `https://` in front. */
  function Href(url: string): (href: string)
    ensures StartsWith(href, "http")
    ensures |href| >= |url| && href[|href| - |url|..] == url
    ensures StartsWith(url, "http") <==> href == url
  {
    if StartsWith(url, "http") then url else "https://" + url
  }

  /** The attributes that follow the `href` of every anchor: the link opens
      in a new browser tab, without access to the page that opened it. */
  const NewTabAttributes := " target=\"_blank\" rel=\"noopener noreferrer\""

  /** The anchor written for a match: its `href` is `Href(url)`, its opening
      tag carries `NewTabAttributes`, and its visible text is exactly `url`,
      starting right after the opening tag's `>`. */
  function Anchor(url: string): (html: string)
    ensures StartsWith(html, "<a href=\"" + Href(url) + "\"" + NewTabAttributes + ">")
    ensures |html| >= |url| + 5 && html[|html| - |url| - 5..] == ">" + url + "</a>"
    ensures |html| == |"<a href=\"" + Href(url) + "\"" + NewTabAttributes + ">"| + |url| + |"</a>"|
  {
    var open := "<a href=\"" + Href(url) + "\"" + NewTabAttributes + ">";
    var html := open + url + "</a>";
    assert html[..|open|] == open;
    assert html[|html| - |url| - 5..] == open[|open| - 1..] + url + "</a>";
    html
  }

  /** A token as it appears in the output: characters are copied, with no
      escaping, and links become anchors. */
  function Html(t: Token): string
  {
    match t
    case Char(c) => [c]
    case Link(url) => Anchor(url)
  }

  function Render(ts: seq<Token>): string
  {
    if ts == [] then [] else Html(ts[0]) + Render(ts[1..])
  }

  /** `LinkifyPipe.transform` (before the sanitizer bypass, which only wraps
      the string): the empty string gives the empty string, anything else the
      rendered scan. */
  function Transform(text: string): (html: string)
    ensures text == [] ==> html == []
  {
    if text == [] then [] else Render(Tokens(text))
  }

  /** Where the expression matches nowhere, the text comes back unchanged,
      characters such as `<` included. */
  lemma {:induction false} NoMatchUnchanged(s: string)
    requires forall i :: 0 <= i <= |s| ==> !MatchesHere(s[i..])
    ensures Transform(s) == s
  {
    if s != [] {
      NoMatchTokens(s);
    }
  }

  lemma {:induction false} NoMatchTokens(s: string)
    requires forall i :: 0 <= i <= |s| ==> !MatchesHere(s[i..])
    ensures Render(Tokens(s)) == s
  {
    if s != [] {
      assert s[0..] == s;
      forall i | 0 <= i <= |s| - 1 ensures !MatchesHere(s[1..][i..]) {
        assert s[1..][i..] == s[i + 1..];
      }
      NoMatchTokens(s[1..]);
      var ts := Tokens(s);
      assert ts == [Char(s[0])] + Tokens(s[1..]);
      assert ts[1..] == Tokens(s[1..]);
    }
  }

  /** Every link of a scan renders as an anchor whose `href` starts with
      `http` and whose text is the link itself. */
  lemma {:induction false} LinksBecomeAnchors(ts: seq<Token>, k: nat)
    requires ValidScan(ts) && k < |ts| && ts[k].Link?
    ensures StartsWith(ts[k].url, HttpPrefix) || StartsWith(ts[k].url, HttpsPrefix) || StartsWith(ts[k].url, WwwPrefix)
    ensures StartsWith(Href(ts[k].url), "http")
    ensures StartsWith(ts[k].url, WwwPrefix) ==> Href(ts[k].url) == "https://" + ts[k].url
  {
    if k > 0 {
      LinksBecomeAnchors(ts[1..], k - 1);
    } else {
      var url := ts[0].url;
      if StartsWith(url, WwwPrefix) {
        assert url[0] == 'w';
        assert !StartsWith(url, "http");
      }
    }
  }
}
