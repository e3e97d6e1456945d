/** String helpers the reporter takes from Go's standard library and the
    Slack utilities: lower-casing, case-insensitive comparison, the HTML and
    Slack escapers, and joining. Case mapping covers ASCII letters only. */
module Text {

  /** The lower-case form of one character (ASCII letters only). */
  function LowerChar(c: char): char
  {
    if 'A' <= c <= 'Z' then (c as int + 32) as char else c
  }

  /** strings.ToLower, restricted to ASCII case mapping. */
  function Lower(s: string): (r: string)
    ensures |r| == |s|
    ensures forall i :: 0 <= i < |s| ==> r[i] == LowerChar(s[i])
    ensures forall i :: 0 <= i < |r| ==> !('A' <= r[i] <= 'Z')
  {
    seq(|s|, i requires 0 <= i < |s| => LowerChar(s[i]))
  }

  /** Lower-casing twice is lower-casing once, so a bucket key is its own key. */
  lemma LowerIdempotent(s: string)
    ensures Lower(Lower(s)) == Lower(s)
  {
  }

  /** strings.EqualFold, restricted to ASCII case folding. */
  predicate EqualFold(a: string, b: string)
  {
    Lower(a) == Lower(b)
  }

  /** Whether `login` matches one of `ids` under EqualFold; this is how the
      reporter decides that the author of a pull request is on the team. */
  predicate ContainsFold(ids: seq<string>, login: string)
  {
    exists i :: 0 <= i < |ids| && EqualFold(ids[i], login)
  }

  // ---------------------------------------------------------------------
  // html.EscapeString: & ' < > " become &amp; &#39; &lt; &gt; &#34;

  function HtmlEscapeChar(c: char): string
  {
    if c == '&' then "&amp;"
    else if c == '\'' then "&#39;"
    else if c == '<' then "&lt;"
    else if c == '>' then "&gt;"
    else if c == '"' then "&#34;"
    else [c]
  }

  /** html.EscapeString. */
  function HtmlEscape(s: string): (r: string)
    ensures |r| >= |s|
    ensures r == [] <==> s == []
  {
    if s == [] then [] else HtmlEscapeChar(s[0]) + HtmlEscape(s[1..])
  }

  /** The inverse of HtmlEscape: decodes the five entities it produces. */
  function HtmlUnescape(s: string): string
  {
    if s == [] then []
    else if |s| >= 5 && s[..5] == "&amp;" then "&" + HtmlUnescape(s[5..])
    else if |s| >= 5 && s[..5] == "&#39;" then "'" + HtmlUnescape(s[5..])
    else if |s| >= 4 && s[..4] == "&lt;" then "<" + HtmlUnescape(s[4..])
    else if |s| >= 4 && s[..4] == "&gt;" then ">" + HtmlUnescape(s[4..])
    else if |s| >= 5 && s[..5] == "&#34;" then "\"" + HtmlUnescape(s[5..])
    else [s[0]] + HtmlUnescape(s[1..])
  }

  /** Decoding an escaped character followed by anything decodes the
      character and then the rest. */
  lemma HtmlUnescapeStep(c: char, rest: string)
    ensures HtmlUnescape(HtmlEscapeChar(c) + rest) == [c] + HtmlUnescape(rest)
  {
    if c == '&' { HtmlUnescapeAmp(rest); }
    else if c == '\'' { HtmlUnescapeApos(rest); }
    else if c == '<' { HtmlUnescapeLt(rest); }
    else if c == '>' { HtmlUnescapeGt(rest); }
    else if c == '"' { HtmlUnescapeQuot(rest); }
    else { HtmlUnescapePlain(c, rest); }
  }

  lemma HtmlUnescapeAmp(rest: string)
    ensures HtmlUnescape("&amp;" + rest) == "&" + HtmlUnescape(rest)
  {
    var t := "&amp;" + rest;
    assert t[..5] == "&amp;" && t[5..] == rest;
  }

  lemma HtmlUnescapeApos(rest: string)
    ensures HtmlUnescape("&#39;" + rest) == "'" + HtmlUnescape(rest)
  {
    var t := "&#39;" + rest;
    assert t[..5] == "&#39;" && t[5..] == rest;
    assert t[1] == '#';
  }

  lemma HtmlUnescapeLt(rest: string)
    ensures HtmlUnescape("&lt;" + rest) == "<" + HtmlUnescape(rest)
  {
    var t := "&lt;" + rest;
    assert t[..4] == "&lt;" && t[4..] == rest;
    assert t[1] == 'l';
  }

  lemma HtmlUnescapeGt(rest: string)
    ensures HtmlUnescape("&gt;" + rest) == ">" + HtmlUnescape(rest)
  {
    var t := "&gt;" + rest;
    assert t[..4] == "&gt;" && t[4..] == rest;
    assert t[1] == 'g';
  }

  lemma HtmlUnescapeQuot(rest: string)
    ensures HtmlUnescape("&#34;" + rest) == "\"" + HtmlUnescape(rest)
  {
    var t := "&#34;" + rest;
    assert t[..5] == "&#34;" && t[5..] == rest;
    assert t[1] == '#' && t[3] == '4';
  }

  /** A character other than & starts no entity and decodes to itself. */
  lemma HtmlUnescapePlain(c: char, rest: string)
    requires c != '&'
    ensures HtmlUnescape([c] + rest) == [c] + HtmlUnescape(rest)
  {
    var t := [c] + rest;
    assert t[0] == c && t[1..] == rest;
  }

  /** Escaping loses nothing: the escaped text decodes back to the original. */
  lemma {:induction false} HtmlEscapeRoundTrip(s: string)
    ensures HtmlUnescape(HtmlEscape(s)) == s
  {
    if s != [] {
      assert HtmlEscape(s) == HtmlEscapeChar(s[0]) + HtmlEscape(s[1..]);
      HtmlUnescapeStep(s[0], HtmlEscape(s[1..]));
      HtmlEscapeRoundTrip(s[1..]);
      assert [s[0]] + s[1..] == s;
    }
  }

  // ---------------------------------------------------------------------
  // slackutilsx.EscapeMessage: & < > become &amp; &lt; &gt;

  function SlackEscapeChar(c: char): string
  {
    if c == '&' then "&amp;"
    else if c == '<' then "&lt;"
    else if c == '>' then "&gt;"
    else [c]
  }

  /** slackutilsx.EscapeMessage. */
  function SlackEscape(s: string): (r: string)
    ensures |r| >= |s|
    ensures r == [] <==> s == []
  {
    if s == [] then [] else SlackEscapeChar(s[0]) + SlackEscape(s[1..])
  }

  /** The inverse of SlackEscape. */
  function SlackUnescape(s: string): string
  {
    if s == [] then []
    else if |s| >= 5 && s[..5] == "&amp;" then "&" + SlackUnescape(s[5..])
    else if |s| >= 4 && s[..4] == "&lt;" then "<" + SlackUnescape(s[4..])
    else if |s| >= 4 && s[..4] == "&gt;" then ">" + SlackUnescape(s[4..])
    else [s[0]] + SlackUnescape(s[1..])
  }

  /** Decoding a Slack-escaped character followed by anything decodes the
      character and then the rest. */
  lemma SlackUnescapeStep(c: char, rest: string)
    ensures SlackUnescape(SlackEscapeChar(c) + rest) == [c] + SlackUnescape(rest)
  {
    if c == '&' { SlackUnescapeAmp(rest); }
    else if c == '<' { SlackUnescapeLt(rest); }
    else if c == '>' { SlackUnescapeGt(rest); }
    else { SlackUnescapePlain(c, rest); }
  }

  lemma SlackUnescapeAmp(rest: string)
    ensures SlackUnescape("&amp;" + rest) == "&" + SlackUnescape(rest)
  {
    var t := "&amp;" + rest;
    assert t[..5] == "&amp;" && t[5..] == rest;
  }

  lemma SlackUnescapeLt(rest: string)
    ensures SlackUnescape("&lt;" + rest) == "<" + SlackUnescape(rest)
  {
    var t := "&lt;" + rest;
    assert t[..4] == "&lt;" && t[4..] == rest;
    assert t[1] == 'l';
  }

  lemma SlackUnescapeGt(rest: string)
    ensures SlackUnescape("&gt;" + rest) == ">" + SlackUnescape(rest)
  {
    var t := "&gt;" + rest;
    assert t[..4] == "&gt;" && t[4..] == rest;
    assert t[1] == 'g';
  }

  /** A character other than & starts no entity and decodes to itself. */
  lemma SlackUnescapePlain(c: char, rest: string)
    requires c != '&'
    ensures SlackUnescape([c] + rest) == [c] + SlackUnescape(rest)
  {
    var t := [c] + rest;
    assert t[0] == c && t[1..] == rest;
  }

  /** Slack escaping loses nothing. */
  lemma {:induction false} SlackEscapeRoundTrip(s: string)
    ensures SlackUnescape(SlackEscape(s)) == s
  {
    if s != [] {
      assert SlackEscape(s) == SlackEscapeChar(s[0]) + SlackEscape(s[1..]);
      SlackUnescapeStep(s[0], SlackEscape(s[1..]));
      SlackEscapeRoundTrip(s[1..]);
      assert [s[0]] + s[1..] == s;
    }
  }

  /** Escaping introduces no line breaks and removes none. */
  lemma {:induction false} SlackEscapeKeepsNewlines(s: string)
    ensures '\n' in SlackEscape(s) <==> '\n' in s
  {
    if s != [] {
      SlackEscapeKeepsNewlines(s[1..]);
      assert SlackEscape(s) == SlackEscapeChar(s[0]) + SlackEscape(s[1..]);
      assert s == [s[0]] + s[1..];
    }
  }

  /** strings.Join. */
  function Join(parts: seq<string>, sep: string): string
  {
    if |parts| == 0 then ""
    else if |parts| == 1 then parts[0]
    else parts[0] + sep + Join(parts[1..], sep)
  }
}
