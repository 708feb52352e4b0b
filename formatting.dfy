/** Formatting of assigned issues for the terminal: an issue's title is shown
    as a terminal hyperlink to its URL (the OSC 8 escape sequence), next to its
    team and workflow-state names.  The sequence is an Operating System Command
    (section 8.3.89 of ECMA-48) closed by the 7-bit String Terminator ESC \
    (section 8.3.143 of ECMA-48). */
module Formatting {

  import opened Wrappers

  const Esc: char := '\U{1B}'

  /** OSC (ESC ]) with the hyperlink command `8` and an empty parameter list. */
  const HyperlinkIntroducer: string := [Esc, ']', '8', ';', ';']

  /** ST, the 7-bit String Terminator. */
  const StringTerminator: string := [Esc, '\\']

  /** A hyperlink with an empty target, which ends the link. */
  const HyperlinkCloser: string := HyperlinkIntroducer + StringTerminator

  // ---------------------------------------------------------------------------
  // Building a hyperlink

  /** The text shown as `text` and linked to `url`; both are inserted verbatim,
      with no escaping. */
  function FormatAsHyperlink(url: string, text: string): (r: string)
    ensures |r| == |url| + |text| + 14
    ensures r[..5] == HyperlinkIntroducer
    ensures r[5..5 + |url|] == url
    ensures r[5 + |url|..7 + |url|] == StringTerminator
    ensures r[7 + |url|..|r| - 7] == text
    ensures r[|r| - 7..] == HyperlinkCloser
  {
    HyperlinkIntroducer + url + StringTerminator + text + HyperlinkCloser
  }

  // ---------------------------------------------------------------------------
  // Reading a hyperlink back: the partner of FormatAsHyperlink

  datatype Hyperlink = Hyperlink(url: string, text: string)

  /** A String Terminator starts at position `j` of `s`. */
  predicate TerminatorAt(s: string, j: int)
  {
    0 <= j && j + 1 < |s| && s[j] == Esc && s[j + 1] == '\\'
  }

  /** No String Terminator occurs anywhere in `s` (true of every `s` without ESC). */
  predicate NoTerminator(s: string)
  {
    forall j :: 0 <= j < |s| ==> !TerminatorAt(s, j)
  }

  /** The first position at or after `from` where a String Terminator starts. */
  function FindTerminator(s: string, from: nat): (r: Option<nat>)
    ensures r.Some? ==> from <= r.value && TerminatorAt(s, r.value)
    ensures r.Some? ==> forall j :: from <= j < r.value ==> !TerminatorAt(s, j)
    ensures r.None? ==> forall j :: from <= j ==> !TerminatorAt(s, j)
    decreases |s| - from
  {
    if from + 2 > |s| then None
    else if TerminatorAt(s, from) then Some(from)
    else FindTerminator(s, from + 1)
  }

  /** Split a hyperlink escape into target and visible text: the target runs
      from the introducer to the first String Terminator, the text from there
      to the closer. */
  function ParseHyperlink(s: string): (r: Option<Hyperlink>)
    ensures r.Some? ==> NoTerminator(r.value.url)
    ensures r.Some? ==> FormatAsHyperlink(r.value.url, r.value.text) == s
  {
    if |s| >= 14 && s[..5] == HyperlinkIntroducer && s[|s| - 7..] == HyperlinkCloser then
      match FindTerminator(s, 5)
      case Some(j) =>
        if j + 2 <= |s| - 7 then
          SplitAtFirstTerminator(s, j);
          Some(Hyperlink(s[5..j], s[j + 2..|s| - 7]))
        else None
      case None => None
    else None
  }

  /** Cutting a well-framed escape at its first String Terminator gives a
      target free of terminators that formats back to the escape. */
  lemma SplitAtFirstTerminator(s: string, j: int)
    requires |s| >= 14 && s[..5] == HyperlinkIntroducer && s[|s| - 7..] == HyperlinkCloser
    requires 5 <= j && j + 2 <= |s| - 7 && TerminatorAt(s, j)
    requires forall i :: 5 <= i < j ==> !TerminatorAt(s, i)
    ensures NoTerminator(s[5..j])
    ensures FormatAsHyperlink(s[5..j], s[j + 2..|s| - 7]) == s
  {
    var url, text := s[5..j], s[j + 2..|s| - 7];
    forall k | 0 <= k < |url|
      ensures !TerminatorAt(url, k)
    {
      assert url[k] == s[k + 5] && !TerminatorAt(s, k + 5);
      if k + 1 < |url| {
        assert url[k + 1] == s[k + 6];
      }
    }
    assert s[j..j + 2] == StringTerminator;
    assert s == s[..5] + url + s[j..j + 2] + text + s[|s| - 7..];
  }

  /** Round trip: when the URL holds no String Terminator, the target and the
      text are recovered exactly. */
  lemma HyperlinkRoundTrip(url: string, text: string)
    requires NoTerminator(url)
    ensures ParseHyperlink(FormatAsHyperlink(url, text)) == Some(Hyperlink(url, text))
  {
    var s := FormatAsHyperlink(url, text);
    var k := 5 + |url|;
    assert TerminatorAt(s, k);
    forall j | 5 <= j < k
      ensures !TerminatorAt(s, j)
    {
      assert s[j] == url[j - 5];
      if j + 1 < k {
        assert s[j + 1] == url[j - 4];
        assert !TerminatorAt(url, j - 5);
      } else {
        assert s[j + 1] == Esc;
      }
    }
    assert FindTerminator(s, 5) == Some(k);
  }

  /** A URL with no ESC in it holds no String Terminator either. */
  lemma NoEscNoTerminator(url: string)
    requires Esc !in url
    ensures NoTerminator(url)
  {
  }

  /** Because nothing is escaped, a String Terminator inside the URL is
      indistinguishable from the one that ends it: the part of the URL after it
      reads back as the start of the text. */
  lemma UnescapedTerminatorIsAmbiguous(u: string, v: string, t: string)
    ensures FormatAsHyperlink(u + StringTerminator + v, t) == FormatAsHyperlink(u, v + StringTerminator + t)
    ensures NoTerminator(u) ==>
              ParseHyperlink(FormatAsHyperlink(u + StringTerminator + v, t)) == Some(Hyperlink(u, v + StringTerminator + t))
  {
    calc {
      FormatAsHyperlink(u + StringTerminator + v, t);
      HyperlinkIntroducer + (u + StringTerminator + v) + StringTerminator + t + HyperlinkCloser;
      { assert HyperlinkIntroducer + (u + StringTerminator + v) + StringTerminator + t
            == HyperlinkIntroducer + u + StringTerminator + (v + StringTerminator + t); }
      HyperlinkIntroducer + u + StringTerminator + (v + StringTerminator + t) + HyperlinkCloser;
      FormatAsHyperlink(u, v + StringTerminator + t);
    }
    if NoTerminator(u) {
      HyperlinkRoundTrip(u, v + StringTerminator + t);
    }
  }

  // ---------------------------------------------------------------------------
  // Issue rows

  /** The fields of an issue that the table reads. */
  datatype Issue = Issue(title: string, url: string, teamName: string, stateName: string)

  /** One table row: the linked title, the team and the workflow state. */
  datatype IssueDisplay = IssueDisplay(link: string, teamName: string, stateName: string)

  function IssueDisplayFrom(issue: Issue): (d: IssueDisplay)
    ensures d.teamName == issue.teamName && d.stateName == issue.stateName
    ensures d.link == FormatAsHyperlink(issue.url, issue.title)
  {
    IssueDisplay(FormatAsHyperlink(issue.url, issue.title), issue.teamName, issue.stateName)
  }

  /** The link of a row targets the issue's URL and shows its title. */
  lemma IssueLinkTargetsUrl(issue: Issue)
    requires NoTerminator(issue.url)
    ensures ParseHyperlink(IssueDisplayFrom(issue).link) == Some(Hyperlink(issue.url, issue.title))
  {
    HyperlinkRoundTrip(issue.url, issue.title);
  }

  /** The rows `print_issues` hands to the table: one per issue, in order. */
  function IssueRows(issues: seq<Issue>): (rows: seq<IssueDisplay>)
    ensures |rows| == |issues|
    ensures forall i :: 0 <= i < |issues| ==> rows[i] == IssueDisplayFrom(issues[i])
  {
    if issues == [] then []
    else [IssueDisplayFrom(issues[0])] + IssueRows(issues[1..])
  }

  /** Rows of a concatenation are the concatenation of the rows. */
  lemma IssueRowsAppend(a: seq<Issue>, b: seq<Issue>)
    ensures IssueRows(a + b) == IssueRows(a) + IssueRows(b)
  {
  }
}
