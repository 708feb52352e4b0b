/** The `create` subcommand of the CLI: resolving the team name typed by the
    user against the fetched team list, and choosing what to do with the
    outcome.  The source writes the resolution as an iterator pipeline
    (`filter` on exact name equality, then `try_fold` with an optional
    accumulator); this module keeps that shape as two recursive functions and
    proves that it agrees with a count-of-matches specification. */
module CreateCommand {

  import opened Wrappers

  /** A team as listed by the issue tracker: an opaque id and a display name. */
  datatype Team = Team(id: string, name: string)

  /** The `Result<Option<&Team>, String>` that `try_fold` produces. */
  datatype FoldResult = Ok(acc: Option<Team>) | Err(message: string)

  /** The three outcomes of resolution, lifted out of `FoldResult`:
      `Ok(None)` is NotFound, `Ok(Some(t))` is Found(t), `Err(m)` is Ambiguous(m). */
  datatype Resolution = NotFound | Found(team: Team) | Ambiguous(message: string)

  const MultipleTeamsMessage: string := "Multiple teams with the same name found"
  const NoTeamMessage: string := "No team with the given name found."
  const CreatingIssueMessage: string := "Creating issue..."
  /** Printed after the URL is put on the clipboard (the spelling is the program's). */
  const CopiedUrlMessage: string := "Coped URL to clipboard."

  /** The 64-bit signed story-point value taken from the command line. */
  newtype I64 = x: int | -0x8000_0000_0000_0000 <= x < 0x8000_0000_0000_0000

  // ---------------------------------------------------------------------------
  // Specification: how many teams carry exactly the queried name

  function CountMatches(teams: seq<Team>, name: string): nat
  {
    if teams == [] then 0
    else (if teams[0].name == name then 1 else 0) + CountMatches(teams[1..], name)
  }

  // ---------------------------------------------------------------------------
  // The pipeline as written

  /** The `filter` step: the teams whose name is exactly `name`, in list order. */
  function Matching(teams: seq<Team>, name: string): (r: seq<Team>)
    ensures |r| == CountMatches(teams, name)
    ensures forall t :: t in r ==> t in teams && t.name == name
    ensures forall t :: t in teams && t.name == name ==> t in r
  {
    if teams == [] then []
    else if teams[0].name == name then [teams[0]] + Matching(teams[1..], name)
    else Matching(teams[1..], name)
  }

  /** The closure given to `try_fold`: the first match fills the accumulator,
      a second one aborts with the error message. */
  function Step(acc: Option<Team>, team: Team): (r: FoldResult)
    ensures r.Ok? <==> acc.None?
    ensures r.Ok? ==> r.acc == Some(team)
    ensures r.Err? ==> r.message == MultipleTeamsMessage
  {
    match acc
    case None => Ok(Some(team))
    case Some(_) => Err(MultipleTeamsMessage)
  }

  /** `try_fold`: apply `Step` left to right, stopping at the first `Err`. */
  function TryFold(matches: seq<Team>, acc: Option<Team>): (r: FoldResult)
    ensures acc.None? && |matches| == 0 ==> r == Ok(None)
    ensures acc.None? && |matches| == 1 ==> r == Ok(Some(matches[0]))
    ensures acc.None? && |matches| >= 2 ==> r == Err(MultipleTeamsMessage)
    ensures acc.Some? && |matches| == 0 ==> r == Ok(acc)
    ensures acc.Some? && |matches| >= 1 ==> r == Err(MultipleTeamsMessage)
  {
    if matches == [] then Ok(acc)
    else
      match Step(acc, matches[0])
      case Err(e) => Err(e)
      case Ok(next) => TryFold(matches[1..], next)
  }

  /** Team-name resolution: filter, then fold, then read the fold's result as
      one of the three outcomes. */
  function Resolve(teams: seq<Team>, name: string): (r: Resolution)
    ensures r.NotFound? <==> CountMatches(teams, name) == 0
    ensures r.Found? <==> CountMatches(teams, name) == 1
    ensures r.Ambiguous? <==> CountMatches(teams, name) >= 2
    ensures r.Ambiguous? ==> r.message == MultipleTeamsMessage
    ensures r.Found? ==> r.team in teams && r.team.name == name
  {
    match TryFold(Matching(teams, name), None)
    case Ok(None) => NotFound
    case Ok(Some(t)) => Found(t)
    case Err(m) => Ambiguous(m)
  }

  // ---------------------------------------------------------------------------
  // The count in terms of list positions

  lemma {:induction false} CountZeroIffNoMatch(teams: seq<Team>, name: string)
    ensures CountMatches(teams, name) == 0 <==> forall i :: 0 <= i < |teams| ==> teams[i].name != name
  {
    if teams != [] {
      CountZeroIffNoMatch(teams[1..], name);
      assert forall i :: 1 <= i < |teams| ==> teams[i] == teams[1..][i - 1];
    }
  }

  /** Exactly one position holds a team named `name`, and it is position `k`. */
  ghost predicate OnlyMatchAt(teams: seq<Team>, name: string, k: int)
  {
    0 <= k < |teams| && teams[k].name == name &&
    forall j :: 0 <= j < |teams| && teams[j].name == name ==> j == k
  }

  lemma {:induction false} CountOneIffUniqueMatch(teams: seq<Team>, name: string)
    ensures CountMatches(teams, name) == 1 <==> exists k :: OnlyMatchAt(teams, name, k)
  {
    if teams != [] {
      var tail := teams[1..];
      CountOneIffUniqueMatch(tail, name);
      CountZeroIffNoMatch(tail, name);
      assert forall i :: 1 <= i < |teams| ==> teams[i] == tail[i - 1];
      if CountMatches(teams, name) == 1 {
        if teams[0].name == name {
          assert OnlyMatchAt(teams, name, 0);
        } else {
          var k :| OnlyMatchAt(tail, name, k);
          assert OnlyMatchAt(teams, name, k + 1);
        }
      }
      if k :| OnlyMatchAt(teams, name, k) {
        if k == 0 {
          assert CountMatches(tail, name) == 0;
        } else {
          assert teams[0].name != name;
          assert OnlyMatchAt(tail, name, k - 1);
        }
      }
    }
  }

  // ---------------------------------------------------------------------------
  // Properties of resolution

  /** Nothing is found exactly when no team's name equals the query. */
  lemma ResolveNotFoundIff(teams: seq<Team>, name: string)
    ensures Resolve(teams, name) == NotFound <==> forall i :: 0 <= i < |teams| ==> teams[i].name != name
  {
    CountZeroIffNoMatch(teams, name);
  }

  /** A team is returned exactly when one list position matches, and the team
      returned is the element at that position, id and name unchanged. */
  lemma ResolveFoundIff(teams: seq<Team>, name: string)
    ensures Resolve(teams, name).Found? <==> exists k :: OnlyMatchAt(teams, name, k)
    ensures forall k :: OnlyMatchAt(teams, name, k) ==> Resolve(teams, name) == Found(teams[k])
  {
    CountOneIffUniqueMatch(teams, name);
    forall k | OnlyMatchAt(teams, name, k)
      ensures Resolve(teams, name) == Found(teams[k])
    {
      var t := Resolve(teams, name).team;
      var j :| 0 <= j < |teams| && teams[j] == t;
    }
  }

  /** Two positions with the query name always abort, whatever else is listed;
      in particular the first match is never chosen. */
  lemma {:induction false} ResolveTwoMatchesAmbiguous(teams: seq<Team>, name: string, i: int, j: int)
    requires 0 <= i < j < |teams| && teams[i].name == name && teams[j].name == name
    ensures Resolve(teams, name) == Ambiguous(MultipleTeamsMessage)
  {
    CountZeroIffNoMatch(teams, name);
    CountOneIffUniqueMatch(teams, name);
  }

  lemma {:induction false} MatchingAppend(a: seq<Team>, b: seq<Team>, name: string)
    ensures Matching(a + b, name) == Matching(a, name) + Matching(b, name)
  {
    if a != [] {
      assert (a + b)[0] == a[0] && (a + b)[1..] == a[1..] + b;
      MatchingAppend(a[1..], b, name);
      if a[0].name == name {
        assert [a[0]] + (Matching(a[1..], name) + Matching(b, name))
            == ([a[0]] + Matching(a[1..], name)) + Matching(b, name);
      }
    } else {
      assert a + b == b;
    }
  }

  /** Adding or removing any teams whose names differ from the query, anywhere
      in the list, leaves the outcome unchanged. */
  lemma ResolveIgnoresNonMatching(a: seq<Team>, others: seq<Team>, b: seq<Team>, name: string)
    requires forall t :: t in others ==> t.name != name
    ensures Resolve(a + others + b, name) == Resolve(a + b, name)
  {
    MatchingAppend(a + others, b, name);
    MatchingAppend(a, others, name);
    MatchingAppend(a, b, name);
    CountZeroIffNoMatch(others, name);
  }

  lemma {:induction false} MatchingMultiplicity(teams: seq<Team>, name: string, t: Team)
    ensures multiset(Matching(teams, name))[t] == if t.name == name then multiset(teams)[t] else 0
  {
    if teams != [] {
      assert teams == [teams[0]] + teams[1..];
      MatchingMultiplicity(teams[1..], name, t);
    }
  }

  /** The outcome does not depend on the order of the team list. */
  lemma ResolveOrderIndependent(a: seq<Team>, b: seq<Team>, name: string)
    requires multiset(a) == multiset(b)
    ensures Resolve(a, name) == Resolve(b, name)
  {
    var ma, mb := Matching(a, name), Matching(b, name);
    forall t ensures multiset(ma)[t] == multiset(mb)[t] {
      MatchingMultiplicity(a, name, t);
      MatchingMultiplicity(b, name, t);
    }
    assert multiset(ma) == multiset(mb);
    assert |ma| == |multiset(ma)| == |multiset(mb)| == |mb|;
    if |ma| == 1 {
      assert ma == [ma[0]] && mb == [mb[0]];
      assert ma[0] in multiset(mb);
    }
  }

  // ---------------------------------------------------------------------------
  // Acting on the outcome

  /** What the `create` subcommand does once the team is resolved: create the
      issue (copying its URL when asked), or print a message. */
  datatype Action =
    | CreateIssue(title: string, points: I64, team: Team, copyUrl: bool)
    | Report(message: string)

  /** The lines the subcommand prints, in order: around the creation of an
      issue, "Creating issue..." before it and, when the URL is copied, the
      clipboard notice after it; otherwise the one message. */
  function Printed(a: Action): seq<string>
  {
    match a
    case CreateIssue(_, _, _, copyUrl) =>
      [CreatingIssueMessage] + (if copyUrl then [CopiedUrlMessage] else [])
    case Report(message) => [message]
  }

  function Dispatch(r: Resolution, title: string, points: I64, copy: bool): (a: Action)
    ensures a.CreateIssue? <==> r.Found?
    ensures a.CreateIssue? ==> a.team == r.team && a.title == title && a.points == points && a.copyUrl == copy
    ensures r.Found? ==> Printed(a) == if copy then [CreatingIssueMessage, CopiedUrlMessage] else [CreatingIssueMessage]
    ensures r.NotFound? ==> a == Report(NoTeamMessage) && Printed(a) == [NoTeamMessage]
    ensures r.Ambiguous? ==> a == Report(r.message) && Printed(a) == [r.message]
  {
    match r
    case Found(team) => CreateIssue(title, points, team, copy)
    case NotFound => Report(NoTeamMessage)
    case Ambiguous(message) => Report(message)
  }

  /** The whole `create` subcommand over an already fetched team list. */
  function Create(teams: seq<Team>, title: string, points: I64, teamName: string, copy: bool): (a: Action)
    ensures a.CreateIssue? <==> CountMatches(teams, teamName) == 1
    ensures a.CreateIssue? ==>
              a.team in teams && a.team.name == teamName &&
              a.title == title && a.points == points && a.copyUrl == copy
    ensures a.Report? ==>
              a.message == if CountMatches(teams, teamName) == 0 then NoTeamMessage else MultipleTeamsMessage
  {
    Dispatch(Resolve(teams, teamName), title, points, copy)
  }

  /** An issue is created only when exactly one team carries the name; it is
      filed under that listed team, with the title and points passed through
      unchanged; otherwise the matching message is printed. */
  lemma CreateOnlyForUniqueMatch(teams: seq<Team>, title: string, points: I64, teamName: string, copy: bool)
    ensures Create(teams, title, points, teamName, copy).CreateIssue? <==> exists k :: OnlyMatchAt(teams, teamName, k)
    ensures forall k :: OnlyMatchAt(teams, teamName, k) ==>
              Create(teams, title, points, teamName, copy) == CreateIssue(title, points, teams[k], copy)
    ensures (forall i :: 0 <= i < |teams| ==> teams[i].name != teamName) ==>
              Create(teams, title, points, teamName, copy) == Report(NoTeamMessage)
    ensures CountMatches(teams, teamName) >= 2 ==>
              Create(teams, title, points, teamName, copy) == Report(MultipleTeamsMessage)
  {
    ResolveFoundIff(teams, teamName);
    ResolveNotFoundIff(teams, teamName);
  }
}
