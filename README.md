# linear-cli: team resolution and issue formatting

A model of the two pieces of pure logic in a command-line client for the
Linear issue tracker.

- **Team-name resolution** (`create` subcommand, module `CreateCommand`).
  The user types a team name. The fetched team list is narrowed to the teams
  whose name is exactly that string. The narrowed list is then folded with
  `try_fold`. The first match fills an empty accumulator. A second match aborts
  with the error "Multiple teams with the same name found". The three outcomes
  are `NotFound`, `Found(team)` and `Ambiguous(message)`. `Dispatch` models
  the `match` on the outcome. Only `Found` creates an issue. The other two print
  a message.
- **Terminal formatting** (module `Formatting`). `FormatAsHyperlink` builds the
  OSC 8 hyperlink escape. An Operating System Command (section 8.3.89 of
  ECMA-48) carries the target, a 7-bit String Terminator `ESC \` (section
  8.3.143 of ECMA-48) ends it, then the visible text follows, then an empty
  link closes it. `IssueDisplayFrom` turns an issue into a table row.
  `IssueRows` is the mapping step of `print_issues`. `ParseHyperlink` is an
  independent reader of the escape. The round-trip lemmas tie it to the
  builder.

Files: `wrappers.dfy` (an `Option` type), `create_command.dfy`,
`formatting.dfy`.

Facts about the program that the model keeps:

- Resolution carries no team name or match count. No match is `Ok(None)`,
  followed by the printed line "No team with the given name found."
  (src/main.rs:69). Two or more matches give the fixed string
  "Multiple teams with the same name found" (src/main.rs:56), which is printed
  (src/main.rs:70).
- The title and the `i64` points go to issue creation unchecked
  (src/main.rs:24, 62). The model uses the `I64` newtype for the points.
- The formatter converts `crate::linear::Issue` (src/formatting.rs:3, 24) and
  reads its `title`, `url`, `team_name` and `state_name` fields
  (src/formatting.rs:27-29). The struct declared at src/linear.rs:17-25 does
  not declare `url`, `team_name` or `state_name`. The model's `Issue` record
  therefore has exactly the four fields the formatter reads.

## Model

| member | source | states |
|---|---|---|
| CreateCommand.Matching | src/main.rs:51-53 | the filter keeps exactly the teams whose name equals the query (case-sensitive, no trimming): every kept team is from the list and carries the name, every such team is kept, and their number is the match count |
| CreateCommand.Step | src/main.rs:54-56 | the `try_fold` closure continues with the team as the accumulator iff the accumulator was empty, and otherwise gives the "Multiple teams" error |
| CreateCommand.TryFold | src/main.rs:54-57 | from an empty accumulator, the fold gives `Ok(None)` for no matches, `Ok(Some(m[0]))` for one, and the "Multiple teams" error for two or more; from a filled accumulator, any further match is the error |
| CreateCommand.Resolve | src/main.rs:51-57 | NotFound iff no team matches, Found iff exactly one does, Ambiguous iff two or more do, with the "Multiple teams with the same name found" message; a found team is in the list and has the queried name |
| CreateCommand.CountZeroIffNoMatch | src/main.rs:53 | the match count is zero iff no list position has the queried name |
| CreateCommand.CountOneIffUniqueMatch | src/main.rs:53-55 | the match count is one iff exactly one list position has the queried name |
| CreateCommand.ResolveNotFoundIff | src/main.rs:53-57 | resolution reports nothing found iff no team's name equals the query exactly |
| CreateCommand.ResolveFoundIff | src/main.rs:53-55 | a team is returned iff exactly one position matches, and it is the list element at that position, id and name unchanged |
| CreateCommand.ResolveTwoMatchesAmbiguous | src/main.rs:54-56 | any two matching positions make resolution abort with the error; it never falls back to the first match |
| CreateCommand.MatchingAppend | src/main.rs:53 | filtering a concatenation is the concatenation of the filtered parts, in order |
| CreateCommand.ResolveIgnoresNonMatching | src/main.rs:53 | inserting or removing teams with other names, anywhere in the list, leaves the outcome unchanged |
| CreateCommand.MatchingMultiplicity | src/main.rs:53 | each team occurs in the filtered list as often as in the input if it has the queried name, and not at all otherwise |
| CreateCommand.ResolveOrderIndependent | src/main.rs:51-57 | any reordering of the team list gives the same outcome, the returned team included |
| CreateCommand.Dispatch | src/main.rs:58-71 | an issue is created only for a found team, with that team and the given title, points and copy flag, and "Creating issue..." is printed, then "Coped URL to clipboard." when copying; otherwise only the not-found message or the fold's error message is printed |
| CreateCommand.Create | src/main.rs:51-71 | the subcommand over a fetched list creates an issue iff exactly one team has the name, under a listed team of that name, with the given title, points and copy flag; otherwise it prints the not-found message when nothing matches and the "Multiple teams" error when several do |
| CreateCommand.CreateOnlyForUniqueMatch | src/main.rs:51-71 | the subcommand creates an issue iff exactly one team has the name, filed under that listed team; no match prints "No team with the given name found.", two or more print the "Multiple teams" error |
| Formatting.FormatAsHyperlink | src/formatting.rs:8-10 | the output is 14 characters longer than url and text together: the introducer `ESC ] 8 ; ;`, the url verbatim, `ESC \`, the text verbatim, and the closer `ESC ] 8 ; ; ESC \` |
| Formatting.FindTerminator | src/formatting.rs:9 | returns the first position at or after the start where `ESC \` begins, or nothing when there is none |
| Formatting.ParseHyperlink | src/formatting.rs:8-10 | whatever it accepts has a target with no `ESC \` and formats back to exactly the input |
| Formatting.SplitAtFirstTerminator | src/formatting.rs:9 | cutting a well-framed escape at its first `ESC \` gives a target with no `ESC \` that, with the rest as text, formats back to the escape |
| Formatting.HyperlinkRoundTrip | src/formatting.rs:8-10 | when the url holds no `ESC \`, reading the hyperlink back recovers the url and the text exactly |
| Formatting.NoEscNoTerminator | src/formatting.rs:9 | a url without ESC meets the round trip's condition |
| Formatting.UnescapedTerminatorIsAmbiguous | src/formatting.rs:9 | since nothing is escaped, for all `u`, `v`, `t` the url `u ESC \ v` with text `t` and the url `u` with text `v ESC \ t` produce the same output, and it reads back as the latter when `u` holds no `ESC \` |
| Formatting.IssueDisplayFrom | src/formatting.rs:24-32 | the row copies team and state names unchanged and its link is the hyperlink to the issue's url showing its title |
| Formatting.IssueLinkTargetsUrl | src/formatting.rs:29 | the row's link reads back with the issue's url as target and its title as visible text |
| Formatting.IssueRows | src/formatting.rs:35-36 | one row per issue, the i-th row built from the i-th issue |
| Formatting.IssueRowsAppend | src/formatting.rs:36 | the rows of a concatenation are the concatenation of the rows, so input order is kept |

## Left out

- Fetching teams over HTTP (`get_teams`, src/linear.rs:63-67): network I/O. The fetch is also unfinished and decodes no response. The model starts from an already fetched team list.
- Creating the issue (src/main.rs:61-63): the called `create_issue` is not defined in any of the source files, and it is network I/O. The model stops at the `CreateIssue` action.
- The issue URL returned by creation and the clipboard write (src/main.rs:64-67): I/O. The model records the copy flag and the printed clipboard notice, not the clipboard contents.
- Command-line parsing (clap), the interactive menus (inquire) and the async runtime: foreign libraries and UI.
- Table layout and printing in `print_issues`: a foreign library plus standard output. Only the mapping to rows is modelled.
- Workflow-state and assigned-issue filtering: these client operations are called but not defined in the source files.
