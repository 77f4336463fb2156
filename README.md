# tinfo: the tmux session and window lister, modelled in Dafny

`tinfo` lists the windows ("tabs") of a tmux server grouped by session. Given a search
term, it keeps only the tabs whose name contains that term. With `-G` it moves the one
matching window to the current session, and with `-a` it attaches to the one matching
session. This project models the tool's core pipeline, parse → directory → filter →
select, in both versions found in the repository:

- **src/main.rs** (current version, module `Listing`) builds the directory in two phases.
  - Phase 1 parses `tmux list-sessions -F '#{session_name} #{session_windows} #{session_attached}'`
    and creates one empty session per line, recording its attached flag.
  - Phase 2 parses `tmux list-windows -a` and appends each window line's tab to its
    session. A window line naming an unknown session is an error.
  - It then filters with `select_tabs`, prints the directory with `dump`, or computes the
    `move-window` / `attach-session` target after the cardinality checks of
    `get_cmd` / `attach_cmd`.
- **src/tinfo.rs** (older version, module `Tinfo`) reads `tmux list-windows -a` only and
  creates sessions on demand with `insert_or_push`. It has the same filter, without the
  attached flag.

Modules, in dependency order:

- `Errors`: the `Option` and `Result` types, and the error cases. Every panic of the source
  (`expect`, `unwrap`, `panic!`) and every `?` becomes an `Err` value. The cases are:
  - `NoMatch`: a line does not match its regular expression;
  - `TooLarge`: a number does not fit a `usize`;
  - `UnknownSession`: `get_mut(..).unwrap()` fails;
  - `NotSingleSession` and `NotSingleTab`: the two cardinality panics.
- `Text`: ASCII digit runs; `str::parse::<usize>` with 64-bit overflow; `{}` printing of
  numbers; `str::find`; `str::split('\n')`. It also defines `UntilBlank`, the lines a reader
  loop visits before it stops at the first empty line, and `ParseAll`, a loop that stops
  at the first line it cannot parse.
- `Pattern`: regular expressions made of literal text and `(\d+)` groups. `Match` matches
  one at the start of a string; `Render` prints one back with given groups. The two are
  proved to agree.
- `Grammar`: the session-line grammar `^(\d+) (\d+) (\d+)` and the window-line grammar
  `^(\d+):(\d+): (.*) \((\d+) panes\) \[(\d+)x(\d+)\]`.
  - The window name's `(.*)` is greedy. It stops at the last offset, before the first
    newline, at which the pane-count suffix still matches.
  - Neither grammar is anchored at the end.
  - The width and height are matched but never parsed, so they may exceed a `usize`.
- `Search`: the tab filter shared by both versions.
- `Listing` (src/main.rs) and `Tinfo` (src/tinfo.rs). The `HashMap` of each version is a
  class `WindowList` with a `sessions: map<nat, Window>` field. Its methods update that
  field in place.
  - Each method is proved against a function on values: `Build`, `Populated`, `Selected`,
    `DumpText`, `GetTarget`, `AttachTarget`, `Collect`.
  - The properties are proved about those functions.

Code behaviours a reader might not expect, which the model keeps:

- An empty search term drops the sessions that have no tab. It does not copy the
  directory unchanged.
- A session id listed twice keeps the attached flag of its last line. Ids are not
  assumed unique.
- A pane count of 0 is accepted. The width and height of a window line are matched but
  not parsed.
- The window name is not "everything up to the pane-count suffix". It runs up to the last
  place on the line where that suffix matches, so trailing text holding a second suffix
  is swallowed into the name (`MatchWindowComplete` states the exact condition).
- When both `-G` and `-a` are given, `-G` wins (src/main.rs:239-243). They are not
  rejected as exclusive.

## Model

| member | source | states |
|---|---|---|
| Text.DigitsLen | src/main.rs:67 | a greedy `\d+` reaches exactly the opening run of ASCII digits: what it covers is all digits and the next character is not one |
| Text.LineEnd | src/main.rs:184 | `.*` reaches up to the first newline and no further |
| Text.DecimalString | src/main.rs:106 | `{}` prints a number as a non-empty digit run that opens with '0' only for 0, and a number below 10 as its single digit (0 as `0`) |
| Text.DecimalRoundTrip | src/main.rs:84-86 | parsing the digits `{}` prints gives the number back |
| Text.ParseUsize | src/main.rs:84-86 | `parse::<usize>` of a digit run succeeds exactly when its value fits 64 bits, with that value, and otherwise fails with `TooLarge` of that run |
| Text.ParsePrinted | src/main.rs:84-86 | a printed number parses back to itself exactly when it fits a usize |
| Text.ParsePadded | src/main.rs:84-86 | leading zeros change neither whether a run parses nor its value (`007` reads as 7) |
| Text.Find | src/main.rs:157 | `str::find` returns the first offset where the term occurs, and `None` exactly when it occurs nowhere |
| Text.Split | src/main.rs:77 | `split('\n')` yields at least one piece and no piece holds a newline |
| Text.JoinSplit | src/main.rs:77 | the pieces, glued back with newlines, give the text: splitting loses nothing |
| Text.SplitJoin | src/main.rs:77 | pieces without newlines, joined and split again, come back unchanged |
| Text.UntilBlank | src/main.rs:78-80 | the lines a reader visits are a prefix of the lines, none of them empty, and the line after them, if any, is empty |
| Text.UntilBlankIgnoresRest | src/main.rs:78-80 | nothing after the first empty line is ever read |
| Text.ParseAllSpec | src/main.rs:82-86 | reading lines with `?` succeeds with each line's value in order, or fails with the error of the first line that fails, every earlier line having parsed |
| Text.ParseAllStopsAt | src/main.rs:77-86 | a line that fails to parse before any empty line is the error of the whole reading |
| Pattern.Render | src/main.rs:67 | a pattern printed with given groups is as long as its literals and groups, followed by the trailing text |
| Pattern.Match | src/main.rs:67 | a match captures one digit run per group, and the matched text is the pattern printed with those groups, followed by the text after the match |
| Pattern.MatchRender | src/main.rs:67 | a well-formed pattern matches its own printing, and recovers exactly the groups and the following text unless that text extends a trailing group |
| Pattern.RenderAppend | src/main.rs:184 | text appended after a printed pattern is the text after the match |
| Grammar.ParseSessionLine | src/main.rs:82-86 | a session line fails with `NoMatch` exactly when it does not open with `digits SP digits SP digits`; it succeeds exactly when it matches and all three runs fit a usize (leading zeros allowed), yielding the three numbers with attached being "third number > 0"; a matching line otherwise fails with `TooLarge` of a run that does not fit |
| Grammar.SessionLineRoundTrip | src/main.rs:82-88 | a printed session line, whatever follows it short of another digit, parses back to its id, window count and `attached > 0` |
| Grammar.LastTail | src/main.rs:184 | the greedy name ends at the last offset at which the pane-count suffix matches, and at no later one |
| Grammar.MatchNamed | src/main.rs:184 | the name holds no newline, the suffix captures three digit runs, and no later end of the name on the same line leaves a matching suffix |
| Grammar.MatchWindow | src/main.rs:184 | a window-line match yields valid captures whose printing, followed by the rest, is the line, with the name maximal |
| Grammar.NamedExact | src/main.rs:184 | after a written name and suffix, with no second suffix on the line, the greedy search stops at the end of the name |
| Grammar.MatchWindowFound | src/main.rs:184 | a line opening with a written window line always matches |
| Grammar.MatchWindowComplete | src/main.rs:184 | a written window line is matched back to exactly its captures and trailing text when that text holds no second suffix on the line |
| Grammar.ParseWindowLine | src/main.rs:193-199 | a window line fails with `NoMatch` exactly when it does not match; it succeeds exactly when it matches and its session, index and pane runs fit a usize, yielding the session id and a tab of the captured name, window index and pane count; a matching line otherwise fails with `TooLarge` of one of those runs |
| Grammar.WindowLineRoundTrip | src/main.rs:193-199 | a printed window line parses back to its session id and tab, whatever the name holds short of a newline |
| Grammar.TabsOfMembers | src/main.rs:201 | a tab is among a session's collected tabs exactly when some window line names that session and tab |
| Grammar.ParsedNameOneLine | src/main.rs:184 | a parsed window name holds no newline |
| Grammar.TabsOfEmpty | src/main.rs:201 | a session that no window line names collects no tab |
| Search.Matching | src/main.rs:156-164 | the kept tabs are drawn from the session's tabs, and each one's name contains the term |
| Search.MatchingMembers | src/main.rs:157-161 | a tab is kept exactly when it was there and its name contains the term |
| Search.MatchingAppend | src/main.rs:156-164 | filtering preserves order: the filter of a concatenation is the concatenation of the filters |
| Search.MatchingEmpty | src/main.rs:165 | the filter is empty exactly when no name contains the term |
| Search.MatchingIdempotent | src/main.rs:156-164 | filtering again with the same term changes nothing |
| Search.MatchingEmptyTerm | src/main.rs:157 | the empty term keeps every tab |
| Search.ContainsInfix | src/main.rs:157 | a name with the term somewhere inside it contains the term |
| Listing.Window.Push | src/main.rs:45-47 | the tab goes after every earlier tab, which stay, the attached flag is kept, and the session is no longer empty |
| Listing.Window.IsEmpty | src/main.rs:49-51 | a session is empty exactly when it holds no tab |
| Listing.SkeletonKeys | src/main.rs:77-89 | phase 1 creates exactly the ids of the session lines, each session with no tabs |
| Listing.SkeletonAttached | src/main.rs:88 | a session's attached flag is the one of the last line naming it |
| Listing.AddLineError | src/main.rs:193-201 | one window line is added exactly when it parses and names a present session, and otherwise fails with that error |
| Listing.PopulatedShape | src/main.rs:188-202 | populating keeps the key set and the attached flags, and appends to each session, in line order, the tabs of the lines naming it |
| Listing.PopulatedOk | src/main.rs:188-202 | populating succeeds exactly when every line read parses and names a present session |
| Listing.PopulatedFirstError | src/main.rs:188-202 | a failed populating fails with the error of the first line that cannot be added |
| Listing.PopulatedPrefixErr | src/main.rs:193-201 | lines after the first one that cannot be added are never read |
| Listing.BuildShape | src/main.rs:64-94 | a built directory has exactly the session-line ids; each session holds the tabs of the window lines naming it and the attached flag of its last session line |
| Listing.BuildOk | src/main.rs:64-94 | building succeeds exactly when every session line read parses and every window line read parses and names a listed session |
| Listing.SelectedMembers | src/main.rs:152-170 | a session is selected exactly when one of its tabs contains the term; a selected session holds exactly the input's matching tabs and the same attached flag |
| Listing.SelectedNotEmpty | src/main.rs:165-167 | no selected session is empty |
| Listing.SelectedIdempotent | src/main.rs:152-170 | selecting twice with the same term equals selecting once |
| Listing.SelectedEmptyTerm | src/main.rs:157-167 | the empty term keeps exactly the sessions that have a tab, unchanged |
| Listing.TabLinesSplit | src/main.rs:105-107 | the tab lines read back line by line are `  <number>: <name>` per tab, in tab order |
| Listing.BlockSplit | src/main.rs:100-107 | a session's block reads back as `Session: <id>`, then ` (attached)` exactly when attached, then one line per tab |
| Listing.DumpSplit | src/main.rs:97-110 | the whole listing reads back as the sessions' blocks one after the other, in the order the map is visited |
| Listing.DumpHolds | src/main.rs:99-108 | whatever order the map is visited in, the listing holds the block of each session visited |
| Listing.DumpListsAll | src/main.rs:99-108 | a listing that visits every key once holds every session's block |
| Listing.BuiltOneLine | src/main.rs:184 | no tab name in a built directory holds a newline, so its listing reads back line for line |
| Listing.GetTargetSpec | src/main.rs:113-133 | get succeeds exactly on one session holding one tab, and then targets `<id>:<window index>` |
| Listing.AttachTargetSpec | src/main.rs:136-150 | attach succeeds exactly on one session, and then targets `<id>` |
| Listing.WindowTargetRoundTrip | src/main.rs:127 | a `move-window` target reads back as the session id and window index it names |
| Listing.WindowTargetInjective | src/main.rs:127 | different windows never share a target |
| Listing.WindowList.constructor | src/main.rs:75 | a new directory is empty |
| Listing.WindowList.Populate | src/main.rs:173-205 | on success the directory becomes the populated one; otherwise the error of the first window line that cannot be added is returned |
| Listing.WindowList.PushTab | src/main.rs:201 | the tab goes last in the named session, which must be present, and no other session changes |
| Listing.WindowList.SelectTabs | src/main.rs:152-170 | returns a fresh directory equal to the selection, and the receiver is unchanged |
| Listing.WindowList.Dump | src/main.rs:97-110 | the text holds every session's block; it is the blocks of all keys, each exactly once, in some order |
| Listing.WindowList.GetCmd | src/main.rs:113-133 | returns the target or the cardinality error that the get gates define |
| Listing.WindowList.AttachCmd | src/main.rs:136-150 | returns the target or the cardinality error that the attach gate defines |
| Listing.SelectWindow | src/main.rs:155-164 | one session's filtered copy: the matching tabs in order, with the same attached flag |
| Listing.WriteSession | src/main.rs:100-107 | writes exactly the session's block |
| Listing.BuildWindowList | src/main.rs:64-94 | returns a fresh directory equal to the built one, or the building error |
| Tinfo.Window.Push | src/tinfo.rs:35-37 | the tab goes after every earlier tab, which stay, and the session is no longer empty |
| Tinfo.Window.Empty | src/tinfo.rs:39-41 | a session is empty exactly when it holds no tab |
| Tinfo.CloneTab | src/tinfo.rs:21-23 | a cloned tab equals the original in name, number and panes |
| Tinfo.PushedSpec | src/tinfo.rs:82-92 | pushing onto an existing session appends the tab at its end; onto a missing one adds exactly that key with just that tab; no other entry changes |
| Tinfo.CollectedShape | src/tinfo.rs:97-114 | the sessions are exactly the ids the window lines name, each holding its lines' tabs in line order |
| Tinfo.CollectedCount | src/tinfo.rs:97-114 | the directory holds one tab per window line |
| Tinfo.GatheredParsed | src/tinfo.rs:100-111 | the single loop that parses and pushes equals parsing every line and then building the directory from the records |
| Tinfo.GatheredStopsAt | src/tinfo.rs:100-107 | a line that fails to parse before any empty line is the error of the whole reading |
| Tinfo.CollectShape | src/tinfo.rs:97-114 | collecting fails exactly when reading the window lines fails, with the same error; otherwise the directory has exactly the named ids, one tab per line, each session's tabs in line order |
| Tinfo.SelectedMembers | src/tinfo.rs:62-80 | a session is selected exactly when one of its tabs contains the term, and holds exactly the matching tabs |
| Tinfo.SelectedIdempotent | src/tinfo.rs:62-80 | selecting twice equals selecting once, and no selected session is empty |
| Tinfo.VersionsAgree | src/tinfo.rs:97-114 | whenever the current version builds a directory, the older one also reads the window lines and gives every session the same tabs; the current one only adds declared sessions that have no window |
| Tinfo.WindowList.constructor | src/tinfo.rs:98 | a new directory is empty |
| Tinfo.WindowList.InsertOrPush | src/tinfo.rs:82-92 | the directory becomes the pushed one |
| Tinfo.WindowList.SelectTabs | src/tinfo.rs:62-80 | returns a fresh directory equal to the selection, and the receiver is unchanged |
| Tinfo.SelectWindow | src/tinfo.rs:65-74 | one session's filtered copy: clones of the matching tabs, in order |
| Tinfo.OutputToWindows | src/tinfo.rs:97-114 | returns a fresh directory equal to the collected one, or the error of the first window line that does not parse |

## Left out

- Running tmux (src/main.rs:71-74, 124-128, 142-146, 174-181; src/tinfo.rs:118-126) is
  process I/O. Each command's output is a string parameter. `get_cmd` and `attach_cmd`
  return the target they would pass to `tmux move-window -s` or `tmux attach-session -t`.
- `String::from_utf8_lossy` and `String::from_utf8` are not modelled. The output is
  taken to be a string already.
- Command-line handling in both `main` functions (src/main.rs:208-251,
  src/tinfo.rs:117-139) is argument glue. Of note: `-G` takes precedence over `-a`, and
  the older program fails on more than one argument.
- The dump of src/tinfo.rs (lines 53-60) is not modelled. It prints with `println!` the
  same lines as src/main.rs's `dump`, without the attached mark.
- `HashMap` iteration order is unspecified.
  - The loops over a map pick any remaining key with `:|`.
  - `Listing.WindowList.Dump` returns the order it used as a ghost value and promises
    only that each key appears exactly once.
  - `get_cmd` and `attach_cmd` only take a key when there is exactly one.
- Grammar.ParseSessionLine, Grammar.ParseWindowLine: `\d` is an ASCII digit here, while
  Rust's `\d` matches every Unicode decimal digit. Where such a digit appears, the two
  can disagree on whether a line is read, and on the tab read from it:
  - a non-ASCII digit in the width or height, `1:0: x (1 panes) [١x1]`, matches in Rust
    and is never parsed, so the line is read; the model rejects it with `NoMatch`;
  - a non-ASCII digit in a later pane-count suffix,
    `1:0: a (1 panes) [1x1] b (٣ panes) [1x1]`, lets Rust's greedy name reach that suffix,
    whose count `parse` then rejects; the model's name stops at the first suffix and the
    line is read with name `a`;
  - a non-ASCII digit right after an ASCII run, `1 2 3٣`, extends Rust's capture, which
    `parse` rejects; the model's run stops before it and the line is read;
  - a non-ASCII digit in the width or height of a later suffix,
    `1:0: a (1 panes) [1x1] b (2 panes) [٣x1]`, lets Rust's greedy name reach that
    suffix, which is never parsed, so both read the line but with different tabs: Rust
    reads name `a (1 panes) [1x1] b` with 2 panes, the model name `a` with 1 pane;
  - a non-ASCII digit inside the id, index or pane count makes both fail, with
    `NoMatch` here and a parse error in Rust.
- `usize` (and the older `uint`) is taken to be 64 bits wide.
- The error messages of `failure::Error`, `format_err!` and the panics are not
  modelled. The `Error` value names which check failed.
- `Listing.WindowList.Populate`: after an error, the state of the map is left
  unspecified, because `build_windowlist` discards the map on error.
- `Listing.WindowList.Dump` returns the text rather than writing it. `io::Write`
  errors are not modelled.
- Listing.Build, Listing.BuildWindowList: `Vec::with_capacity(num_windows)`
  (src/main.rs:87) panics with a capacity overflow when `num_windows` times the size of a
  `Tab` (40 bytes on a 64-bit target) exceeds `isize::MAX`, and aborts when the memory
  cannot be allocated, which depends on the machine. The model does not allocate: the
  window count must fit a `usize` and is otherwise unused, so `0 1000000000000000000 1`
  is built here while the program ends.
- `str::find` returns a byte offset in Rust and a character offset here. Only
  `Some`/`None` is ever used.
- `Window::push` through `get_mut`, and `insert_or_push` through `find_mut`, become updates
  of a map entry by value. No `Window` is aliased in the source.
- `Tab::new` in src/tinfo.rs copies the name with `from_str(..).unwrap()`, which cannot
  fail for a `String`. It is modelled as the datatype constructor.
