/** The current listing program (src/main.rs): the directory of sessions built in two
    phases from `tmux list-sessions` and `tmux list-windows -a` output, the tab filter, the
    listing it prints and the targets of the `move-window` and `attach-session` commands. */
module Listing {
  import opened Errors
  import opened Text
  import opened Grammar
  import opened Search

  /** A session: its tabs in listing order, and whether a client is attached to it. */
  datatype Window = Window(tabs: seq<Tab>, attached: bool) {
    /** `Window::push`: the tab goes last, every earlier tab and the flag stay. */
    function Push(tab: Tab): (w: Window)
      ensures |w.tabs| == |tabs| + 1 && w.tabs[..|tabs|] == tabs && w.tabs[|tabs|] == tab
      ensures w.attached == attached
    {
      Window(tabs + [tab], attached)
    }

    /** `Window::is_empty`: the session holds no tab at all. */
    predicate IsEmpty(): (e: bool)
      ensures e <==> forall t :: t !in tabs
    {
      if |tabs| == 0 then true else assert tabs[0] in tabs; false
    }
  }

  /** The directory: session id to session (`HashMap<usize, Window>`). */
  type Sessions = map<nat, Window>

  // ----- phase 1: sessions -----

  /** The directory the session records declare: each id with no tabs yet; a later record
      with the same id replaces the earlier one, as `HashMap::insert` does. */
  function Skeleton(recs: seq<SessionRecord>): Sessions {
    if recs == [] then map[]
    else
      var last := recs[|recs| - 1];
      Skeleton(recs[..|recs| - 1])[last.id := Window([], last.attached)]
  }

  /** The session ids the records declare. */
  function DeclaredIds(recs: seq<SessionRecord>): set<nat> {
    set i | 0 <= i < |recs| :: recs[i].id
  }

  /** The record at `i` is the last one naming its id. */
  predicate LastFor(recs: seq<SessionRecord>, i: nat)
    requires i < |recs|
  {
    forall j :: i < j < |recs| ==> recs[j].id != recs[i].id
  }

  /** One more record declares its id besides the earlier ones. */
  lemma DeclaredIdsSnoc(recs: seq<SessionRecord>, rec: SessionRecord)
    ensures DeclaredIds(recs + [rec]) == DeclaredIds(recs) + {rec.id}
  {
    var all := recs + [rec];
    forall id | id in DeclaredIds(all)
      ensures id in DeclaredIds(recs) + {rec.id}
    {
      var i :| 0 <= i < |all| && all[i].id == id;
      if i < |recs| {
        assert recs[i].id == id;
      }
    }
    forall id | id in DeclaredIds(recs)
      ensures id in DeclaredIds(all)
    {
      var i :| 0 <= i < |recs| && recs[i].id == id;
      assert all[i].id == id;
    }
    assert all[|recs|].id == rec.id;
  }

  /** The skeleton has exactly the declared ids and every session starts with no tabs. */
  lemma {:induction false} SkeletonKeys(recs: seq<SessionRecord>)
    ensures Skeleton(recs).Keys == DeclaredIds(recs)
    ensures forall id :: id in Skeleton(recs) ==> Skeleton(recs)[id].tabs == []
  {
    if recs != [] {
      var init := recs[..|recs| - 1];
      SkeletonKeys(init);
      assert recs == init + [recs[|recs| - 1]];
      DeclaredIdsSnoc(init, recs[|recs| - 1]);
    }
  }

  /** A session's attached flag is the one of the last record naming it. */
  lemma {:induction false} SkeletonAttached(recs: seq<SessionRecord>, i: nat)
    requires i < |recs| && LastFor(recs, i)
    ensures recs[i].id in Skeleton(recs) && Skeleton(recs)[recs[i].id].attached == recs[i].attached
  {
    var init := recs[..|recs| - 1];
    if i < |init| {
      assert recs[i].id != recs[|recs| - 1].id;
      assert LastFor(init, i);
      SkeletonAttached(init, i);
    }
  }

  // ----- phase 2: windows -----

  /** Why one window line cannot be added to a directory with keys `ids`: it does not
      parse, or it names a session the directory lacks (`get_mut(..).unwrap()`). */
  function LineError(parse: LineParser, ids: set<nat>, line: string): Option<Error> {
    match parse(line)
    case Err(e) => Some(e)
    case Ok(rec) => if rec.session in ids then None else Some(UnknownSession(rec.session))
  }

  /** `get_mut(&id).unwrap().push(tab)` on a present session. */
  function PushedTo(d: Sessions, id: nat, tab: Tab): Sessions
    requires id in d
  {
    d[id := d[id].Push(tab)]
  }

  /** One turn of `populate`'s loop: parse the line and push its tab onto its session. */
  function AddLine(parse: LineParser, prev: Sessions, line: string): Result<Sessions> {
    match parse(line)
    case Err(e) => Err(e)
    case Ok(rec) =>
      if rec.session in prev then Ok(PushedTo(prev, rec.session, rec.tab))
      else Err(UnknownSession(rec.session))
  }

  /** A line is added exactly when it has no error, and fails with that error otherwise. */
  lemma AddLineError(parse: LineParser, prev: Sessions, line: string)
    ensures AddLine(parse, prev, line).Ok? <==> LineError(parse, prev.Keys, line).None?
    ensures AddLine(parse, prev, line).Err? ==>
      LineError(parse, prev.Keys, line) == Some(AddLine(parse, prev, line).error)
  {
  }

  /** `populate` over the lines it reads: each window line's tab appended to its session,
      or the error of the first line that cannot be added. */
  function Populated(parse: LineParser, d: Sessions, lines: seq<string>): Result<Sessions> {
    if lines == [] then Ok(d)
    else
      var prev :- Populated(parse, d, lines[..|lines| - 1]);
      AddLine(parse, prev, lines[|lines| - 1])
  }

  /** Populating keeps the keys and the attached flags and appends to each session the tabs
      of the lines naming it, in line order. */
  lemma {:induction false} PopulatedShape(parse: LineParser, d: Sessions, lines: seq<string>)
    requires Populated(parse, d, lines).Ok?
    ensures ParseAll(lines, parse).Ok?
    ensures SessionIds(ParseAll(lines, parse).value) <= d.Keys
    ensures Populated(parse, d, lines).value.Keys == d.Keys
    ensures forall id :: id in d ==>
      Populated(parse, d, lines).value[id] == Window(d[id].tabs + TabsOf(ParseAll(lines, parse).value, id), d[id].attached)
  {
    if lines != [] {
      var init := lines[..|lines| - 1];
      var last := lines[|lines| - 1];
      PopulatedShape(parse, d, init);
      var prev := Populated(parse, d, init).value;
      var recs := ParseAll(init, parse).value;
      assert Populated(parse, d, lines) == AddLine(parse, prev, last);
      var rec := parse(last).value;
      var all := recs + [rec];
      assert ParseAll(lines, parse) == Ok(all);
      var next := prev[rec.session := prev[rec.session].Push(rec.tab)];
      assert Populated(parse, d, lines) == Ok(next);
      forall id | id in d
        ensures next[id] == Window(d[id].tabs + TabsOf(all, id), d[id].attached)
      {
        TabsOfSnoc(recs, rec, id);
        if id == rec.session {
          assert (d[id].tabs + TabsOf(recs, id)) + [rec.tab] == d[id].tabs + (TabsOf(recs, id) + [rec.tab]);
        } else {
          assert TabsOf(recs, id) + [] == TabsOf(recs, id);
        }
      }
      SessionIdsSnoc(recs, rec);
    }
  }

  /** Populating keeps the keys. */
  lemma {:induction false} PopulatedKeys(parse: LineParser, d: Sessions, lines: seq<string>)
    requires Populated(parse, d, lines).Ok?
    ensures Populated(parse, d, lines).value.Keys == d.Keys
  {
    if lines != [] {
      PopulatedKeys(parse, d, lines[..|lines| - 1]);
    }
  }

  /** Every line parses and names a session among `ids`. */
  predicate AllFit(parse: LineParser, ids: set<nat>, lines: seq<string>) {
    forall i :: 0 <= i < |lines| ==> LineError(parse, ids, lines[i]).None?
  }

  /** Populating succeeds exactly when every line parses and names a listed session. */
  lemma {:induction false} PopulatedOk(parse: LineParser, d: Sessions, lines: seq<string>)
    ensures Populated(parse, d, lines).Ok? <==> AllFit(parse, d.Keys, lines)
  {
    if lines != [] {
      var init := lines[..|lines| - 1];
      var last := lines[|lines| - 1];
      PopulatedOk(parse, d, init);
      match Populated(parse, d, init)
      case Err(_) =>
        assert Populated(parse, d, lines).Err?;
        var i :| 0 <= i < |init| && LineError(parse, d.Keys, init[i]).Some?;
        assert lines[i] == init[i];
      case Ok(prev) =>
        PopulatedKeys(parse, d, init);
        AddLineError(parse, prev, last);
        assert Populated(parse, d, lines) == AddLine(parse, prev, last);
        if LineError(parse, d.Keys, last).None? {
          forall i | 0 <= i < |lines| ensures LineError(parse, d.Keys, lines[i]).None? {
            if i < |init| {
              assert lines[i] == init[i];
            }
          }
        } else {
          assert !LineError(parse, d.Keys, lines[|lines| - 1]).None?;
        }
    }
  }

  /** A populating that fails, fails with the error of the first line that cannot be added. */
  lemma {:induction false} PopulatedFirstError(parse: LineParser, d: Sessions, lines: seq<string>)
    requires Populated(parse, d, lines).Err?
    ensures exists i :: (0 <= i < |lines| &&
      LineError(parse, d.Keys, lines[i]) == Some(Populated(parse, d, lines).error) &&
      AllFit(parse, d.Keys, lines[..i]))
  {
    var init := lines[..|lines| - 1];
    var last := lines[|lines| - 1];
    match Populated(parse, d, init)
    case Err(e) =>
      PopulatedFirstError(parse, d, init);
      var i :| 0 <= i < |init| && LineError(parse, d.Keys, init[i]) == Some(e) &&
        AllFit(parse, d.Keys, init[..i]);
      assert init[..i] == lines[..i];
      assert LineError(parse, d.Keys, lines[i]) == Some(Populated(parse, d, lines).error);
    case Ok(prev) =>
      PopulatedOk(parse, d, init);
      PopulatedShape(parse, d, init);
      AddLineError(parse, prev, last);
      assert Populated(parse, d, lines) == AddLine(parse, prev, last);
      assert lines[..|lines| - 1] == init;
      assert LineError(parse, d.Keys, lines[|lines| - 1]) == Some(Populated(parse, d, lines).error);
  }

  /** Lines after the first one that cannot be added are never read. */
  lemma {:induction false} PopulatedPrefixErr(parse: LineParser, d: Sessions, a: seq<string>, b: seq<string>)
    requires Populated(parse, d, a).Err?
    ensures Populated(parse, d, a + b) == Populated(parse, d, a)
    decreases |b|
  {
    if b != [] {
      var init := b[..|b| - 1];
      assert (a + b)[..|a + b| - 1] == a + init;
      PopulatedPrefixErr(parse, d, a, init);
    } else {
      assert a + b == a;
    }
  }

  /** One more line added: the tab pushed onto its session, or the line's error. */
  lemma PopulatedStep(parse: LineParser, d: Sessions, lines: seq<string>, i: nat)
    requires i < |lines| && Populated(parse, d, lines[..i]).Ok?
    ensures Populated(parse, d, lines[..i + 1]) == AddLine(parse, Populated(parse, d, lines[..i]).value, lines[i])
  {
    assert lines[..i + 1][..i] == lines[..i];
  }

  /** A line that parses to `rec`, naming a session of the directory `prev` the earlier
      lines gave, pushes `rec`'s tab onto that session. */
  lemma PopulatedPush(parse: LineParser, d: Sessions, lines: seq<string>, i: nat, prev: Sessions, rec: WindowRecord)
    requires i < |lines| && Populated(parse, d, lines[..i]) == Ok(prev)
    requires parse(lines[i]) == Ok(rec) && rec.session in prev
    ensures Populated(parse, d, lines[..i + 1]) == Ok(PushedTo(prev, rec.session, rec.tab))
  {
    PopulatedStep(parse, d, lines, i);
  }

  /** An error on a line before the first empty one is the error of the whole listing. */
  lemma PopulatedStopsAt(parse: LineParser, d: Sessions, lines: seq<string>, i: nat)
    requires i < |lines| && forall k :: 0 <= k <= i ==> lines[k] != ""
    requires Populated(parse, d, lines[..i + 1]).Err?
    ensures Populated(parse, d, UntilBlank(lines)) == Populated(parse, d, lines[..i + 1])
  {
    UntilBlankCovers(lines, i);
    var u := UntilBlank(lines);
    PopulatedPrefixErr(parse, d, lines[..i + 1], u[i + 1..]);
  }

  /** `build_windowlist`: the sessions of the session listing, then the windows of the
      window listing added to them; both listings are read up to their first empty line. */
  function Build(sessionOutput: string, windowOutput: string): Result<Sessions> {
    var recs :- ParseAll(UntilBlank(Split(sessionOutput)), ParseSessionLine);
    Populated(ParseWindowLine, Skeleton(recs), UntilBlank(Split(windowOutput)))
  }

  /** One more session line adds (or overwrites) its id with an empty session. */
  lemma SkeletonStep(recs: seq<SessionRecord>, rec: SessionRecord)
    ensures Skeleton(recs + [rec]) == Skeleton(recs)[rec.id := Window([], rec.attached)]
  {
    assert (recs + [rec])[..|recs|] == recs;
  }

  /** Once the session lines have been read into `recs`, building is populating their skeleton. */
  lemma BuildFrom(sessionOutput: string, windowOutput: string, recs: seq<SessionRecord>)
    requires ParseAll(UntilBlank(Split(sessionOutput)), ParseSessionLine) == Ok(recs)
    ensures Build(sessionOutput, windowOutput) == Populated(ParseWindowLine, Skeleton(recs), UntilBlank(Split(windowOutput)))
  {
  }

  /** A built directory holds exactly the sessions listed, each with the tabs of the window
      lines naming it in line order and the attached flag of its last session line. */
  lemma BuildShape(sessionOutput: string, windowOutput: string)
    requires Build(sessionOutput, windowOutput).Ok?
    ensures var srecs := ParseAll(UntilBlank(Split(sessionOutput)), ParseSessionLine);
      var wrecs := WindowRecords(UntilBlank(Split(windowOutput)));
      var d := Build(sessionOutput, windowOutput).value;
      srecs.Ok? && wrecs.Ok? &&
      d.Keys == DeclaredIds(srecs.value) &&
      (forall id :: id in d ==> d[id].tabs == TabsOf(wrecs.value, id)) &&
      (forall i :: 0 <= i < |srecs.value| && LastFor(srecs.value, i) ==>
        d[srecs.value[i].id].attached == srecs.value[i].attached)
  {
    var recs := ParseAll(UntilBlank(Split(sessionOutput)), ParseSessionLine).value;
    var wlines := UntilBlank(Split(windowOutput));
    BuildFrom(sessionOutput, windowOutput, recs);
    SkeletonKeys(recs);
    forall i | 0 <= i < |recs| && LastFor(recs, i)
      ensures Skeleton(recs)[recs[i].id].attached == recs[i].attached
    {
      SkeletonAttached(recs, i);
    }
    PopulatedShape(ParseWindowLine, Skeleton(recs), wlines);
  }

  /** Building succeeds exactly when every session line before the first empty one parses
      and every window line before the first empty one parses and names a listed session. */
  lemma BuildOk(sessionOutput: string, windowOutput: string)
    ensures var srecs := ParseAll(UntilBlank(Split(sessionOutput)), ParseSessionLine);
      Build(sessionOutput, windowOutput).Ok? <==>
        srecs.Ok? && AllFit(ParseWindowLine, DeclaredIds(srecs.value), UntilBlank(Split(windowOutput)))
  {
    var srecs := ParseAll(UntilBlank(Split(sessionOutput)), ParseSessionLine);
    if srecs.Ok? {
      var wlines := UntilBlank(Split(windowOutput));
      BuildFrom(sessionOutput, windowOutput, srecs.value);
      SkeletonKeys(srecs.value);
      PopulatedOk(ParseWindowLine, Skeleton(srecs.value), wlines);
    }
  }

  // ----- the filter -----

  /** `select_tabs`: each session cut down to the tabs whose name contains `term`, with its
      attached flag; sessions left with no tab are dropped. */
  function Selected(d: Sessions, term: string): Sessions {
    map id | id in d && Matching(d[id].tabs, term) != [] :: Window(Matching(d[id].tabs, term), d[id].attached)
  }

  /** A tab is in a selected session exactly when it was in that session and its name
      contains the term; a session is selected exactly when it keeps a tab. */
  lemma SelectedMembers(d: Sessions, term: string, id: nat, t: Tab)
    ensures id in Selected(d, term) <==> id in d && exists i :: 0 <= i < |d[id].tabs| && Contains(d[id].tabs[i].name, term)
    ensures id in Selected(d, term) ==>
      (t in Selected(d, term)[id].tabs <==> t in d[id].tabs && Contains(t.name, term)) &&
      Selected(d, term)[id].attached == d[id].attached
  {
    if id in d {
      MatchingEmpty(d[id].tabs, term);
      MatchingMembers(d[id].tabs, term, t);
    }
  }

  /** No selected session is empty. */
  lemma SelectedNotEmpty(d: Sessions, term: string)
    ensures forall id :: id in Selected(d, term) ==> !Selected(d, term)[id].IsEmpty()
  {
  }

  /** Selecting again with the same term changes nothing. */
  lemma SelectedIdempotent(d: Sessions, term: string)
    ensures Selected(Selected(d, term), term) == Selected(d, term)
  {
    var s := Selected(d, term);
    forall id | id in s ensures Matching(s[id].tabs, term) == s[id].tabs {
      MatchingIdempotent(d[id].tabs, term);
    }
  }

  /** The empty term keeps every session that has a tab, unchanged. */
  lemma SelectedEmptyTerm(d: Sessions)
    ensures Selected(d, "") == map id | id in d && !d[id].IsEmpty() :: d[id]
  {
    forall id | id in d ensures Matching(d[id].tabs, "") == d[id].tabs {
      MatchingEmptyTerm(d[id].tabs);
    }
  }

  // ----- the listing -----

  /** The first line `dump` prints for a session. */
  function Header(id: nat, w: Window): string {
    "Session: " + DecimalString(id) + if w.attached then " (attached)" else ""
  }

  /** The line `dump` prints for a tab. */
  function TabLine(t: Tab): string {
    "  " + DecimalString(t.number) + ": " + t.name
  }

  /** The tab lines of a session, each with its newline, in tab order. */
  function TabLines(tabs: seq<Tab>): string {
    if tabs == [] then ""
    else TabLines(tabs[..|tabs| - 1]) + TabLine(tabs[|tabs| - 1]) + "\n"
  }

  /** What `dump` writes for one session. */
  function SessionBlock(id: nat, w: Window): string {
    Header(id, w) + "\n" + TabLines(w.tabs)
  }

  /** What `dump` writes for the sessions in `order`, the map's iteration order. */
  function DumpText(d: Sessions, order: seq<nat>): string
    requires forall i :: 0 <= i < |order| ==> order[i] in d
  {
    if order == [] then ""
    else DumpText(d, order[..|order| - 1]) + SessionBlock(order[|order| - 1], d[order[|order| - 1]])
  }

  /** The listing of a prefix of the order is a prefix of the listing. */
  lemma {:induction false} DumpTextPrefix(d: Sessions, order: seq<nat>, n: nat)
    requires forall i :: 0 <= i < |order| ==> order[i] in d
    requires n <= |order|
    ensures DumpText(d, order[..n]) <= DumpText(d, order)
    decreases |order|
  {
    if n < |order| {
      var init := order[..|order| - 1];
      assert order[..n] == init[..n];
      DumpTextPrefix(d, init, n);
    } else {
      assert order[..n] == order;
    }
  }

  /** Whatever the order, the listing holds the block of every session it visits. */
  lemma DumpHolds(d: Sessions, order: seq<nat>)
    requires forall i :: 0 <= i < |order| ==> order[i] in d
    ensures forall k :: 0 <= k < |order| ==> Contains(DumpText(d, order), SessionBlock(order[k], d[order[k]]))
  {
    forall k | 0 <= k < |order|
      ensures Contains(DumpText(d, order), SessionBlock(order[k], d[order[k]]))
    {
      DumpHoldsAt(d, order, k);
    }
  }

  /** The block of the k-th session visited starts where the listing of the first k ends. */
  lemma DumpHoldsAt(d: Sessions, order: seq<nat>, k: nat)
    requires forall i :: 0 <= i < |order| ==> order[i] in d
    requires k < |order|
    ensures OccursAt(DumpText(d, order), SessionBlock(order[k], d[order[k]]), |DumpText(d, order[..k])|)
  {
    var before := DumpText(d, order[..k]);
    var block := SessionBlock(order[k], d[order[k]]);
    assert DumpText(d, order[..k + 1]) == before + block by {
      assert order[..k + 1][..k] == order[..k];
    }
    DumpTextPrefix(d, order, k + 1);
    OccursAfterPrefix(before, block, DumpText(d, order));
  }

  /** The lines of a session's block: its header, then one line per tab in order. */
  function BlockLines(id: nat, w: Window): seq<string> {
    [Header(id, w)] + seq(|w.tabs|, i requires 0 <= i < |w.tabs| => TabLine(w.tabs[i]))
  }

  /** Tab names hold no newline: tmux's window names as read from its one-line-per-window listing. */
  predicate OneLineNames(tabs: seq<Tab>) {
    forall i :: 0 <= i < |tabs| ==> '\n' !in tabs[i].name
  }

  /** Tab lines read back line by line are the tabs' lines, in order. */
  lemma {:induction false} TabLinesSplit(tabs: seq<Tab>, rest: string)
    requires OneLineNames(tabs)
    ensures Split(TabLines(tabs) + rest) == seq(|tabs|, i requires 0 <= i < |tabs| => TabLine(tabs[i])) + Split(rest)
  {
    if tabs == [] {
      assert TabLines(tabs) + rest == rest;
    } else {
      var init := tabs[..|tabs| - 1];
      var t := tabs[|tabs| - 1];
      var line := TabLine(t);
      OneLineNamesSnoc(tabs);
      TabLineOneLine(t);
      assert TabLines(tabs) + rest == TabLines(init) + (line + "\n" + rest);
      TabLinesSplit(init, line + "\n" + rest);
      SplitFirstLine(line, rest);
      TabLineSeqSnoc(tabs);
    }
  }

  /** All but the last of one-line names are one-line names, and so is the last. */
  lemma OneLineNamesSnoc(tabs: seq<Tab>)
    requires tabs != [] && OneLineNames(tabs)
    ensures OneLineNames(tabs[..|tabs| - 1]) && '\n' !in tabs[|tabs| - 1].name
  {
    var init := tabs[..|tabs| - 1];
    forall i | 0 <= i < |init| ensures '\n' !in init[i].name {
      assert init[i] == tabs[i];
    }
  }

  /** A tab with a one-line name prints on one line. */
  lemma TabLineOneLine(t: Tab)
    requires '\n' !in t.name
    ensures '\n' !in TabLine(t)
  {
    DigitsAvoid(DecimalString(t.number), '\n');
  }

  /** The lines of all the tabs are the lines of all but the last, then the last one's. */
  lemma TabLineSeqSnoc(tabs: seq<Tab>)
    requires tabs != []
    ensures seq(|tabs|, i requires 0 <= i < |tabs| => TabLine(tabs[i])) ==
      seq(|tabs| - 1, i requires 0 <= i < |tabs| - 1 => TabLine(tabs[..|tabs| - 1][i])) + [TabLine(tabs[|tabs| - 1])]
  {
  }

  /** A session's block read back line by line is its header followed by its tab lines:
      `Session: <id>`, ` (attached)` exactly when attached, then `  <number>: <name>` per tab. */
  lemma BlockSplit(id: nat, w: Window, rest: string)
    requires OneLineNames(w.tabs)
    ensures Split(SessionBlock(id, w) + rest) == BlockLines(id, w) + Split(rest)
  {
    DigitsAvoid(DecimalString(id), '\n');
    assert SessionBlock(id, w) + rest == Header(id, w) + "\n" + (TabLines(w.tabs) + rest);
    SplitFirstLine(Header(id, w), TabLines(w.tabs) + rest);
    TabLinesSplit(w.tabs, rest);
  }

  /** The lines of the blocks of the sessions in `order`. */
  function DumpLines(d: Sessions, order: seq<nat>): seq<string>
    requires forall i :: 0 <= i < |order| ==> order[i] in d
  {
    if order == [] then []
    else DumpLines(d, order[..|order| - 1]) + BlockLines(order[|order| - 1], d[order[|order| - 1]])
  }

  /** No tab name in the directory holds a newline. */
  predicate OneLineDirectory(d: Sessions) {
    forall id :: id in d ==> OneLineNames(d[id].tabs)
  }

  /** The whole listing read back line by line is the sessions' blocks, one after the other,
      each a header and then one line per tab. */
  lemma {:induction false} DumpSplit(d: Sessions, order: seq<nat>, rest: string)
    requires forall i :: 0 <= i < |order| ==> order[i] in d
    requires OneLineDirectory(d)
    ensures Split(DumpText(d, order) + rest) == DumpLines(d, order) + Split(rest)
  {
    if order == [] {
      assert DumpText(d, order) + rest == rest;
    } else {
      var init := order[..|order| - 1];
      var id := order[|order| - 1];
      assert DumpText(d, order) + rest == DumpText(d, init) + (SessionBlock(id, d[id]) + rest);
      DumpSplit(d, init, SessionBlock(id, d[id]) + rest);
      BlockSplit(id, d[id], rest);
    }
  }

  /** Every tab of a built directory has a one-line name, so its listing reads back as above. */
  lemma BuiltOneLine(sessionOutput: string, windowOutput: string)
    requires Build(sessionOutput, windowOutput).Ok?
    ensures OneLineDirectory(Build(sessionOutput, windowOutput).value)
  {
    BuildShape(sessionOutput, windowOutput);
    var d := Build(sessionOutput, windowOutput).value;
    var wlines := UntilBlank(Split(windowOutput));
    var wrecs := WindowRecords(wlines).value;
    forall id, k | id in d && 0 <= k < |d[id].tabs|
      ensures '\n' !in d[id].tabs[k].name
    {
      var t := d[id].tabs[k];
      TabsOfMembers(wrecs, id, t);
      var i :| 0 <= i < |wrecs| && wrecs[i] == WindowRecord(id, t);
      ParseAllSpec(wlines, ParseWindowLine);
      assert ParseWindowLine(wlines[i]) == Ok(wrecs[i]);
      ParsedNameOneLine(wlines[i]);
    }
  }

  // ----- get and attach -----

  /** The `move-window -s` target of a tab: `<session id>:<window index>`. */
  function WindowTarget(id: nat, number: nat): string {
    DecimalString(id) + ":" + DecimalString(number)
  }

  /** The `attach-session -t` target of a session: its id. */
  function SessionTarget(id: nat): string {
    DecimalString(id)
  }

  /** `get_cmd`'s gates: exactly one session, holding exactly one tab; the target names
      that session and that tab's window index. */
  ghost function GetTarget(d: Sessions): Result<string> {
    if |d| != 1 then Err(NotSingleSession(|d|))
    else
      var id :| id in d;
      if |d[id].tabs| != 1 then Err(NotSingleTab(|d[id].tabs|))
      else Ok(WindowTarget(id, d[id].tabs[0].number))
  }

  /** `attach_cmd`'s gate: exactly one session; the target is its id. */
  ghost function AttachTarget(d: Sessions): Result<string> {
    if |d| != 1 then Err(NotSingleSession(|d|))
    else
      var id :| id in d;
      Ok(SessionTarget(id))
  }

  /** A one-entry map has no other key. */
  lemma OnlyKey(d: Sessions, id: nat)
    requires |d| == 1 && id in d
    ensures d.Keys == {id}
  {
    var others := d.Keys - {id};
    assert d.Keys == others + {id};
    assert |others| == 0;
  }

  /** Getting succeeds exactly on a directory of one session with one tab, and then names
      that tab. */
  lemma GetTargetSpec(d: Sessions)
    ensures GetTarget(d).Ok? <==> |d| == 1 && forall id :: id in d ==> |d[id].tabs| == 1
    ensures forall id :: id in d && |d| == 1 && |d[id].tabs| == 1 ==>
      GetTarget(d) == Ok(WindowTarget(id, d[id].tabs[0].number))
  {
    if |d| == 1 {
      var id :| id in d;
      OnlyKey(d, id);
    }
  }

  /** Attaching succeeds exactly on a directory of one session, and then names it. */
  lemma AttachTargetSpec(d: Sessions)
    ensures AttachTarget(d).Ok? <==> |d| == 1
    ensures forall id :: id in d && |d| == 1 ==> AttachTarget(d) == Ok(SessionTarget(id))
  {
    if |d| == 1 {
      var id :| id in d;
      OnlyKey(d, id);
    }
  }

  /** The pattern `\d+:\d+` a window target follows. */
  const TargetPattern: Pattern.Pattern := [Pattern.Number, Pattern.Literal(":"), Pattern.Number]

  /** A window target reads back as the session id and the window index it names, so two
      different tabs never share a target. */
  lemma WindowTargetRoundTrip(id: nat, number: nat)
    ensures Pattern.Match(TargetPattern, WindowTarget(id, number)) ==
      Some(([DecimalString(id), DecimalString(number)], ""))
    ensures DecimalValue(DecimalString(id)) == id && DecimalValue(DecimalString(number)) == number
  {
    var g := [DecimalString(id), DecimalString(number)];
    assert Pattern.Render(TargetPattern[2..], g[1..], "") == g[1];
    assert Pattern.Render(TargetPattern[1..], g[1..], "") == ":" + g[1];
    assert Pattern.Render(TargetPattern, g, "") == WindowTarget(id, number);
    Pattern.MatchRender(TargetPattern, g, "");
    DecimalRoundTrip(id);
    DecimalRoundTrip(number);
  }

  /** Different tabs have different targets. */
  lemma WindowTargetInjective(id: nat, number: nat, id': nat, number': nat)
    requires WindowTarget(id, number) == WindowTarget(id', number')
    ensures id == id' && number == number'
  {
    WindowTargetRoundTrip(id, number);
    WindowTargetRoundTrip(id', number');
  }

  /** A listing of the keys of `d`: each exactly once, in some order. */
  ghost predicate Lists(d: Sessions, order: seq<nat>) {
    (forall i :: 0 <= i < |order| ==> order[i] in d) &&
    (forall id :: id in d ==> id in order) &&
    (forall i, j :: 0 <= i < j < |order| ==> order[i] != order[j])
  }

  /** A listing that visits every session holds every session's block. */
  lemma DumpListsAll(d: Sessions, order: seq<nat>)
    requires Lists(d, order)
    ensures forall id :: id in d ==> Contains(DumpText(d, order), SessionBlock(id, d[id]))
  {
    DumpHolds(d, order);
    forall id | id in d
      ensures Contains(DumpText(d, order), SessionBlock(id, d[id]))
    {
      var k :| 0 <= k < |order| && order[k] == id;
    }
  }

  // ----- the directory, updated in place -----

  /** `WindowList` (a `HashMap<usize, Window>`) and the `WindowSearch` methods on it. */
  class WindowList {
    var sessions: Sessions

    /** `HashMap::new()`. */
    constructor ()
      ensures sessions == map[]
    {
      sessions := map[];
    }

    /** `populate`, given the output of `tmux list-windows -a`: reads lines up to the first
        empty one, appending each line's tab to the session it names. The state after a
        failure is left unspecified. */
    method Populate(windowOutput: string) returns (r: Result<()>)
      modifies this
      ensures var expected := Populated(ParseWindowLine, old(sessions), UntilBlank(Split(windowOutput)));
        match expected
        case Ok(d) => r.Ok? && sessions == d
        case Err(e) => r == Err(e)
    {
      var lines := Split(windowOutput);
      ghost var d0 := sessions;
      var i := 0;
      while i < |lines|
        invariant i <= |lines|
        invariant forall k :: 0 <= k < i ==> lines[k] != ""
        invariant Populated(ParseWindowLine, d0, lines[..i]) == Ok(sessions)
      {
        var line := lines[i];
        if line == "" {
          UntilBlankAt(lines, i);
          return Ok(());
        }
        var parsed := ParseWindowLine(line);
        if parsed.Err? {
          PopulatedStep(ParseWindowLine, d0, lines, i);
          PopulatedStopsAt(ParseWindowLine, d0, lines, i);
          return Err(parsed.error);
        }
        var rec := parsed.value;
        if rec.session !in sessions {
          PopulatedStep(ParseWindowLine, d0, lines, i);
          PopulatedStopsAt(ParseWindowLine, d0, lines, i);
          return Err(UnknownSession(rec.session));
        }
        PopulatedPush(ParseWindowLine, d0, lines, i, sessions, rec);
        PushTab(rec.session, rec.tab);
        assert forall k :: 0 <= k < i + 1 ==> lines[k] != "" by {
          assert lines[i] != "";
        }
        i := i + 1;
      }
      UntilBlankAt(lines, i);
      assert lines[..i] == lines;
      return Ok(());
    }

    /** `get_mut(&id).unwrap().push(tab)`: the tab goes last in session `id`, which must be
        present, and no other session changes. */
    method PushTab(id: nat, tab: Tab)
      requires id in sessions
      modifies this
      ensures sessions == PushedTo(old(sessions), id, tab)
    {
      sessions := sessions[id := sessions[id].Push(tab)];
    }

    /** `select_tabs`: a fresh directory holding, for each session, the tabs whose name
        contains `term`; the receiver is not changed. */
    method SelectTabs(term: string) returns (out: WindowList)
      ensures fresh(out) && out.sessions == Selected(sessions, term)
    {
      out := new WindowList();
      var keys := sessions.Keys;
      while keys != {}
        invariant keys <= sessions.Keys
        invariant fresh(out)
        invariant forall id :: id in out.sessions <==>
          id in sessions && id !in keys && Matching(sessions[id].tabs, term) != []
        invariant forall id :: id in out.sessions ==>
          out.sessions[id] == Window(Matching(sessions[id].tabs, term), sessions[id].attached)
        decreases keys
      {
        var idx :| idx in keys;
        var win := SelectWindow(sessions[idx], term);
        if !win.IsEmpty() {
          out.sessions := out.sessions[idx := win];
        }
        keys := keys - {idx};
      }
    }

    /** `dump`: the listing of every session, in the map's iteration order `order`. */
    method Dump() returns (text: string, ghost order: seq<nat>)
      ensures forall id :: id in sessions ==> Contains(text, SessionBlock(id, sessions[id]))
      ensures Lists(sessions, order)
      ensures text == DumpText(sessions, order)
    {
      text := "";
      order := [];
      var keys := sessions.Keys;
      while keys != {}
        invariant keys <= sessions.Keys
        invariant forall i :: 0 <= i < |order| ==> order[i] in sessions && order[i] !in keys
        invariant forall id :: id in sessions && id !in keys ==> id in order
        invariant forall i, j :: 0 <= i < j < |order| ==> order[i] != order[j]
        invariant text == DumpText(sessions, order)
        decreases keys
      {
        var idx :| idx in keys;
        var block := WriteSession(idx, sessions[idx]);
        assert (order + [idx])[..|order|] == order;
        text := text + block;
        order := order + [idx];
        keys := keys - {idx};
      }
      DumpListsAll(sessions, order);
    }

    /** `get_cmd`: the `move-window -s` target, when the directory holds exactly one session
        with exactly one tab. */
    method GetCmd() returns (r: Result<string>)
      ensures r == GetTarget(sessions)
    {
      GetTargetSpec(sessions);
      if |sessions| != 1 {
        return Err(NotSingleSession(|sessions|));
      }
      var idx :| idx in sessions;
      var window := sessions[idx];
      if |window.tabs| != 1 {
        OnlyKey(sessions, idx);
        return Err(NotSingleTab(|window.tabs|));
      }
      var tab := window.tabs[0];
      return Ok(WindowTarget(idx, tab.number));
    }

    /** `attach_cmd`: the `attach-session -t` target, when the directory holds exactly one
        session. */
    method AttachCmd() returns (r: Result<string>)
      ensures r == AttachTarget(sessions)
    {
      AttachTargetSpec(sessions);
      if |sessions| != 1 {
        return Err(NotSingleSession(|sessions|));
      }
      var idx :| idx in sessions;
      return Ok(SessionTarget(idx));
    }
  }

  /** The body of `select_tabs`'s loop for one session: a fresh session with the same
      attached flag, holding a clone of each tab whose name contains `term`. */
  method SelectWindow(window: Window, term: string) returns (win: Window)
    ensures win == Window(Matching(window.tabs, term), window.attached)
  {
    win := Window([], window.attached);
    var j := 0;
    while j < |window.tabs|
      invariant j <= |window.tabs|
      invariant win == Window(Matching(window.tabs[..j], term), window.attached)
    {
      var tab := window.tabs[j];
      MatchingStep(window.tabs, j, term);
      if Find(tab.name, term).Some? {
        win := win.Push(tab);
      }
      j := j + 1;
    }
    assert window.tabs[..j] == window.tabs;
  }

  /** The body of `dump`'s loop for one session: the header line, then a line per tab. */
  method WriteSession(idx: nat, window: Window) returns (text: string)
    ensures text == SessionBlock(idx, window)
  {
    text := "Session: " + DecimalString(idx);
    if window.attached {
      text := text + " (attached)";
    }
    text := text + "\n";
    var lines := "";
    var j := 0;
    while j < |window.tabs|
      invariant j <= |window.tabs|
      invariant lines == TabLines(window.tabs[..j])
    {
      var tab := window.tabs[j];
      assert window.tabs[..j + 1][..j] == window.tabs[..j];
      lines := lines + "  " + DecimalString(tab.number) + ": " + tab.name + "\n";
      j := j + 1;
    }
    assert window.tabs[..j] == window.tabs;
    text := text + lines;
  }

  /** `build_windowlist`, given the outputs of `tmux list-sessions -F ...` and
      `tmux list-windows -a`. */
  method BuildWindowList(sessionOutput: string, windowOutput: string) returns (r: Result<WindowList>)
    ensures match Build(sessionOutput, windowOutput)
      case Ok(d) => r.Ok? && fresh(r.value) && r.value.sessions == d
      case Err(e) => r == Err(e)
  {
    var windows := new WindowList();
    var lines := Split(sessionOutput);
    ghost var recs: seq<SessionRecord> := [];
    var i := 0;
    while i < |lines|
      invariant i <= |lines|
      invariant forall k :: 0 <= k < i ==> lines[k] != ""
      invariant ParseAll(lines[..i], ParseSessionLine) == Ok(recs)
      invariant windows.sessions == Skeleton(recs)
    {
      if lines[i] == "" {
        break;
      }
      var parsed := ParseSessionLine(lines[i]);
      if parsed.Err? {
        ParseAllStopsAt(lines, i, ParseSessionLine);
        return Err(parsed.error);
      }
      var rec := parsed.value;
      ParseAllOkStep(lines, i, ParseSessionLine, rec);
      SkeletonStep(recs, rec);
      windows.sessions := windows.sessions[rec.id := Window([], rec.attached)];
      recs := recs + [rec];
      assert forall k :: 0 <= k < i + 1 ==> lines[k] != "" by {
        assert lines[i] != "";
      }
      i := i + 1;
    }
    UntilBlankAt(lines, i);
    BuildFrom(sessionOutput, windowOutput, recs);
    var populated := windows.Populate(windowOutput);
    if populated.Err? {
      return Err(populated.error);
    }
    return Ok(windows);
  }
}
