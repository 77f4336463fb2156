/** The older listing program (src/tinfo.rs): a single pass over `tmux list-windows -a`
    output that creates each session the first time a window line names it, and the same
    tab filter without the attached flag. */
module Tinfo {
  import opened Errors
  import opened Text
  import opened Grammar
  import opened Search
  import Listing

  /** A session of the older program: its tabs in listing order. */
  datatype Window = Window(tabs: seq<Tab>) {
    /** `Window::push`: the tab goes last and every earlier tab stays. */
    function Push(tab: Tab): (w: Window)
      ensures |w.tabs| == |tabs| + 1 && w.tabs[..|tabs|] == tabs && w.tabs[|tabs|] == tab
    {
      Window(tabs + [tab])
    }

    /** `Window::empty`: the session holds no tab at all. */
    predicate Empty(): (e: bool)
      ensures e <==> forall t :: t !in tabs
    {
      if |tabs| == 0 then true else assert tabs[0] in tabs; false
    }
  }

  /** The directory: session id to session (`HashMap<uint, Window>`). */
  type Sessions = map<nat, Window>

  /** `Tab::clone`, which rebuilds the tab through `Tab::new`. */
  function CloneTab(t: Tab): (c: Tab)
    ensures c == t
  {
    Tab(t.name, t.number, t.panes)
  }

  /** `insert_or_push` on a value: push onto the session if it exists, otherwise create it
      holding just this tab. */
  function Pushed(d: Sessions, win: nat, tab: Tab): Sessions {
    if win in d then d[win := d[win].Push(tab)] else d[win := Window([tab])]
  }

  /** Pushing onto an existing session appends the tab to its end; onto a missing one adds
      exactly that key with the single tab; every other entry is unchanged. */
  lemma PushedSpec(d: Sessions, win: nat, tab: Tab)
    ensures Pushed(d, win, tab).Keys == d.Keys + {win}
    ensures win in d ==> Pushed(d, win, tab)[win].tabs == d[win].tabs + [tab]
    ensures win !in d ==> Pushed(d, win, tab)[win].tabs == [tab]
    ensures forall id :: id in d && id != win ==> Pushed(d, win, tab)[id] == d[id]
  {
  }

  /** The directory the records build, one `insert_or_push` per record from an empty map. */
  function Collected(recs: seq<WindowRecord>): Sessions {
    if recs == [] then map[]
    else
      var last := recs[|recs| - 1];
      Pushed(Collected(recs[..|recs| - 1]), last.session, last.tab)
  }

  /** The sessions are exactly the ids the records name, and each holds the tabs of the
      records naming it, in record order. */
  lemma {:induction false} CollectedShape(recs: seq<WindowRecord>)
    ensures Collected(recs).Keys == SessionIds(recs)
    ensures forall id :: id in Collected(recs) ==> Collected(recs)[id].tabs == TabsOf(recs, id)
  {
    if recs != [] {
      var init := recs[..|recs| - 1];
      var last := recs[|recs| - 1];
      CollectedShape(init);
      SessionIdsSnoc(init, last);
      assert recs == init + [last];
      forall id | id in Collected(recs)
        ensures Collected(recs)[id].tabs == TabsOf(recs, id)
      {
        if id !in Collected(init) {
          assert id == last.session;
          assert TabsOf(init, id) == [] by {
            TabsOfEmpty(init, id);
          }
        }
      }
    }
  }

  /** The number of tabs over all sessions. */
  ghost function TabCount(d: Sessions): nat
    decreases |d|
  {
    if d == map[] then 0
    else
      var id :| id in d;
      |d[id].tabs| + TabCount(d - {id})
  }

  /** The count may start from any session. */
  lemma {:induction false} TabCountRemove(d: Sessions, id: nat)
    requires id in d
    ensures TabCount(d) == |d[id].tabs| + TabCount(d - {id})
    decreases |d|
  {
    var k :| k in d && TabCount(d) == |d[k].tabs| + TabCount(d - {k});
    if k != id {
      assert |d - {k}| == |d| - 1 by {
        assert (d - {k}).Keys == d.Keys - {k};
      }
      assert |d - {id}| == |d| - 1 by {
        assert (d - {id}).Keys == d.Keys - {id};
      }
      TabCountRemove(d - {k}, id);
      TabCountRemove(d - {id}, k);
      assert (d - {k}) - {id} == (d - {id}) - {k};
    }
  }

  /** Pushing a tab adds one to the count. */
  lemma TabCountPushed(d: Sessions, win: nat, tab: Tab)
    ensures TabCount(Pushed(d, win, tab)) == TabCount(d) + 1
  {
    var p := Pushed(d, win, tab);
    TabCountRemove(p, win);
    assert p - {win} == d - {win};
    if win in d {
      TabCountRemove(d, win);
    } else {
      assert d - {win} == d;
    }
  }

  /** The directory holds one tab per record. */
  lemma {:induction false} CollectedCount(recs: seq<WindowRecord>)
    ensures TabCount(Collected(recs)) == |recs|
  {
    if recs != [] {
      var last := recs[|recs| - 1];
      CollectedCount(recs[..|recs| - 1]);
      TabCountPushed(Collected(recs[..|recs| - 1]), last.session, last.tab);
    }
  }

  /** `output_to_windows`'s loop over the lines it reads: each line parsed and its tab
      pushed onto its session, or the error of the first line that does not parse. */
  function Gathered(parse: LineParser, lines: seq<string>): Result<Sessions> {
    if lines == [] then Ok(map[])
    else
      var prev :- Gathered(parse, lines[..|lines| - 1]);
      var rec :- parse(lines[|lines| - 1]);
      Ok(Pushed(prev, rec.session, rec.tab))
  }

  /** Gathering is parsing every line and then building the directory from the records. */
  lemma {:induction false} GatheredParsed(parse: LineParser, lines: seq<string>)
    ensures Gathered(parse, lines) ==
      match ParseAll(lines, parse)
      case Ok(recs) => Ok(Collected(recs))
      case Err(e) => Err(e)
  {
    if lines != [] {
      var init := lines[..|lines| - 1];
      GatheredParsed(parse, init);
      if ParseAll(init, parse).Ok? && parse(lines[|lines| - 1]).Ok? {
        var recs := ParseAll(init, parse).value;
        var rec := parse(lines[|lines| - 1]).value;
        assert (recs + [rec])[..|recs|] == recs;
      }
    }
  }

  /** One more line parsed: its tab pushed onto its session. */
  lemma GatheredStep(parse: LineParser, lines: seq<string>, i: nat, rec: WindowRecord)
    requires i < |lines| && Gathered(parse, lines[..i]).Ok? && parse(lines[i]) == Ok(rec)
    ensures Gathered(parse, lines[..i + 1]) == Ok(Pushed(Gathered(parse, lines[..i]).value, rec.session, rec.tab))
  {
    assert lines[..i + 1][..i] == lines[..i];
  }

  /** A line that fails to parse, before any empty line, is where gathering the lines up to
      the first empty one fails. */
  lemma GatheredStopsAt(parse: LineParser, lines: seq<string>, i: nat)
    requires i < |lines| && forall k :: 0 <= k <= i ==> lines[k] != ""
    requires Gathered(parse, lines[..i]).Ok? && parse(lines[i]).Err?
    ensures Gathered(parse, UntilBlank(lines)) == Err(parse(lines[i]).error)
  {
    GatheredParsed(parse, lines[..i]);
    ParseAllStopsAt(lines, i, parse);
    GatheredParsed(parse, UntilBlank(lines));
  }

  /** `output_to_windows`: the window lines up to the first empty one, each parsed and
      pushed onto its session. */
  function Collect(output: string): Result<Sessions> {
    Gathered(ParseWindowLine, UntilBlank(Split(output)))
  }

  /** A collected directory holds exactly the sessions the window lines name, one tab per
      line, each session's tabs in line order; collecting fails with the error of the first
      line that does not parse. */
  lemma CollectShape(output: string)
    ensures var recs := WindowRecords(UntilBlank(Split(output)));
      (Collect(output).Ok? <==> recs.Ok?) &&
      (recs.Err? ==> Collect(output) == Err(recs.error)) &&
      (recs.Ok? ==> var d := Collect(output).value;
        d.Keys == SessionIds(recs.value) && TabCount(d) == |recs.value| &&
        forall id :: id in d ==> d[id].tabs == TabsOf(recs.value, id))
  {
    var recs := WindowRecords(UntilBlank(Split(output)));
    GatheredParsed(ParseWindowLine, UntilBlank(Split(output)));
    if recs.Ok? {
      CollectedShape(recs.value);
      CollectedCount(recs.value);
    }
  }

  /** `select_tabs`: each session cut down to the tabs whose name contains `term`; sessions
      left with no tab are dropped. */
  function Selected(d: Sessions, term: string): Sessions {
    map id | id in d && Matching(d[id].tabs, term) != [] :: Window(Matching(d[id].tabs, term))
  }

  /** A tab is in a selected session exactly when it was in that session and its name
      contains the term; a session is selected exactly when it keeps a tab. */
  lemma SelectedMembers(d: Sessions, term: string, id: nat, t: Tab)
    ensures id in Selected(d, term) <==> id in d && exists i :: 0 <= i < |d[id].tabs| && Contains(d[id].tabs[i].name, term)
    ensures id in Selected(d, term) ==> (t in Selected(d, term)[id].tabs <==> t in d[id].tabs && Contains(t.name, term))
  {
    if id in d {
      MatchingEmpty(d[id].tabs, term);
      MatchingMembers(d[id].tabs, term, t);
    }
  }

  /** Selecting again with the same term changes nothing, and no selected session is empty. */
  lemma SelectedIdempotent(d: Sessions, term: string)
    ensures Selected(Selected(d, term), term) == Selected(d, term)
    ensures forall id :: id in Selected(d, term) ==> !Selected(d, term)[id].Empty()
  {
    var s := Selected(d, term);
    forall id | id in s ensures Matching(s[id].tabs, term) == s[id].tabs {
      MatchingIdempotent(d[id].tabs, term);
    }
  }

  /** Both versions give each session that has windows the same tabs: the current version
      differs only in refusing window lines of sessions it was not told about. */
  lemma VersionsAgree(sessionOutput: string, windowOutput: string)
    requires Listing.Build(sessionOutput, windowOutput).Ok?
    ensures Collect(windowOutput).Ok?
    ensures var current := Listing.Build(sessionOutput, windowOutput).value;
      var older := Collect(windowOutput).value;
      older.Keys <= current.Keys &&
      (forall id :: id in older ==> current[id].tabs == older[id].tabs) &&
      (forall id :: id in current && id !in older ==> current[id].tabs == [])
  {
    var srecs := ParseAll(UntilBlank(Split(sessionOutput)), ParseSessionLine).value;
    var wlines := UntilBlank(Split(windowOutput));
    var skeleton := Listing.Skeleton(srecs);
    assert Listing.Build(sessionOutput, windowOutput) == Listing.Populated(ParseWindowLine, skeleton, wlines);
    Listing.SkeletonKeys(srecs);
    Listing.PopulatedShape(ParseWindowLine, skeleton, wlines);
    var recs := WindowRecords(wlines).value;
    GatheredParsed(ParseWindowLine, wlines);
    CollectedShape(recs);
    forall id | id in skeleton && id !in SessionIds(recs)
      ensures TabsOf(recs, id) == []
    {
      TabsOfEmpty(recs, id);
    }
  }

  // ----- the directory, updated in place -----

  /** `WindowList` (a `HashMap<uint, Window>`) and the `WindowSearch` methods on it. */
  class WindowList {
    var sessions: Sessions

    /** `HashMap::new()`. */
    constructor ()
      ensures sessions == map[]
    {
      sessions := map[];
    }

    /** `insert_or_push`. */
    method InsertOrPush(win: nat, tab: Tab)
      modifies this
      ensures sessions == Pushed(old(sessions), win, tab)
    {
      if win in sessions {
        sessions := sessions[win := sessions[win].Push(tab)];
      } else {
        sessions := sessions[win := Window([tab])];
      }
    }

    /** `select_tabs`: a fresh directory holding, for each session, the tabs whose name
        contains `term`; the receiver is not changed. */
    method SelectTabs(term: string) returns (out: WindowList)
      ensures fresh(out) && out.sessions == Selected(sessions, term)
    {
      out := new WindowList();
      var keys := sessions.Keys;
      while keys != {}
        invariant keys <= sessions.Keys
        invariant fresh(out)
        invariant forall id :: id in out.sessions <==>
          id in sessions && id !in keys && Matching(sessions[id].tabs, term) != []
        invariant forall id :: id in out.sessions ==> out.sessions[id] == Window(Matching(sessions[id].tabs, term))
        decreases keys
      {
        var idx :| idx in keys;
        var win := SelectWindow(sessions[idx], term);
        if !win.Empty() {
          out.sessions := out.sessions[idx := win];
        }
        keys := keys - {idx};
      }
    }
  }

  /** The body of `select_tabs`'s loop for one session: a fresh session holding a clone of
      each tab whose name contains `term`. */
  method SelectWindow(window: Window, term: string) returns (win: Window)
    ensures win == Window(Matching(window.tabs, term))
  {
    win := Window([]);
    var j := 0;
    while j < |window.tabs|
      invariant j <= |window.tabs|
      invariant win == Window(Matching(window.tabs[..j], term))
    {
      var tab := window.tabs[j];
      MatchingStep(window.tabs, j, term);
      if Find(tab.name, term).Some? {
        win := win.Push(CloneTab(tab));
      }
      j := j + 1;
    }
    assert window.tabs[..j] == window.tabs;
  }

  /** `output_to_windows`, given the output of `tmux list-windows -a`. */
  method OutputToWindows(rdr: string) returns (r: Result<WindowList>)
    ensures match Collect(rdr)
      case Ok(d) => r.Ok? && fresh(r.value) && r.value.sessions == d
      case Err(e) => r == Err(e)
  {
    var windows := new WindowList();
    var lines := Split(rdr);
    var i := 0;
    while i < |lines|
      invariant i <= |lines|
      invariant forall k :: 0 <= k < i ==> lines[k] != ""
      invariant Gathered(ParseWindowLine, lines[..i]) == Ok(windows.sessions)
    {
      var line := lines[i];
      if line == "" {
        UntilBlankAt(lines, i);
        return Ok(windows);
      }
      var parsed := ParseWindowLine(line);
      if parsed.Err? {
        GatheredStopsAt(ParseWindowLine, lines, i);
        return Err(parsed.error);
      }
      var rec := parsed.value;
      GatheredStep(ParseWindowLine, lines, i, rec);
      windows.InsertOrPush(rec.session, rec.tab);
      assert forall k :: 0 <= k < i + 1 ==> lines[k] != "" by {
        assert lines[i] != "";
      }
      i := i + 1;
    }
    UntilBlankAt(lines, i);
    assert lines[..i] == lines;
    return Ok(windows);
  }
}
