/** The two line grammars of tmux's listings.

    Session lines follow `^(\d+) (\d+) (\d+)` and window lines follow
    `^(\d+):(\d+): (.*) \((\d+) panes\) \[(\d+)x(\d+)\]`. Neither pattern is
    anchored at the end, so any text may follow a match. `\d` is taken to be
    an ASCII digit, and `.` is any character but a newline. The window name's
    `(.*)` is greedy: it stops at the LAST place on the line where the
    pane-count suffix still matches. */
module Grammar {
  import opened Errors
  import opened Text
  import opened Pattern

  /** `^(\d+) (\d+) (\d+)`: session id, window count, attached count. */
  const SessionPattern: Pattern := [Number, Literal(" "), Number, Literal(" "), Number]

  /** `^(\d+):(\d+): `, the part of a window line before the name. */
  const WindowHead: Pattern := [Number, Literal(":"), Number, Literal(": ")]

  /** ` \((\d+) panes\) \[(\d+)x(\d+)\]`, the part of a window line after the name. */
  const TailPattern: Pattern :=
    [Literal(" ("), Number, Literal(" panes) ["), Number, Literal("x"), Number, Literal("]")]

  /** One window of a session ("tab"): its name, its index and its pane count. */
  datatype Tab = Tab(name: string, number: nat, panes: nat)

  // ----- session lines -----

  /** What a session line yields: its id, the window count (a capacity hint) and the attached flag. */
  datatype SessionRecord = SessionRecord(id: nat, windows: nat, attached: bool)

  /** One session line: the three numbers (each must fit a usize), the attached flag
      being "the third number is not zero". */
  function ParseSessionLine(line: string): (r: Result<SessionRecord>)
    ensures r == Err(NoMatch(line)) <==> Match(SessionPattern, line).None?
    ensures r.Ok? <==> (Match(SessionPattern, line).Some? &&
      var g := Match(SessionPattern, line).value.0;
      FitsUsize(g[0]) && FitsUsize(g[1]) && FitsUsize(g[2]))
    ensures r.Ok? ==> (Match(SessionPattern, line).Some? &&
      var g := Match(SessionPattern, line).value.0;
      r.value == SessionRecord(DecimalValue(g[0]), DecimalValue(g[1]), DecimalValue(g[2]) > 0))
    ensures r.Err? && Match(SessionPattern, line).Some? ==>
      r.error.TooLarge? && r.error.digits in Match(SessionPattern, line).value.0 && !FitsUsize(r.error.digits)
  {
    match Match(SessionPattern, line)
    case None => Err(NoMatch(line))
    case Some((g, _)) =>
      assert DigitRun(g[0]) && DigitRun(g[1]) && DigitRun(g[2]);
      var id :- ParseUsize(g[0]);
      var windows :- ParseUsize(g[1]);
      var attached :- ParseUsize(g[2]);
      Ok(SessionRecord(id, windows, attached > 0))
  }

  /** The session line tmux prints for the format `#{session_name} #{session_windows}
      #{session_attached}` when the session name is its numeric id. */
  function SessionLineText(id: nat, windows: nat, attached: nat): string {
    Render(SessionPattern, [DecimalString(id), DecimalString(windows), DecimalString(attached)], "")
  }

  /** A printed session line, followed by any text that does not extend the third number,
      parses back to its id, its window count and "attached > 0". */
  lemma SessionLineRoundTrip(id: nat, windows: nat, attached: nat, rest: string)
    requires id <= USIZE_MAX && windows <= USIZE_MAX && attached <= USIZE_MAX
    requires rest == [] || !IsDigit(rest[0])
    ensures ParseSessionLine(SessionLineText(id, windows, attached) + rest)
         == Ok(SessionRecord(id, windows, attached > 0))
  {
    var g := [DecimalString(id), DecimalString(windows), DecimalString(attached)];
    RenderAppend(SessionPattern, g, "", rest);
    assert "" + rest == rest;
    MatchRender(SessionPattern, g, rest);
    DecimalRoundTrip(id);
    DecimalRoundTrip(windows);
    DecimalRoundTrip(attached);
  }

  // ----- window lines -----

  /** The suffix matches at offset `k` of `s`. */
  predicate TailAt(s: string, k: nat)
    requires k <= |s|
  {
    Match(TailPattern, s[k..]).Some?
  }

  /** The last offset in `[0, q]` of `s` at which the suffix matches: where a greedy
      `(.*)` that starts at the beginning of `s` stops. */
  function LastTail(s: string, q: nat): (r: Option<nat>)
    requires q <= |s|
    ensures r.Some? ==> r.value <= q && TailAt(s, r.value)
    ensures r.Some? ==> forall k :: r.value < k <= q ==> !TailAt(s, k)
    ensures r.None? ==> forall k :: 0 <= k <= q ==> !TailAt(s, k)
  {
    if TailAt(s, q) then Some(q)
    else if q == 0 then None
    else LastTail(s, q - 1)
  }

  /** The groups of a window-line match, by name. */
  datatype WindowCaptures =
    WindowCaptures(session: string, index: string, name: string, panes: string, width: string, height: string)
  {
    function Head(): seq<string> {
      [session, index]
    }

    function Tail(): seq<string> {
      [panes, width, height]
    }
  }

  predicate ValidWindow(c: WindowCaptures) {
    AllRuns(c.Head()) && '\n' !in c.name && AllRuns(c.Tail())
  }

  /** The text from the name onwards: the name, the suffix and `rest`. */
  function NamedText(c: WindowCaptures, rest: string): string {
    c.name + Render(TailPattern, c.Tail(), rest)
  }

  /** The text a window-line match covers, followed by `rest`. */
  function WindowText(c: WindowCaptures, rest: string): string {
    Render(WindowHead, c.Head(), NamedText(c, rest))
  }

  /** The part of `WINDOW_RE` after `: `: the longest name on the line after which the
      suffix matches, the suffix's groups, and the text after the match. */
  function MatchNamed(named: string): (r: Option<(string, seq<string>, string)>)
    ensures r.Some? ==> '\n' !in r.value.0 && |r.value.1| == 3 && AllRuns(r.value.1)
    ensures r.Some? ==> named == r.value.0 + Render(TailPattern, r.value.1, r.value.2)
    ensures r.Some? ==> forall k :: |r.value.0| < k <= LineEnd(named) ==> !TailAt(named, k)
  {
    var end := LineEnd(named);
    match LastTail(named, end)
    case None => None
    case Some(p) =>
      var m := Match(TailPattern, named[p..]).value;
      assert '\n' !in named[..p] by {
        assert named[..p] == named[..end][..p];
      }
      assert named == named[..p] + named[p..];
      Some((named[..p], m.0, m.1))
  }

  /** `WINDOW_RE.captures(line)`: the head, then the longest name on the line after which
      the suffix matches, then the suffix; and the text after the match. */
  function MatchWindow(line: string): (r: Option<(WindowCaptures, string)>)
    ensures r.Some? ==> ValidWindow(r.value.0) && line == WindowText(r.value.0, r.value.1)
    ensures r.Some? ==>
      var named := NamedText(r.value.0, r.value.1);
      forall k :: |r.value.0.name| < k <= LineEnd(named) ==> !TailAt(named, k)
  {
    match Match(WindowHead, line)
    case None => None
    case Some((head, named)) =>
      match MatchNamed(named)
      case None => None
      case Some((name, tail, rest)) =>
        var c := WindowCaptures(head[0], head[1], name, tail[0], tail[1], tail[2]);
        assert c.Head() == head && c.Tail() == tail;
        Some((c, rest))
  }

  /** Text before its first newline holds no place where the suffix matches. */
  predicate NoTailIn(rest: string) {
    forall i :: 0 <= i <= LineEnd(rest) ==> !TailAt(rest, i)
  }

  /** The suffix spelled out. */
  lemma TailRender(t: seq<string>, rest: string)
    requires |t| == 3
    ensures Render(TailPattern, t, rest) == " (" + (t[0] + (" panes) [" + (t[1] + ("x" + (t[2] + ("]" + rest))))))
  {
    var p := TailPattern;
    assert Render(p[6..], t[3..], rest) == "]" + rest;
    assert Render(p[5..], t[2..], rest) == t[2] + ("]" + rest);
    assert Render(p[4..], t[2..], rest) == "x" + (t[2] + ("]" + rest));
    assert Render(p[3..], t[1..], rest) == t[1] + ("x" + (t[2] + ("]" + rest)));
    assert Render(p[2..], t[1..], rest) == " panes) [" + (t[1] + ("x" + (t[2] + ("]" + rest))));
    assert Render(p[1..], t, rest) == t[0] + (" panes) [" + (t[1] + ("x" + (t[2] + ("]" + rest)))));
  }

  /** Where the suffix matches, the text opens with " (". */
  lemma TailOpens(s: string)
    requires Match(TailPattern, s).Some?
    ensures |s| > 2 && s[0] == ' ' && s[1] == '('
  {
    var (t, rest) := Match(TailPattern, s).value;
    assert |t| == Groups(TailPattern) == 3;
    TailRender(t, rest);
    assert DigitRun(t[0]);
  }

  /** A written suffix holds no newline. */
  lemma TailNoNewline(t: seq<string>, rest: string, j: nat)
    requires |t| == 3 && AllRuns(t) && j < Width(TailPattern, t)
    ensures Render(TailPattern, t, rest)[j] != '\n'
  {
    RenderAppend(TailPattern, t, "", rest);
    assert "" + rest == rest;
    assert LiteralsAvoid(TailPattern, '\n');
    RenderAvoids(TailPattern, t, '\n');
    assert Render(TailPattern, t, rest)[j] == Render(TailPattern, t, "")[j];
  }

  /** A written suffix holds its only '(' at offset 1. */
  lemma TailParen(t: seq<string>, rest: string, j: nat)
    requires |t| == 3 && AllRuns(t) && 2 <= j < Width(TailPattern, t)
    ensures Render(TailPattern, t, rest)[j] != '('
  {
    var after := TailPattern[1..];
    var full := Render(TailPattern, t, rest);
    var tail := Render(after, t, rest);
    var body := Render(after, t, "");
    assert full == " (" + tail && Groups(after) == Groups(TailPattern) by {
      RenderLiteral(TailPattern, t, rest);
    }
    assert tail == body + rest by {
      RenderAppend(after, t, "", rest);
      assert "" + rest == rest;
    }
    assert j - 2 < |body| by {
      assert Width(TailPattern, t) == 2 + Width(after, t);
    }
    assert '(' !in body by {
      assert LiteralsAvoid(after, '(');
      RenderAvoids(after, t, '(');
    }
    assert full[j] == tail[j - 2];
    assert tail[j - 2] == body[j - 2];
  }

  /** A written suffix ends with ']'. */
  lemma TailBracket(t: seq<string>, rest: string)
    requires |t| == 3 && AllRuns(t)
    ensures Width(TailPattern, t) > 0 && Render(TailPattern, t, rest)[Width(TailPattern, t) - 1] == ']'
  {
    TailRender(t, rest);
  }

  /** Past its own start, a written suffix followed by text that holds no suffix offers
      no other place on the line for one. */
  lemma NoTailAfter(t: seq<string>, rest: string, k: nat)
    requires |t| == 3 && AllRuns(t) && NoTailIn(rest)
    requires 0 < k <= Width(TailPattern, t) + LineEnd(rest)
    ensures !TailAt(Render(TailPattern, t, rest), k)
  {
    var s := Render(TailPattern, t, rest);
    var n := Width(TailPattern, t);
    if k < n {
      NoTailInside(t, rest, k);
    } else {
      var written := Render(TailPattern, t, "");
      assert s == written + rest && |written| == n by {
        RenderAppend(TailPattern, t, "", rest);
        assert "" + rest == rest;
      }
      TailAtShift(written, rest, k);
      assert !TailAt(rest, k - n);
    }
  }

  /** Past the end of `a`, the suffix matches in `a + b` exactly where it matches in `b`. */
  lemma TailAtShift(a: string, b: string, k: nat)
    requires |a| <= k <= |a + b|
    ensures TailAt(a + b, k) == TailAt(b, k - |a|)
  {
    assert (a + b)[k..] == b[k - |a|..];
  }

  /** Inside a written suffix, past its start, the suffix cannot start again. */
  lemma NoTailInside(t: seq<string>, rest: string, k: nat)
    requires |t| == 3 && AllRuns(t)
    requires 0 < k < Width(TailPattern, t)
    ensures !TailAt(Render(TailPattern, t, rest), k)
  {
    var s := Render(TailPattern, t, rest);
    var n := Width(TailPattern, t);
    if TailAt(s, k) {
      TailOpens(s[k..]);
      assert s[k..][0] == s[k] && s[k..][1] == s[k + 1];
      if k + 1 < n {
        TailParen(t, rest, k + 1);
      } else {
        TailBracket(t, rest);
      }
    }
  }

  /** Past the end of the name, a written window line whose trailing text holds no suffix
      offers no other place on the line for one. */
  lemma NoTailAfterName(c: WindowCaptures, rest: string, k: nat)
    requires ValidWindow(c) && NoTailIn(rest)
    requires |c.name| < k <= LineEnd(NamedText(c, rest))
    ensures !TailAt(NamedText(c, rest), k)
  {
    var written := Render(TailPattern, c.Tail(), "");
    var tail := Render(TailPattern, c.Tail(), rest);
    RenderAppend(TailPattern, c.Tail(), "", rest);
    assert "" + rest == rest;
    assert '\n' !in written by {
      forall j | 0 <= j < |written| ensures written[j] != '\n' {
        TailNoNewline(c.Tail(), "", j);
      }
    }
    LineEndCat(c.name, tail);
    LineEndCat(written, rest);
    assert |tail| == |written| + |rest|;
    assert NamedText(c, rest)[k..] == tail[k - |c.name|..];
    NoTailAfter(c.Tail(), rest, k - |c.name|);
  }

  /** After a written name, the greedy search finds the written suffix or a later one. */
  lemma NamedFound(c: WindowCaptures, rest: string)
    requires ValidWindow(c)
    ensures MatchNamed(NamedText(c, rest)).Some?
  {
    var named := NamedText(c, rest);
    var p0 := |c.name|;
    assert named[p0..] == Render(TailPattern, c.Tail(), rest);
    MatchRender(TailPattern, c.Tail(), rest);
    LineEndCat(c.name, Render(TailPattern, c.Tail(), rest));
    assert TailAt(named, p0);
  }

  /** After a written name and suffix followed by text that holds no suffix, the greedy
      search stops exactly at the end of the name and yields the written groups. */
  lemma NamedExact(c: WindowCaptures, rest: string)
    requires ValidWindow(c) && NoTailIn(rest)
    ensures MatchNamed(NamedText(c, rest)) == Some((c.name, c.Tail(), rest))
  {
    var named := NamedText(c, rest);
    var q := LineEnd(named);
    var p0 := |c.name|;
    assert named[p0..] == Render(TailPattern, c.Tail(), rest);
    MatchRender(TailPattern, c.Tail(), rest);
    LineEndCat(c.name, Render(TailPattern, c.Tail(), rest));
    assert TailAt(named, p0);
    forall k | p0 < k <= q
      ensures !TailAt(named, k)
    {
      NoTailAfterName(c, rest, k);
    }
    assert LastTail(named, q) == Some(p0);
    assert named[..p0] == c.name;
  }

  /** A line that opens with a window-line text matches, whatever follows. */
  lemma MatchWindowFound(c: WindowCaptures, rest: string)
    requires ValidWindow(c)
    ensures MatchWindow(WindowText(c, rest)).Some?
  {
    MatchRender(WindowHead, c.Head(), NamedText(c, rest));
    NamedFound(c, rest);
  }

  /** The groups of a matched window-line text are exactly the ones it was written with,
      unless the text after it holds, on the same line, a second suffix, which the greedy
      name would swallow. */
  lemma MatchWindowComplete(c: WindowCaptures, rest: string)
    requires ValidWindow(c) && NoTailIn(rest)
    ensures MatchWindow(WindowText(c, rest)) == Some((c, rest))
  {
    MatchRender(WindowHead, c.Head(), NamedText(c, rest));
    NamedExact(c, rest);
  }

  /** Text appended after one rendering nested inside another, after a fixed infix, lands
      after both renderings' trailing text. */
  lemma RenderNestedAppend(outer: Pattern, og: seq<string>, infix: string, inner: Pattern,
                           ig: seq<string>, rest: string)
    requires |og| == Groups(outer) && |ig| == Groups(inner)
    ensures Render(outer, og, infix + Render(inner, ig, "")) + rest ==
      Render(outer, og, infix + Render(inner, ig, rest))
  {
    var written := Render(inner, ig, "");
    assert written + rest == Render(inner, ig, rest) by {
      RenderAppend(inner, ig, "", rest);
      assert "" + rest == rest;
    }
    assert (infix + written) + rest == infix + Render(inner, ig, rest) by {
      assert (infix + written) + rest == infix + (written + rest);
    }
    RenderAppend(outer, og, infix + written, rest);
  }

  /** Text appended after a written window line is the text after the match. */
  lemma WindowTextAppend(c: WindowCaptures, rest: string)
    ensures WindowText(c, "") + rest == WindowText(c, rest)
  {
    RenderNestedAppend(WindowHead, c.Head(), c.name, TailPattern, c.Tail(), rest);
  }

  /** What a window line yields: the owning session's id and the tab. */
  datatype WindowRecord = WindowRecord(session: nat, tab: Tab)

  /** One window line: session id, window index and pane count must each fit a usize;
      the width and height are matched but never read. */
  function ParseWindowLine(line: string): (r: Result<WindowRecord>)
    ensures r == Err(NoMatch(line)) <==> MatchWindow(line).None?
    ensures r.Ok? <==> (MatchWindow(line).Some? &&
      var c := MatchWindow(line).value.0;
      FitsUsize(c.session) && FitsUsize(c.index) && FitsUsize(c.panes))
    ensures r.Ok? ==> (MatchWindow(line).Some? &&
      var c := MatchWindow(line).value.0;
      r.value == WindowRecord(DecimalValue(c.session), Tab(c.name, DecimalValue(c.index), DecimalValue(c.panes))))
    ensures r.Err? && MatchWindow(line).Some? ==>
      var c := MatchWindow(line).value.0;
      r.error.TooLarge? && r.error.digits in [c.session, c.index, c.panes] && !FitsUsize(r.error.digits)
  {
    match MatchWindow(line)
    case None => Err(NoMatch(line))
    case Some((c, _)) =>
      assert DigitRun(c.Head()[0]) && DigitRun(c.Head()[1]) && DigitRun(c.Tail()[0]);
      var session :- ParseUsize(c.session);
      var number :- ParseUsize(c.index);
      var panes :- ParseUsize(c.panes);
      Ok(WindowRecord(session, Tab(c.name, number, panes)))
  }

  /** The window line `tmux list-windows -a` prints: `sid:idx: name (N panes) [WxH]`. */
  function WindowLineText(session: nat, tab: Tab, width: nat, height: nat): string {
    WindowText(WindowCaptures(DecimalString(session), DecimalString(tab.number), tab.name,
      DecimalString(tab.panes), DecimalString(width), DecimalString(height)), "")
  }

  /** A printed window line parses back to its session id and tab, whatever the name holds
      (spaces, flags, parentheses, even a pane-count suffix of its own) short of a newline,
      whatever the size, and whatever trailing text follows unless that text holds a
      second suffix on the same line. */
  lemma WindowLineRoundTrip(session: nat, tab: Tab, width: nat, height: nat, rest: string)
    requires session <= USIZE_MAX && tab.number <= USIZE_MAX && tab.panes <= USIZE_MAX
    requires '\n' !in tab.name
    requires NoTailIn(rest)
    ensures ParseWindowLine(WindowLineText(session, tab, width, height) + rest) == Ok(WindowRecord(session, tab))
  {
    var c := WindowCaptures(DecimalString(session), DecimalString(tab.number), tab.name,
      DecimalString(tab.panes), DecimalString(width), DecimalString(height));
    var line := WindowLineText(session, tab, width, height) + rest;
    assert line == WindowText(c, rest) by {
      WindowTextAppend(c, rest);
    }
    assert MatchWindow(line) == Some((c, rest)) by {
      assert ValidWindow(c);
      MatchWindowComplete(c, rest);
    }
    DecimalRoundTrip(session);
    DecimalRoundTrip(tab.number);
    DecimalRoundTrip(tab.panes);
  }

  /** A window-line grammar. The program's is `ParseWindowLine`; the directory-building
      facts hold whatever the grammar, so they are stated for any. */
  type LineParser = string -> Result<WindowRecord>

  /** Every line parsed with the window grammar, or the error of the first line that fails. */
  function WindowRecords(lines: seq<string>): Result<seq<WindowRecord>> {
    ParseAll(lines, ParseWindowLine)
  }

  /** The tabs of the records that name session `id`, in record order. */
  function TabsOf(recs: seq<WindowRecord>, id: nat): seq<Tab> {
    if recs == [] then []
    else
      var last := recs[|recs| - 1];
      TabsOf(recs[..|recs| - 1], id) + if last.session == id then [last.tab] else []
  }

  /** A tab is among a session's tabs exactly when some record names that session and tab. */
  lemma {:induction false} TabsOfMembers(recs: seq<WindowRecord>, id: nat, t: Tab)
    ensures t in TabsOf(recs, id) <==> exists i :: 0 <= i < |recs| && recs[i] == WindowRecord(id, t)
  {
    if recs != [] {
      var init := recs[..|recs| - 1];
      TabsOfMembers(init, id, t);
      if t in TabsOf(init, id) {
        var i :| 0 <= i < |init| && init[i] == WindowRecord(id, t);
        assert recs[i] == init[i];
      }
      if exists i :: 0 <= i < |recs| && recs[i] == WindowRecord(id, t) {
        var i :| 0 <= i < |recs| && recs[i] == WindowRecord(id, t);
        if i < |init| {
          assert init[i] == recs[i];
        }
      }
    }
  }

  /** A parsed window line's name holds no newline. */
  lemma ParsedNameOneLine(line: string)
    requires ParseWindowLine(line).Ok?
    ensures '\n' !in ParseWindowLine(line).value.tab.name
  {
  }

  /** The session ids the records name. */
  function SessionIds(recs: seq<WindowRecord>): set<nat> {
    set i | 0 <= i < |recs| :: recs[i].session
  }

  /** One more record adds its tab to its own session's tabs and to no other's. */
  lemma TabsOfSnoc(recs: seq<WindowRecord>, rec: WindowRecord, id: nat)
    ensures TabsOf(recs + [rec], id) == TabsOf(recs, id) + if rec.session == id then [rec.tab] else []
  {
    assert (recs + [rec])[..|recs|] == recs;
  }

  /** A session id named by no record has no tabs. */
  lemma {:induction false} TabsOfEmpty(recs: seq<WindowRecord>, id: nat)
    requires id !in SessionIds(recs)
    ensures TabsOf(recs, id) == []
  {
    if recs != [] {
      var init := recs[..|recs| - 1];
      SessionIdsSnoc(init, recs[|recs| - 1]);
      assert recs == init + [recs[|recs| - 1]];
      TabsOfEmpty(init, id);
    }
  }

  /** One more record names its session besides the earlier ones. */
  lemma SessionIdsSnoc(recs: seq<WindowRecord>, rec: WindowRecord)
    ensures SessionIds(recs + [rec]) == SessionIds(recs) + {rec.session}
  {
    var all := recs + [rec];
    forall id | id in SessionIds(all)
      ensures id in SessionIds(recs) + {rec.session}
    {
      var i :| 0 <= i < |all| && all[i].session == id;
      if i < |recs| {
        assert recs[i].session == id;
      }
    }
    forall id | id in SessionIds(recs)
      ensures id in SessionIds(all)
    {
      var i :| 0 <= i < |recs| && recs[i].session == id;
      assert all[i].session == id;
    }
    assert all[|recs|].session == rec.session;
  }
}
