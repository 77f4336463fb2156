/** The regular expressions of the tool are sequences of two kinds of pieces: literal
    text and `(\d+)` groups (the window name's `(.*)` is handled apart, in `Grammar`).
    This module matches such a pattern at the start of a string, prints a pattern back
    with given groups, and proves the two agree. */
module Pattern {
  import opened Errors
  import opened Text

  datatype Piece =
    | Literal(text: string)   // this text, verbatim
    | Number                  // `(\d+)`: a captured run of digits

  type Pattern = seq<Piece>

  /** How many groups the pattern captures. */
  function Groups(ps: Pattern): nat {
    if ps == [] then 0 else (if ps[0].Number? then 1 else 0) + Groups(ps[1..])
  }

  /** Every group is a run of digits. */
  predicate AllRuns(groups: seq<string>) {
    forall i :: 0 <= i < |groups| ==> DigitRun(groups[i])
  }

  /** Patterns whose greedy matching needs no backtracking: every literal is non-empty and
      opens with a non-digit, and no group directly follows another. A group then ends
      exactly where its run of digits ends. */
  predicate WellFormed(ps: Pattern) {
    ps == [] ||
    ((match ps[0]
      case Literal(l) => l != [] && !IsDigit(l[0])
      case Number => |ps| == 1 || ps[1].Literal?)
     && WellFormed(ps[1..]))
  }

  /** The length of the text the pattern describes with `groups` in its groups. */
  function Width(ps: Pattern, groups: seq<string>): nat
    requires |groups| == Groups(ps)
  {
    if ps == [] then 0
    else match ps[0]
      case Literal(l) => |l| + Width(ps[1..], groups)
      case Number => |groups[0]| + Width(ps[1..], groups[1..])
  }

  /** The text the pattern describes with `groups` in its groups, followed by `rest`. */
  function Render(ps: Pattern, groups: seq<string>, rest: string): (s: string)
    requires |groups| == Groups(ps)
    ensures |s| == Width(ps, groups) + |rest|
  {
    if ps == [] then rest
    else match ps[0]
      case Literal(l) => l + Render(ps[1..], groups, rest)
      case Number => groups[0] + Render(ps[1..], groups[1..], rest)
  }

  /** The pattern matched at the start of `s`: its groups and the text after the match. */
  function Match(ps: Pattern, s: string): (r: Option<(seq<string>, string)>)
    ensures r.Some? ==> |r.value.0| == Groups(ps) && AllRuns(r.value.0)
    ensures r.Some? ==> s == Render(ps, r.value.0, r.value.1)
  {
    if ps == [] then Some(([], s))
    else match ps[0]
      case Literal(l) =>
        if !(l <= s) then None
        else
          assert s == l + s[|l|..];
          Match(ps[1..], s[|l|..])
      case Number =>
        var n := DigitsLen(s);
        if n == 0 then None
        else
          match Match(ps[1..], s[n..])
          case None => None
          case Some((groups, rest)) =>
            assert s == s[..n] + s[n..];
            Some(([s[..n]] + groups, rest))
  }

  /** Text after a match that a trailing group cannot swallow. */
  predicate EndsClear(ps: Pattern, rest: string) {
    ps != [] && ps[|ps| - 1].Number? ==> rest == [] || !IsDigit(rest[0])
  }

  /** A well-formed pattern matches its own rendering, whatever follows it; it finds back
      exactly the groups and the following text unless that text extends a trailing group. */
  lemma {:induction false} MatchRender(ps: Pattern, groups: seq<string>, rest: string)
    requires WellFormed(ps) && |groups| == Groups(ps) && AllRuns(groups)
    ensures Match(ps, Render(ps, groups, rest)).Some?
    ensures EndsClear(ps, rest) ==> Match(ps, Render(ps, groups, rest)) == Some((groups, rest))
    decreases |ps|, 1
  {
    if ps != [] {
      if ps[0].Literal? {
        MatchRenderLiteral(ps, groups, rest);
      } else {
        MatchRenderNumber(ps, groups, rest);
      }
    }
  }

  /** A pattern that opens with a literal prints that literal first. */
  lemma RenderLiteral(ps: Pattern, groups: seq<string>, rest: string)
    requires ps != [] && ps[0].Literal? && |groups| == Groups(ps)
    ensures Groups(ps[1..]) == Groups(ps)
    ensures Render(ps, groups, rest) == ps[0].text + Render(ps[1..], groups, rest)
  {
  }

  /** A pattern that opens with a literal matches text that opens with it by matching the
      rest of the pattern on the rest of the text. */
  lemma MatchLiteral(ps: Pattern, s: string)
    requires ps != [] && ps[0].Literal? && ps[0].text <= s
    ensures Match(ps, s) == Match(ps[1..], s[|ps[0].text|..])
  {
  }

  /** The step of `MatchRender` for a pattern that opens with a literal. */
  lemma {:induction false} MatchRenderLiteral(ps: Pattern, groups: seq<string>, rest: string)
    requires ps != [] && ps[0].Literal?
    requires WellFormed(ps) && |groups| == Groups(ps) && AllRuns(groups)
    ensures Match(ps, Render(ps, groups, rest)).Some?
    ensures EndsClear(ps, rest) ==> Match(ps, Render(ps, groups, rest)) == Some((groups, rest))
    decreases |ps|, 0
  {
    var l := ps[0].text;
    assert WellFormed(ps[1..]);
    RenderLiteral(ps, groups, rest);
    var s := Render(ps, groups, rest);
    var s' := Render(ps[1..], groups, rest);
    assert l <= s && s[|l|..] == s';
    MatchLiteral(ps, s);
    assert EndsClear(ps, rest) ==> EndsClear(ps[1..], rest) by {
      if ps[1..] != [] {
        assert ps[1..][|ps[1..]| - 1] == ps[|ps| - 1];
      }
    }
    MatchRender(ps[1..], groups, rest);
  }

  /** The step of `MatchRender` for a pattern that opens with a number: the digit run stops
      where the group ends, because a literal that does not open with a digit, or a clear
      rest, follows it. */
  lemma {:induction false} MatchRenderNumber(ps: Pattern, groups: seq<string>, rest: string)
    requires ps != [] && ps[0].Number?
    requires WellFormed(ps) && |groups| == Groups(ps) && AllRuns(groups)
    ensures Match(ps, Render(ps, groups, rest)).Some?
    ensures EndsClear(ps, rest) ==> Match(ps, Render(ps, groups, rest)) == Some((groups, rest))
    decreases |ps|, 0
  {
    var s := Render(ps, groups, rest);
    var g := groups[0];
    var s' := Render(ps[1..], groups[1..], rest);
    assert s == g + s';
    assert DigitRun(g);
    assert AllRuns(groups[1..]) by {
      forall i | 0 <= i < |groups| - 1 ensures DigitRun(groups[1..][i]) {
        assert groups[1..][i] == groups[i + 1];
      }
    }
    MatchRender(ps[1..], groups[1..], rest);
    DigitsLenAtLeast(g, s');
    if ps[1..] == [] {
      assert s' == rest;
      if EndsClear(ps, rest) {
        DigitsLenCat(g, s');
      }
    } else {
      var l := ps[1].text;
      assert s' == l + Render(ps[2..], groups[1..], rest);
      DigitsLenCat(g, s');
    }
    assert s[..|g|] == g && s[|g|..] == s';
    assert [g] + groups[1..] == groups;
  }

  /** Text appended after a rendering lands after the rendering's own trailing text. */
  lemma {:induction false} RenderAppend(ps: Pattern, groups: seq<string>, a: string, b: string)
    requires |groups| == Groups(ps)
    ensures Render(ps, groups, a) + b == Render(ps, groups, a + b)
  {
    if ps != [] {
      match ps[0]
      case Literal(l) =>
        RenderAppend(ps[1..], groups, a, b);
      case Number =>
        RenderAppend(ps[1..], groups[1..], a, b);
    }
  }

  /** None of the pattern's literals holds `ch`. */
  predicate LiteralsAvoid(ps: Pattern, ch: char) {
    forall i :: 0 <= i < |ps| && ps[i].Literal? ==> ch !in ps[i].text
  }

  /** A character that is not a digit and that no literal holds is absent from a rendering. */
  lemma {:induction false} RenderAvoids(ps: Pattern, groups: seq<string>, ch: char)
    requires |groups| == Groups(ps) && AllRuns(groups)
    requires !IsDigit(ch) && LiteralsAvoid(ps, ch)
    ensures ch !in Render(ps, groups, "")
  {
    if ps != [] {
      assert LiteralsAvoid(ps[1..], ch) by {
        forall i | 0 <= i < |ps| - 1 && ps[1..][i].Literal? ensures ch !in ps[1..][i].text {
          assert ps[1..][i] == ps[i + 1];
        }
      }
      match ps[0]
      case Literal(l) =>
        RenderAvoids(ps[1..], groups, ch);
      case Number =>
        assert AllRuns(groups[1..]) by {
          forall i | 0 <= i < |groups| - 1 ensures DigitRun(groups[1..][i]) {
            assert groups[1..][i] == groups[i + 1];
          }
        }
        RenderAvoids(ps[1..], groups[1..], ch);
    }
  }
}
