/** The tab filter both versions of `select_tabs` apply to each session: keep, in order,
    the tabs whose name contains the search term (`str::find` returns `Some`). */
module Search {
  import opened Text
  import opened Grammar

  /** The tabs of `tabs` whose name contains `term`, in their original order. */
  function Matching(tabs: seq<Tab>, term: string): (r: seq<Tab>)
    ensures multiset(r) <= multiset(tabs)
    ensures forall i :: 0 <= i < |r| ==> Contains(r[i].name, term)
  {
    if tabs == [] then []
    else
      var last := tabs[|tabs| - 1];
      assert tabs == tabs[..|tabs| - 1] + [last];
      Matching(tabs[..|tabs| - 1], term) + if Contains(last.name, term) then [last] else []
  }

  /** One more tab visited by `select_tabs`'s inner loop is kept exactly when `find` finds
      the term in its name. */
  lemma MatchingStep(tabs: seq<Tab>, j: nat, term: string)
    requires j < |tabs|
    ensures Matching(tabs[..j + 1], term) ==
      Matching(tabs[..j], term) + if Find(tabs[j].name, term).Some? then [tabs[j]] else []
  {
    assert tabs[..j + 1][..j] == tabs[..j];
  }

  /** The filter keeps a tab exactly when the tab was there and its name contains the term. */
  lemma {:induction false} MatchingMembers(tabs: seq<Tab>, term: string, t: Tab)
    ensures t in Matching(tabs, term) <==> t in tabs && Contains(t.name, term)
  {
    if tabs != [] {
      var init := tabs[..|tabs| - 1];
      assert tabs == init + [tabs[|tabs| - 1]];
      MatchingMembers(init, term, t);
    }
  }

  /** Filtering a concatenation filters each part. */
  lemma {:induction false} MatchingAppend(a: seq<Tab>, b: seq<Tab>, term: string)
    ensures Matching(a + b, term) == Matching(a, term) + Matching(b, term)
  {
    if b != [] {
      var init := b[..|b| - 1];
      assert a + b == (a + init) + [b[|b| - 1]];
      assert (a + b)[..|a + b| - 1] == a + init;
      MatchingAppend(a, init, term);
    } else {
      assert a + b == a;
    }
  }

  /** When every name contains the term, the filter keeps every tab. */
  lemma {:induction false} MatchingAll(tabs: seq<Tab>, term: string)
    requires forall i :: 0 <= i < |tabs| ==> Contains(tabs[i].name, term)
    ensures Matching(tabs, term) == tabs
  {
    if tabs != [] {
      var init := tabs[..|tabs| - 1];
      assert tabs == init + [tabs[|tabs| - 1]];
      MatchingAll(init, term);
    }
  }

  /** The filter is empty exactly when no name contains the term. */
  lemma MatchingEmpty(tabs: seq<Tab>, term: string)
    ensures Matching(tabs, term) == [] <==> forall i :: 0 <= i < |tabs| ==> !Contains(tabs[i].name, term)
  {
    if Matching(tabs, term) == [] {
      forall i | 0 <= i < |tabs| ensures !Contains(tabs[i].name, term) {
        MatchingMembers(tabs, term, tabs[i]);
      }
    } else {
      var t := Matching(tabs, term)[0];
      MatchingMembers(tabs, term, t);
    }
  }

  /** Searching the result of a search again with the same term changes nothing. */
  lemma MatchingIdempotent(tabs: seq<Tab>, term: string)
    ensures Matching(Matching(tabs, term), term) == Matching(tabs, term)
  {
    MatchingAll(Matching(tabs, term), term);
  }

  /** Every name contains the empty string at its start. */
  lemma ContainsEmpty(s: string)
    ensures Contains(s, "")
  {
    assert OccursAt(s, "", 0);
  }

  /** The empty search term keeps every tab. */
  lemma MatchingEmptyTerm(tabs: seq<Tab>)
    ensures Matching(tabs, "") == tabs
  {
    forall i | 0 <= i < |tabs| ensures Contains(tabs[i].name, "") {
      ContainsEmpty(tabs[i].name);
    }
    MatchingAll(tabs, "");
  }

  /** A name that holds the term somewhere contains it. */
  lemma ContainsInfix(a: string, term: string, b: string)
    ensures Contains(a + term + b, term)
  {
    assert (a + term + b)[|a|..|a| + |term|] == term;
    assert OccursAt(a + term + b, term, |a|);
  }
}
