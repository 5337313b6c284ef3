/** The page-name navigation history: pages are pushed by name with the
    cursor and scroll positions they were left at, and pushing a page
    already in the history cuts the history back to it instead of adding
    a loop. */
module PageHistory {

  /** `PageState`. */
  datatype PageState = PageState(pageName: string, cursorPosition: int, scrollPosition: int)

  /** No page name occurs twice. */
  predicate DistinctNames(h: seq<PageState>)
  {
    forall i, j :: 0 <= i < j < |h| ==> h[i].pageName != h[j].pageName
  }

  /** The first position of a page name in the history, or -1. */
  function IndexOfName(h: seq<PageState>, name: string): (r: int)
    ensures -1 <= r < |h|
    ensures r == -1 <==> forall i :: 0 <= i < |h| ==> h[i].pageName != name
    ensures r >= 0 ==> h[r].pageName == name && forall i :: 0 <= i < r ==> h[i].pageName != name
    decreases |h|
  {
    if h == [] then -1
    else if h[0].pageName == name then 0
    else
      var r := IndexOfName(h[1..], name);
      assert forall i :: 1 <= i < |h| ==> h[i] == h[1..][i - 1];
      if r == -1 then -1 else r + 1
  }

  /** The history after `push_page`: cut back to an earlier visit of the
      page, or extended by the new state. */
  function PushOf(h: seq<PageState>, s: PageState): seq<PageState>
  {
    var k := IndexOfName(h, s.pageName);
    if k >= 0 then h[..k + 1] else h + [s]
  }

  /** After a push the pushed page is the current one, and the history
      keeps its distinct names. */
  lemma PushMakesCurrent(h: seq<PageState>, s: PageState)
    requires DistinctNames(h)
    ensures var h' := PushOf(h, s); h' != [] && h'[|h'| - 1].pageName == s.pageName && DistinctNames(h')
  {
  }

  /** Pushing a page already in the history adds nothing and drops
      everything after it; in particular, pushing the current page changes
      nothing. */
  lemma PushExistingTruncates(h: seq<PageState>, s: PageState, k: int)
    requires DistinctNames(h) && 0 <= k < |h| && h[k].pageName == s.pageName
    ensures PushOf(h, s) == h[..k + 1]
    ensures k == |h| - 1 ==> PushOf(h, s) == h
  {
  }

  /** What `pop_page` returns and leaves: the last state, or the main
      page's state (cursor and scroll 0) when the history is empty. */
  function PopOf(h: seq<PageState>, main: string): (r: (PageState, seq<PageState>))
    ensures h == [] ==> r == (PageState(main, 0, 0), [])
    ensures h != [] ==> r.1 + [r.0] == h
  {
    if h == [] then (PageState(main, 0, 0), []) else (h[|h| - 1], h[..|h| - 1])
  }

  /** A new page pushed and popped again gives its state back and restores
      the history. */
  lemma PushNewPop(h: seq<PageState>, s: PageState, main: string)
    requires IndexOfName(h, s.pageName) == -1
    ensures PopOf(PushOf(h, s), main) == (s, h)
  {
    assert (h + [s])[..|h|] == h;
  }

  /** `handle_back_navigation`'s target and the history it leaves: off the
      main page and without interactive content it pops; otherwise it
      stays on the current page. */
  function BackTarget(h: seq<PageState>, main: string, hasInteractive: bool): (r: (string, seq<PageState>))
    ensures PopOf(h, main).0.pageName == main || hasInteractive ==> r == (PopOf(h, main).0.pageName, h)
    ensures PopOf(h, main).0.pageName != main && !hasInteractive ==>
      r == (PopOf(h, main).0.pageName, PopOf(h, main).1) && |r.1| == |h| - 1
  {
    var current := PopOf(h, main).0.pageName;
    if current == main then (if !hasInteractive then (main, h) else (current, h))
    else if !hasInteractive then (PopOf(h, main).0.pageName, PopOf(h, main).1)
    else (current, h)
  }

  /** `PageNavigationManager`: the history of page states and the main
      page's name. */
  class PageNavigationManager {
    var history: seq<PageState>
    var mainPage: string

    ghost predicate Valid()
      reads this
    {
      DistinctNames(history)
    }

    constructor ()
      ensures Valid() && history == [] && mainPage == "main"
    {
      history := [];
      mainPage := "main";
    }

    /** `push_page`: the history is searched from the oldest entry; a page
        already there cuts off everything after it. */
    method PushPage(page: string, cursor: int, scroll: int)
      requires Valid()
      modifies this
      ensures Valid()
      ensures history == PushOf(old(history), PageState(page, cursor, scroll)) && mainPage == old(mainPage)
    {
      var i := 0;
      while i < |history|
        invariant 0 <= i <= |history| && history == old(history)
        invariant forall j :: 0 <= j < i ==> history[j].pageName != page
      {
        if history[i].pageName == page {
          history := history[..i + 1];
          return;
        }
        i := i + 1;
      }
      history := history + [PageState(page, cursor, scroll)];
    }

    /** `pop_page`. */
    method PopPage() returns (s: PageState)
      requires Valid()
      modifies this
      ensures Valid()
      ensures (s, history) == PopOf(old(history), mainPage) && mainPage == old(mainPage)
    {
      if history != [] {
        s := history[|history| - 1];
        history := history[..|history| - 1];
        return;
      }
      return PageState(mainPage, 0, 0);
    }

    /** `get_current_page`: the name of the state a pop would return. */
    function CurrentPage(): (name: string)
      reads this
      ensures name == PopOf(history, mainPage).0.pageName
    {
      if history != [] then history[|history| - 1].pageName else mainPage
    }

    /** `get_previous_page_state`: the state that is current after a pop. */
    function PreviousPageState(): (s: PageState)
      reads this
      ensures s == PopOf(PopOf(history, mainPage).1, mainPage).0
    {
      if |history| >= 2 then history[|history| - 2] else PageState(mainPage, 0, 0)
    }

    /** `get_previous_page`: the name of the previous state. */
    function PreviousPage(): (name: string)
      reads this
      ensures name == PreviousPageState().pageName
    {
      if |history| >= 2 then history[|history| - 2].pageName else mainPage
    }

    function CanGoBack(): (b: bool)
      reads this
      ensures b <==> |PopOf(history, mainPage).1| < |history|
    {
      history != []
    }

    /** `handle_back_navigation`. */
    method HandleBackNavigation(hasInteractive: bool) returns (name: string)
      requires Valid()
      modifies this
      ensures Valid()
      ensures (name, history) == BackTarget(old(history), mainPage, hasInteractive) && mainPage == old(mainPage)
    {
      var current := CurrentPage();
      if current == mainPage {
        if !hasInteractive {
          return mainPage;
        }
        return current;
      } else {
        if !hasInteractive {
          var prev := PopPage();
          return prev.pageName;
        }
        return current;
      }
    }

    method ClearStack()
      modifies this
      ensures Valid() && history == [] && mainPage == old(mainPage)
    {
      history := [];
    }

    method SetMainPage(name: string)
      modifies this
      ensures mainPage == name && history == old(history)
    {
      mainPage := name;
    }
  }
}
