/** `BrowserManager`'s connection handling and its safe click. Connecting to
    the running Chromium is foreign: each attempt is an oracle that says
    whether the browser came up, which tab is its latest, and (current
    revision) what the lookup of a tab whose url mentions "impact" gave. Tabs
    are named by numbers. */
module Browser {
  import opened Text
  import opened Errors

  /** `max_retries` of `reconnect`. */
  const MaxRetries := 3

  /** One connection attempt: `Chromium()` or `latest_tab` raised, or the
      browser answered with its latest tab and the result of
      `get_tab(url='impact')`. */
  datatype ConnectAttempt = ConnectFails | Connects(latest: nat, impact: Query<Option<nat>>)

  /** The tab an answered attempt selects: the current revision prefers the
      "impact" tab and falls back to the latest one when the lookup finds
      nothing or raises; the earlier revision always takes the latest tab. */
  function ChosenTab(rev: Revision, a: ConnectAttempt): (r: nat)
    requires a.Connects?
    ensures rev == Earlier ==> r == a.latest
    ensures rev == Current && a.impact.Answered? && a.impact.value.Some? ==> r == a.impact.value.value
    ensures rev == Current && (a.impact.Threw? || a.impact.value.None?) ==> r == a.latest
  {
    if rev == Current then
      match a.impact
      case Answered(Some(t)) => t
      case _ => a.latest
    else a.latest
  }

  /** The tab the retry loop ends on, from attempt `i` on: the first
      answered attempt among the three decides; none answering gives nothing. */
  function ReconnectFrom(rev: Revision, attempt: nat -> ConnectAttempt, i: nat): Option<nat>
    requires i <= MaxRetries
    decreases MaxRetries - i
  {
    if i == MaxRetries then None
    else if attempt(i).Connects? then Some(ChosenTab(rev, attempt(i)))
    else ReconnectFrom(rev, attempt, i + 1)
  }

  lemma {:induction false} ReconnectFromFacts(rev: Revision, attempt: nat -> ConnectAttempt, i: nat)
    requires i <= MaxRetries
    ensures ReconnectFrom(rev, attempt, i).Some? <==> exists j :: i <= j < MaxRetries && attempt(j).Connects?
    ensures ReconnectFrom(rev, attempt, i).Some? ==>
      exists j :: i <= j < MaxRetries && attempt(j).Connects? &&
        ReconnectFrom(rev, attempt, i).value == ChosenTab(rev, attempt(j)) &&
        forall j' :: i <= j' < j ==> attempt(j') == ConnectFails
    decreases MaxRetries - i
  {
    if i < MaxRetries && !attempt(i).Connects? {
      ReconnectFromFacts(rev, attempt, i + 1);
    }
  }

  /** Whether one of the three attempts answers. */
  predicate ReconnectWorks(attempt: nat -> ConnectAttempt) {
    exists j :: 0 <= j < MaxRetries && attempt(j).Connects?
  }

  /** The retry loop looks at no more than three attempts. */
  lemma {:induction false} ReconnectUsesThreeAttempts(rev: Revision, a: nat -> ConnectAttempt, b: nat -> ConnectAttempt, i: nat)
    requires i <= MaxRetries
    requires forall j :: 0 <= j < MaxRetries ==> a(j) == b(j)
    ensures ReconnectFrom(rev, a, i) == ReconnectFrom(rev, b, i)
    decreases MaxRetries - i
  {
    if i < MaxRetries {
      assert a(i) == b(i);
      ReconnectUsesThreeAttempts(rev, a, b, i + 1);
    }
  }

  /** What clicking an element meets: the exception of the first click (the
      JavaScript click, or `safe_click_element` for a plain click in the
      current revision) if any, the result `safe_click_element` reports when
      it returns, and whether the JavaScript retry after a no-layout-box
      failure works. */
  datatype ClickTry = ClickTry(raised: Option<string>, helperResult: bool, retryWorks: bool)

  /** `BrowserManager.click`: never raises. The current revision retries a
      click that failed for lack of a layout box once, by JavaScript after
      scrolling to the element; every other failure gives false. */
  function SafeClick(rev: Revision, byJs: bool, c: ClickTry): (r: bool)
    ensures rev == Earlier ==> (r <==> c.raised.None?)
    ensures rev == Current && c.raised.None? ==> (r <==> byJs || c.helperResult)
    ensures rev == Current && c.raised.Some? ==> (r <==> IsNoRect(c.raised.value) && c.retryWorks)
  {
    if rev == Earlier then c.raised.None?
    else if c.raised.None? then byJs || c.helperResult
    else IsNoRect(c.raised.value) && c.retryWorks
  }

  class BrowserManager {
    /** `self.tab`; absent before the first successful connection. */
    var tab: Option<nat>

    constructor ()
      ensures tab == None
    {
      tab := None;
    }

    /** `is_connected`. */
    function IsConnected(): (r: bool)
      reads this
      ensures r <==> tab.Some?
    {
      tab.Some?
    }

    /** `init`: one attempt; a failure leaves the tab as it was. */
    method Init(rev: Revision, a: ConnectAttempt) returns (ok: bool)
      modifies this
      ensures ok <==> a.Connects?
      ensures tab == (if ok then Some(ChosenTab(rev, a)) else old(tab))
      ensures ok ==> IsConnected()
      ensures !ok ==> IsConnected() == old(IsConnected())
    {
      if a.ConnectFails? {
        return false;
      }
      tab := Some(ChosenTab(rev, a));
      return true;
    }

    /** `reconnect`: up to three attempts, stopping at the first that
        answers; when none does the tab is left as it was. */
    method Reconnect(rev: Revision, attempt: nat -> ConnectAttempt) returns (ok: bool)
      modifies this
      ensures ok == ReconnectWorks(attempt)
      ensures ok ==> tab == ReconnectFrom(rev, attempt, 0)
      ensures !ok ==> tab == old(tab)
      ensures ok ==> IsConnected()
      ensures !ok ==> IsConnected() == old(IsConnected())
    {
      ReconnectFromFacts(rev, attempt, 0);
      var i := 0;
      while i < MaxRetries
        invariant 0 <= i <= MaxRetries
        invariant ReconnectFrom(rev, attempt, i) == ReconnectFrom(rev, attempt, 0)
        invariant forall j :: 0 <= j < i ==> attempt(j) == ConnectFails
        invariant tab == old(tab)
      {
        if attempt(i).Connects? {
          tab := Some(ChosenTab(rev, attempt(i)));
          return true;
        }
        i := i + 1;
      }
      return false;
    }
  }
}
