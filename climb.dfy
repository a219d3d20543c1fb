/** The two walks up a button's ancestors that `send_proposals` performs for
    every button: the click retry, which hovers and clicks from successive
    ancestors, and `_get_selected_tab_value`, which looks for the row's
    `.selected-tab` label. The page is an oracle indexed by ancestor level:
    level 0 is `btn.parent()`, level k the k-th `parent()` above it, and
    `ancestors` says how many of them exist before `parent()` gives nothing. */
module Climb {
  import opened Text
  import opened Errors
  import Browser

  /** At most this many click attempts per button. */
  const MaxAttempts := 10
  /** At most this many ancestors searched for the tab label. */
  const MaxTabLevels := 20
  const ClickFailedMessage := "点击按钮失败"

  /** What one attempt at an ancestor does: scrolling to it or hovering over
      it raised; the button's click worked; or the button's click raised, with
      whether the ancestor's own click (the no-layout-box fallback of the
      current revision) would work. In the earlier revision the click goes
      through `BrowserManager.click`, which turns any exception into false. */
  datatype Attempt = HoverRaises(msg: string) | ClickWorks | ClickRaises(msg: string, parentClickWorks: bool)

  /** How the retry ends: the button was clicked at an ancestor level; the
      ancestors or the attempts ran out without an exception; or an exception
      left the retry. */
  datatype ClimbResult = ClickedAt(level: nat) | GaveUp | ClimbRaised(msg: string)

  /** The exception one attempt meets, if any. */
  function AttemptFailure(rev: Revision, a: Attempt): (r: Option<string>)
    ensures a.ClickWorks? ==> r.None?
    ensures rev == Earlier && !a.ClickWorks? ==>
      r == Some(if a.HoverRaises? then a.msg else ClickFailedMessage)
    ensures rev == Current && a.ClickRaises? ==> (r.None? <==> IsNoRect(a.msg) && a.parentClickWorks)
  {
    match a
    case HoverRaises(msg) => Some(msg)
    case ClickWorks => None
    case ClickRaises(msg, parentWorks) =>
      if rev == Earlier then
        if Browser.SafeClick(Earlier, false, Browser.ClickTry(Some(msg), false, false)) then None
        else Some(ClickFailedMessage)
      else if IsNoRect(msg) && parentWorks then None
      else Some(msg)
  }

  /** The retry from attempt `idx` on: a connection-loss failure is re-raised
      at once; any other failure moves to the next ancestor, except that the
      current revision re-raises the failure of its tenth attempt. */
  function ClimbFrom(rev: Revision, ancestors: nat, attempt: nat -> Attempt, idx: nat): ClimbResult
    requires idx <= MaxAttempts
    decreases MaxAttempts - idx
  {
    if idx == MaxAttempts || idx >= ancestors then GaveUp
    else match AttemptFailure(rev, attempt(idx))
      case None => ClickedAt(idx)
      case Some(msg) =>
        if IsTransient(msg) then ClimbRaised(msg)
        else if rev == Current && idx == MaxAttempts - 1 then ClimbRaised(msg)
        else ClimbFrom(rev, ancestors, attempt, idx + 1)
  }

  function ClimbOutcome(rev: Revision, ancestors: nat, attempt: nat -> Attempt): ClimbResult {
    ClimbFrom(rev, ancestors, attempt, 0)
  }

  /** The `for retry_idx in range(10)` loop of `send_proposals`. */
  method ClickClimb(rev: Revision, ancestors: nat, attempt: nat -> Attempt) returns (r: ClimbResult)
    ensures r == ClimbOutcome(rev, ancestors, attempt)
  {
    var idx := 0;
    while idx < MaxAttempts
      invariant 0 <= idx <= MaxAttempts
      invariant ClimbFrom(rev, ancestors, attempt, idx) == ClimbOutcome(rev, ancestors, attempt)
    {
      if idx >= ancestors {
        return GaveUp;
      }
      var failure := AttemptFailure(rev, attempt(idx));
      if failure.None? {
        return ClickedAt(idx);
      }
      if IsTransient(failure.value) {
        return ClimbRaised(failure.value);
      }
      if rev == Current && idx == MaxAttempts - 1 {
        return ClimbRaised(failure.value);
      }
      idx := idx + 1;
    }
    return GaveUp;
  }

  /** Every attempt before `k` failed without a connection-loss marker. */
  predicate QuietFailuresBefore(rev: Revision, attempt: nat -> Attempt, k: nat) {
    forall j :: 0 <= j < k ==> AttemptFailure(rev, attempt(j)).Some? && !IsTransient(AttemptFailure(rev, attempt(j)).value)
  }

  lemma {:induction false} ClimbFacts(rev: Revision, ancestors: nat, attempt: nat -> Attempt, idx: nat)
    requires idx <= MaxAttempts
    requires rev == Current ==> idx < MaxAttempts
    requires QuietFailuresBefore(rev, attempt, idx)
    ensures var r := ClimbFrom(rev, ancestors, attempt, idx);
      (r.ClickedAt? ==> (r.level < MaxAttempts && r.level < ancestors &&
                       AttemptFailure(rev, attempt(r.level)).None? && QuietFailuresBefore(rev, attempt, r.level))) &&
      (r.ClimbRaised? && !IsTransient(r.msg) ==>
         rev == Current && ancestors >= MaxAttempts && QuietFailuresBefore(rev, attempt, MaxAttempts)) &&
      (r.GaveUp? ==> QuietFailuresBefore(rev, attempt, if ancestors < MaxAttempts then ancestors else MaxAttempts)) &&
      (r.GaveUp? && rev == Current ==> ancestors < MaxAttempts)
    decreases MaxAttempts - idx
  {
    if idx == MaxAttempts || idx >= ancestors {
    } else {
      var f := AttemptFailure(rev, attempt(idx));
      if f.Some? && !IsTransient(f.value) && !(rev == Current && idx == MaxAttempts - 1) {
        assert QuietFailuresBefore(rev, attempt, idx + 1);
        ClimbFacts(rev, ancestors, attempt, idx + 1);
      }
    }
  }

  /** A click happens at the first ancestor whose attempt works, after quiet
      failures at every lower one, and within ten attempts; so a button is
      clicked at most once per retry. */
  lemma ClimbClicksFirstWorkingLevel(rev: Revision, ancestors: nat, attempt: nat -> Attempt)
    requires ClimbOutcome(rev, ancestors, attempt).ClickedAt?
    ensures var k := ClimbOutcome(rev, ancestors, attempt).level;
      k < MaxAttempts && k < ancestors && AttemptFailure(rev, attempt(k)).None? &&
      QuietFailuresBefore(rev, attempt, k)
  {
    ClimbFacts(rev, ancestors, attempt, 0);
  }

  /** In the earlier revision the retry only ever raises a connection-loss
      failure: after ten quiet failures it gives up silently. */
  lemma EarlierClimbRaisesOnlyTransient(ancestors: nat, attempt: nat -> Attempt)
    requires ClimbOutcome(Earlier, ancestors, attempt).ClimbRaised?
    ensures IsTransient(ClimbOutcome(Earlier, ancestors, attempt).msg)
  {
    ClimbFacts(Earlier, ancestors, attempt, 0);
  }

  /** In the current revision a quiet failure leaves the retry only from the
      tenth attempt, after all ten failed; running out of ancestors ends it
      silently. */
  lemma CurrentClimbRaisesAfterTenFailures(ancestors: nat, attempt: nat -> Attempt)
    ensures var r := ClimbOutcome(Current, ancestors, attempt);
      (r.ClimbRaised? && !IsTransient(r.msg) ==> ancestors >= MaxAttempts && QuietFailuresBefore(Current, attempt, MaxAttempts)) &&
      (r.GaveUp? ==> ancestors < MaxAttempts && QuietFailuresBefore(Current, attempt, ancestors))
  {
    ClimbFacts(Current, ancestors, attempt, 0);
  }

  /** The fallback of the current revision: a click that fails for lack of a
      layout box counts when the ancestor's click works, so the first attempt
      succeeds. The earlier revision moves on to the next ancestor. */
  lemma NoRectFallbackClicks(ancestors: nat, attempt: nat -> Attempt, msg: string)
    requires ancestors > 0 && attempt(0) == ClickRaises(msg, true)
    requires IsNoRect(msg)
    ensures ClimbOutcome(Current, ancestors, attempt) == ClickedAt(0)
    ensures ancestors > 1 ==> ClimbOutcome(Earlier, ancestors, attempt) != ClickedAt(0)
  {
  }

  /** The tab-label search: what the `.selected-tab` lookup below each
      ancestor level found (an element's text) or raised, and what the
      page-wide fallback lookup found or raised. */
  datatype TabSearch = TabSearch(ancestors: nat, atLevel: nat -> Query<Option<string>>, page: Query<Option<string>>)

  /** The page-wide fallback lookup's label, if it found one. */
  function PageLabel(q: Query<Option<string>>): Option<string> {
    match q
    case Answered(Some(t)) => Some(t)
    case _ => None
  }

  /** The walk from level `idx` on, giving the label's raw text: the first
      level with a label wins, a lookup that raises ends the search with
      nothing, and after twenty levels or the last ancestor the page-wide
      lookup decides. */
  function LabelFrom(s: TabSearch, idx: nat): Option<string>
    requires idx <= MaxTabLevels
    decreases MaxTabLevels - idx
  {
    if idx == MaxTabLevels || idx >= s.ancestors then PageLabel(s.page)
    else match s.atLevel(idx)
      case Threw(_) => None
      case Answered(Some(t)) => Some(t)
      case Answered(None) => LabelFrom(s, idx + 1)
  }

  /** The tab value: the label found, stripped of surrounding whitespace. */
  function SelectedTab(s: TabSearch): Option<string> {
    match LabelFrom(s, 0)
    case Some(t) => Some(Strip(t))
    case None => None
  }

  /** `_get_selected_tab_value`; it never raises: any failure gives `None`. */
  method SelectedTabValue(s: TabSearch) returns (r: Option<string>)
    ensures r == SelectedTab(s)
  {
    var idx := 0;
    while idx < MaxTabLevels
      invariant 0 <= idx <= MaxTabLevels
      invariant LabelFrom(s, idx) == LabelFrom(s, 0)
    {
      if idx >= s.ancestors {
        break;
      }
      var found := s.atLevel(idx);
      if found.Threw? {
        return None;
      }
      if found.value.Some? {
        return Some(Strip(found.value.value));
      }
      idx := idx + 1;
    }
    var fallback := PageLabel(s.page);
    if fallback.Some? {
      return Some(Strip(fallback.value));
    }
    return None;
  }

  /** No label below the first `k` levels. */
  predicate NoLabelBefore(s: TabSearch, k: nat) {
    forall j :: 0 <= j < k ==> s.atLevel(j) == Answered(None)
  }

  /** Unlabelled levels are passed over. */
  lemma {:induction false} UnlabelledLevelsSkipped(s: TabSearch, idx: nat, k: nat)
    requires idx <= k < MaxTabLevels && k < s.ancestors
    requires forall j :: idx <= j < k ==> s.atLevel(j) == Answered(None)
    ensures LabelFrom(s, idx) == LabelFrom(s, k)
    decreases k - idx
  {
    if idx < k {
      assert s.atLevel(idx) == Answered(None);
      UnlabelledLevelsSkipped(s, idx + 1, k);
    }
  }

  /** The nearest labelled ancestor within twenty levels gives the tab. */
  lemma NearestLabelWins(s: TabSearch, k: nat, t: string)
    requires k < MaxTabLevels && k < s.ancestors
    requires NoLabelBefore(s, k) && s.atLevel(k) == Answered(Some(t))
    ensures SelectedTab(s) == Some(Strip(t))
  {
    UnlabelledLevelsSkipped(s, 0, k);
  }

  /** Without a label on the walk, only the page-wide lookup can give a tab,
      so a label more than twenty levels up is never seen. */
  lemma {:induction false} UnlabelledWalkFallsBack(s: TabSearch, idx: nat)
    requires idx <= MaxTabLevels
    requires NoLabelBefore(s, if s.ancestors < MaxTabLevels then s.ancestors else MaxTabLevels)
    ensures LabelFrom(s, idx) == PageLabel(s.page)
    decreases MaxTabLevels - idx
  {
    if idx < MaxTabLevels && idx < s.ancestors {
      assert s.atLevel(idx) == Answered(None);
      UnlabelledWalkFallsBack(s, idx + 1);
    }
  }
}
