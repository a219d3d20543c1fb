/** `ProposalSender.send_proposals`: the loop that scans the page for
    "Send Proposal" buttons, clicks them one batch at a time, handles the
    proposal form after each click, scrolls for more, and reconnects after
    repeated errors. Its counters are local variables of the loop; the page
    (a `Page`) and the browser connection (a `BrowserManager`) are the state
    it changes in place. Everything the browser answers comes from an `Env`
    oracle, each kind of call indexed by how many such calls came before. */
module Engine {
  import opened Text
  import opened Errors
  import opened Dom
  import opened Modal
  import opened Climb
  import opened Browser
  import Terms

  /** `max_scrolls` and `max_consecutive_errors`. */
  const MaxScrolls := 100
  const MaxConsecutiveErrors := 3
  /** The marker the outer `except` re-raises in the current revision. */
  const TermNotFoundMarker := "template_term_not_found"

  /** What the page does for one button: the tab-label search (which also
      says how many ancestors the button has), each click attempt of the
      retry, and the proposal form that the click opens. */
  datatype ButtonEnv = ButtonEnv(tab: TabSearch, attempt: nat -> Attempt, modal: ModalForm)

  /** The browser as the loop meets it: the attempts of the n-th reconnect,
      the answer to the n-th button query, the n-th scroll (`None`: it failed;
      otherwise the rows it loaded) and the n-th button handled. */
  datatype Env = Env(
    connect: nat -> nat -> ConnectAttempt,
    buttons: nat -> Query<seq<nat>>,
    scroll: nat -> Option<seq<Node>>,
    button: nat -> ButtonEnv)

  /** How many calls of each kind the loop has made so far. */
  datatype Cursor = Cursor(reconnects: nat, queries: nat, scrolls: nat, buttons: nat)

  /** `clicked_count`, `total_scrolls`, `consecutive_errors`,
      `pending_batch_buttons` and `total_detected_buttons`. */
  datatype Counters = Counters(clicked: nat, scrolls: nat, errors: nat, pending: nat, detected: nat)

  /** What the loop did, in order: a reconnect with the error count that
      caused it, a button query that raised, a scan, a clicked button with
      the row's tab and the form's outcome, a button left unclicked with the
      exception that left its retry, and a scroll with the pending count at
      that moment. */
  datatype Event =
    | Reconnected(errors: nat, ok: bool)
    | QueryFailed(msg: string)
    | Scanned(newlyCounted: nat, available: nat)
    | Pressed(node: nat, tab: Option<string>, outcome: ModalOutcome)
    | Skipped(node: nat, escaped: Option<string>)
    | ScrolledDown(pending: nat, ok: bool)

  /** Why the loop ended. `Crashed` is the exception the current revision
      lets out of the loop; `OutOfFuel` is the model's step bound, since the
      loop itself need not end. */
  datatype StopReason = TargetReached | ScrollsExhausted | ReconnectFailed | Crashed(msg: string) | OutOfFuel

  /** Number of clicked buttons in a trace. */
  function Presses(es: seq<Event>): nat {
    if |es| == 0 then 0 else Presses(es[..|es| - 1]) + (if es[|es| - 1].Pressed? then 1 else 0)
  }

  /** Number of scrolls that worked in a trace. */
  function Scrolls(es: seq<Event>): nat {
    if |es| == 0 then 0 else Scrolls(es[..|es| - 1]) + (if es[|es| - 1] == ScrolledDown(0, true) then 1 else 0)
  }

  /** The loop never scrolls while counted buttons are still pending. */
  predicate ScrollsGated(es: seq<Event>) {
    forall k :: 0 <= k < |es| && es[k].ScrolledDown? ==> es[k].pending == 0
  }

  /** Every reconnect happens at exactly three consecutive errors. */
  predicate ReconnectsAtThreshold(es: seq<Event>) {
    forall k :: 0 <= k < |es| && es[k].Reconnected? ==> es[k].errors == MaxConsecutiveErrors
  }

  /** `consecutive_errors` after one event: a failed query, a failed scroll
      and a button exception that looks like a page refresh add one; a scan
      that found buttons and a reconnect that worked clear it. */
  function ErrorStep(e: nat, ev: Event): nat {
    match ev
    case Reconnected(_, ok) => if ok then 0 else e
    case QueryFailed(_) => e + 1
    case Scanned(_, available) => if available > 0 then 0 else e
    case Pressed(_, _, outcome) => if outcome.Raised? && IsPageRefresh(outcome.msg) then e + 1 else e
    case Skipped(_, escaped) => if escaped.Some? && IsPageRefresh(escaped.value) then e + 1 else e
    case ScrolledDown(_, ok) => if ok then e else e + 1
  }

  /** The error count the trace `es` leaves, starting from `e`. */
  function Errs(e: nat, es: seq<Event>): nat {
    if |es| == 0 then e else ErrorStep(Errs(e, es[..|es| - 1]), es[|es| - 1])
  }

  /** A stretch of the loop with no reconnect in it: before each of its
      events the error count, started at `e`, is still below the threshold. */
  predicate Quiet(e: nat, es: seq<Event>) {
    forall k :: 0 <= k < |es| ==> !es[k].Reconnected? && Errs(e, es[..k]) < MaxConsecutiveErrors
  }

  /** Read from the start of the loop: a reconnect comes exactly when the
      errors since the last reset have reached the threshold. */
  predicate ReconnectsWhenDue(es: seq<Event>) {
    forall k :: 0 <= k < |es| ==> (es[k].Reconnected? <==> Errs(0, es[..k]) >= MaxConsecutiveErrors)
  }

  lemma ErrsAppend(e: nat, es: seq<Event>, ev: Event)
    ensures Errs(e, es + [ev]) == ErrorStep(Errs(e, es), ev)
  {
    assert (es + [ev])[..|es|] == es;
  }

  /** The error count composes over a concatenation, and so do quiet
      stretches and the reconnect rule. */
  lemma {:induction false} ErrsConcat(e: nat, a: seq<Event>, b: seq<Event>)
    ensures Errs(e, a + b) == Errs(Errs(e, a), b)
    decreases |b|
  {
    if |b| == 0 {
      assert a + b == a;
    } else {
      var b' := b[..|b| - 1];
      assert (a + b)[..|a + b| - 1] == a + b';
      ErrsConcat(e, a, b');
    }
  }

  lemma QuietConcat(e: nat, a: seq<Event>, b: seq<Event>)
    requires Quiet(e, a) && Quiet(Errs(e, a), b)
    ensures Quiet(e, a + b)
  {
    forall k | 0 <= k < |a + b|
      ensures !(a + b)[k].Reconnected? && Errs(e, (a + b)[..k]) < MaxConsecutiveErrors
    {
      if k < |a| {
        assert (a + b)[..k] == a[..k];
      } else {
        assert (a + b)[..k] == a + b[..k - |a|];
        ErrsConcat(e, a, b[..k - |a|]);
      }
    }
  }

  lemma DueConcat(a: seq<Event>, b: seq<Event>)
    requires ReconnectsWhenDue(a) && Errs(0, a) < MaxConsecutiveErrors && Quiet(Errs(0, a), b)
    ensures ReconnectsWhenDue(a + b)
  {
    forall k | 0 <= k < |a + b|
      ensures (a + b)[k].Reconnected? <==> Errs(0, (a + b)[..k]) >= MaxConsecutiveErrors
    {
      if k < |a| {
        assert (a + b)[..k] == a[..k];
      } else {
        assert (a + b)[..k] == a + b[..k - |a|];
        ErrsConcat(0, a, b[..k - |a|]);
      }
    }
  }

  lemma DueReconnect(a: seq<Event>, ok: bool)
    requires ReconnectsWhenDue(a) && Errs(0, a) >= MaxConsecutiveErrors
    ensures ReconnectsWhenDue(a + [Reconnected(Errs(0, a), ok)])
  {
    var b := a + [Reconnected(Errs(0, a), ok)];
    forall k | 0 <= k < |b|
      ensures b[k].Reconnected? <==> Errs(0, b[..k]) >= MaxConsecutiveErrors
    {
      if k < |a| {
        assert b[..k] == a[..k];
      } else {
        assert b[..k] == a;
      }
    }
  }

  lemma CountsAppend(es: seq<Event>, e: Event)
    ensures Presses(es + [e]) == Presses(es) + (if e.Pressed? then 1 else 0)
    ensures Scrolls(es + [e]) == Scrolls(es) + (if e == ScrolledDown(0, true) then 1 else 0)
  {
    assert (es + [e])[..|es|] == es;
  }

  /** One button handled: the row's tab, how the click retry ended, and the
      form's run when the button was clicked. */
  datatype ButtonRun = ButtonRun(tab: Option<string>, climb: ClimbResult, modal: Option<ModalRun>)

  function RunButton(rev: Revision, be: ButtonEnv, term: string, tomorrowDay: string, content: string,
                     activeTemplate: string): ButtonRun {
    var tab := SelectedTab(be.tab);
    var climb := ClimbOutcome(rev, be.tab.ancestors, be.attempt);
    ButtonRun(tab, climb,
      if climb.ClickedAt? then Some(HandleModal(rev, be.modal, term, tab, tomorrowDay, content, activeTemplate)) else None)
  }

  /** The exception that reaches the per-button `except`: one the retry lets
      out, or one the form re-raises (the retry re-raises it, since it is a
      connection-loss failure). */
  function Escape(b: ButtonRun): Option<string> {
    match b.climb
    case ClimbRaised(msg) => Some(msg)
    case GaveUp => None
    case ClickedAt(_) => if b.modal.Some? && b.modal.value.outcome.Raised? then Some(b.modal.value.outcome.msg) else None
  }

  /** Whether the per-button `except` ends the batch ("page refreshed"). */
  predicate EndsBatch(b: ButtonRun) {
    Escape(b).Some? && IsPageRefresh(Escape(b).value)
  }

  /** The counters after one button: a click counts and takes one off the
      pending batch (never below zero); an exception that looks like a page
      refresh adds an error. */
  function AfterButton(c: Counters, b: ButtonRun): Counters {
    var c1 := if b.climb.ClickedAt? then c.(clicked := c.clicked + 1, pending := if c.pending > 0 then c.pending - 1 else 0) else c;
    if EndsBatch(b) then c1.(errors := c1.errors + 1) else c1
  }

  /** The event one button leaves in the trace. */
  function ButtonEvent(i: nat, b: ButtonRun): Event {
    if b.climb.ClickedAt? && b.modal.Some? then Pressed(i, b.tab, b.modal.value.outcome) else Skipped(i, Escape(b))
  }

  /** The trace's error count moves as the counters do after a button. */
  lemma ButtonEventErrors(e: nat, i: nat, b: ButtonRun)
    requires b.climb.ClickedAt? <==> b.modal.Some?
    ensures ErrorStep(e, ButtonEvent(i, b)) == (if EndsBatch(b) then e + 1 else e)
  {
  }

  /** A batch part-way through: the counters, how many buttons it has
      handled, `should_scroll_after_batch`, its events and the page's rows. */
  datatype Batch = Batch(c: Counters, handled: nat, shouldScroll: bool, evs: seq<Event>, nodes: seq<Node>)

  /** The batch after one more button `i`, handled as `b`: the counters move
      by `AfterButton`, a click that empties the pending batch sets the
      scroll flag, and a clicked button is marked clicked. */
  function BatchStep(s: Batch, i: nat, b: ButtonRun): (r: Batch)
    requires i < |s.nodes|
    ensures |r.nodes| == |s.nodes| && r.handled == s.handled + 1 && r.evs == s.evs + [ButtonEvent(i, b)]
  {
    var c := AfterButton(s.c, b);
    Batch(c, s.handled + 1, s.shouldScroll || (b.climb.ClickedAt? && c.pending == 0), s.evs + [ButtonEvent(i, b)],
          if b.climb.ClickedAt? then s.nodes[i := Marked(s.nodes[i], Clicked)] else s.nodes)
  }

  /** The run of the loop's `k`-th button, `env.button(k)`. */
  function RunAt(rev: Revision, env: Env, term: string, tomorrowDay: string, content: string,
                 activeTemplate: string, k: nat): ButtonRun {
    RunButton(rev, env.button(k), term, tomorrowDay, content, activeTemplate)
  }

  /** `runs` says how each of the loop's buttons goes. */
  ghost predicate RunsFrom(runs: nat -> ButtonRun, rev: Revision, env: Env, term: string,
                           tomorrowDay: string, content: string, activeTemplate: string) {
    forall k: nat {:trigger RunAt(rev, env, term, tomorrowDay, content, activeTemplate, k)} ::
      runs(k) == RunAt(rev, env, term, tomorrowDay, content, activeTemplate, k)
  }

  ghost method ButtonRuns(rev: Revision, env: Env, term: string, tomorrowDay: string, content: string,
                          activeTemplate: string) returns (runs: nat -> ButtonRun)
    ensures RunsFrom(runs, rev, env, term, tomorrowDay, content, activeTemplate)
  {
    runs := (k: nat) => RunAt(rev, env, term, tomorrowDay, content, activeTemplate, k);
  }

  /** Every run clicked exactly when it has a form run. */
  ghost predicate RunsWellFormed(runs: nat -> ButtonRun) {
    forall k: nat :: runs(k).climb.ClickedAt? <==> runs(k).modal.Some?
  }

  lemma RunsFromWellFormed(runs: nat -> ButtonRun, rev: Revision, env: Env, term: string,
                           tomorrowDay: string, content: string, activeTemplate: string)
    requires RunsFrom(runs, rev, env, term, tomorrowDay, content, activeTemplate)
    ensures RunsWellFormed(runs)
  {
    forall k: nat ensures runs(k).climb.ClickedAt? <==> runs(k).modal.Some? {
      assert runs(k) == RunAt(rev, env, term, tomorrowDay, content, activeTemplate, k);
    }
  }

  /** The batch loop from its `j`-th available button on, the batch's first
      button being the loop's `base`-th: stop before a button once the
      target is reached, stop after a button whose exception looks like a
      page refresh, and otherwise go on to the next. */
  function BatchFrom(available: seq<nat>, j: nat, maxCount: int, runs: nat -> ButtonRun, base: nat, s: Batch): (r: Batch)
    requires j <= |available| && forall k :: k in available ==> k < |s.nodes|
    ensures |r.nodes| == |s.nodes|
    decreases |available| - j
  {
    if j == |available| || s.c.clicked as int >= maxCount then s
    else
      assert available[j] in available;
      var b := runs(base + s.handled);
      var s' := BatchStep(s, available[j], b);
      if EndsBatch(b) then s' else BatchFrom(available, j + 1, maxCount, runs, base, s')
  }

  /** One unfolding of the batch loop. */
  lemma BatchFromUnfold(available: seq<nat>, j: nat, maxCount: int, runs: nat -> ButtonRun, base: nat, s: Batch)
    requires j <= |available| && forall k :: k in available ==> k < |s.nodes|
    ensures j == |available| || s.c.clicked as int >= maxCount ==> BatchFrom(available, j, maxCount, runs, base, s) == s
    ensures j < |available| && s.c.clicked as int < maxCount ==>
      var b := runs(base + s.handled);
      available[j] < |s.nodes| &&
      BatchFrom(available, j, maxCount, runs, base, s) ==
        if EndsBatch(b) then BatchStep(s, available[j], b)
        else BatchFrom(available, j + 1, maxCount, runs, base, BatchStep(s, available[j], b))
  {
    if j < |available| {
      assert available[j] in available;
    }
  }

  /** One pass of the batch loop leaves the rest of the batch unchanged: after
      the `j`-th button the loop goes on at `j + 1`, or jumps to the end when
      that button ends the batch. */
  lemma BatchAdvance(available: seq<nat>, j: nat, maxCount: int, runs: nat -> ButtonRun, base: nat, s: Batch,
                     h: nat, j': nat, s': Batch)
    requires j < |available| && (forall k :: k in available ==> k < |s.nodes|) && s.c.clicked as int < maxCount
    requires h == base + s.handled && available[j] < |s.nodes| && s' == BatchStep(s, available[j], runs(h))
    requires j' == if EndsBatch(runs(h)) then |available| else j + 1
    ensures BatchFrom(available, j', maxCount, runs, base, s') == BatchFrom(available, j, maxCount, runs, base, s)
  {
    BatchFromUnfold(available, j, maxCount, runs, base, s);
    BatchFromUnfold(available, |available|, maxCount, runs, base, s');
  }

  /** The whole batch over `available`, from the counters `c` and the rows
      `nodes`, with the scroll flag down. */
  function WholeBatch(available: seq<nat>, maxCount: int, runs: nat -> ButtonRun, base: nat, c: Counters,
                      nodes: seq<Node>): Batch
    requires forall k :: k in available ==> k < |nodes|
  {
    BatchFrom(available, 0, maxCount, runs, base, Batch(c, 0, false, [], nodes))
  }

  /** What holds of a batch at every point, measured from the counters `c0`
      and the rows `n0` it started from: the target bound, no scroll and at
      most one error, the pending count never grows, the scroll flag only
      with nothing pending, one press event per click, the trace's error
      count equal to the counter, and every marker kept. */
  ghost predicate BatchOk(c0: Counters, n0: seq<Node>, maxCount: int, s: Batch) {
    (s.c.clicked as int <= maxCount || s.c.clicked == 0) &&
    s.c.scrolls == c0.scrolls && s.c.pending <= c0.pending && s.c.clicked >= c0.clicked &&
    (s.shouldScroll ==> s.c.pending == 0) &&
    Presses(s.evs) == s.c.clicked - c0.clicked && Scrolls(s.evs) == 0 &&
    ScrollsGated(s.evs) && ReconnectsAtThreshold(s.evs) &&
    Quiet(0, s.evs) && Errs(0, s.evs) == s.c.errors && s.c.errors <= 1 &&
    |s.nodes| == |n0| && MarkersKept(n0, s.nodes)
  }

  lemma BatchStepOk(c0: Counters, n0: seq<Node>, maxCount: int, s: Batch, i: nat, b: ButtonRun)
    requires BatchOk(c0, n0, maxCount, s) && s.c.errors == 0 && s.c.clicked as int < maxCount
    requires i < |s.nodes| && (b.climb.ClickedAt? <==> b.modal.Some?)
    ensures BatchOk(c0, n0, maxCount, BatchStep(s, i, b))
    ensures BatchStep(s, i, b).c.errors == (if EndsBatch(b) then 1 else 0)
  {
    var ev := ButtonEvent(i, b);
    CountsAppend(s.evs, ev);
    ErrsAppend(0, s.evs, ev);
    ButtonEventErrors(0, i, b);
    QuietConcat(0, s.evs, [ev]);
    if b.climb.ClickedAt? {
      MarkersKeptByMark(s.nodes, i, Clicked);
      MarkersKeptTransitive(n0, s.nodes, s.nodes[i := Marked(s.nodes[i], Clicked)]);
    }
  }

  /** The batch invariant holds to the end of the batch. */
  lemma {:induction false} BatchFromOk(available: seq<nat>, j: nat, maxCount: int, runs: nat -> ButtonRun, base: nat,
                                       c0: Counters, n0: seq<Node>, s: Batch)
    requires j <= |available| && forall k :: k in available ==> k < |s.nodes|
    requires RunsWellFormed(runs) && BatchOk(c0, n0, maxCount, s) && s.c.errors == 0
    ensures BatchOk(c0, n0, maxCount, BatchFrom(available, j, maxCount, runs, base, s))
    decreases |available| - j
  {
    if j == |available| || s.c.clicked as int >= maxCount {
    } else {
      assert available[j] in available;
      var b := runs(base + s.handled);
      BatchStepOk(c0, n0, maxCount, s, available[j], b);
      if !EndsBatch(b) {
        BatchFromOk(available, j + 1, maxCount, runs, base, c0, n0, BatchStep(s, available[j], b));
      }
    }
  }

  /** The batch handles a prefix of the available buttons, in order, one
      event per button, the loop's buttons taken one after another; when it
      stops short, either the target was reached or a page refresh added an
      error. */
  lemma BatchHandlesInOrder(available: seq<nat>, j: nat, maxCount: int, runs: nat -> ButtonRun, base: nat, s: Batch)
    requires j <= |available| && forall k :: k in available ==> k < |s.nodes|
    ensures var r := BatchFrom(available, j, maxCount, runs, base, s);
      s.handled <= r.handled <= s.handled + (|available| - j) &&
      |r.evs| == |s.evs| + (r.handled - s.handled) && r.evs[..|s.evs|] == s.evs
    ensures var r := BatchFrom(available, j, maxCount, runs, base, s);
      HandledInOrder(r.evs[|s.evs|..], available[j..])
    ensures var r := BatchFrom(available, j, maxCount, runs, base, s);
      r.handled - s.handled < |available| - j ==> r.c.clicked as int >= maxCount || r.c.errors == s.c.errors + 1
  {
    BatchPrefix(available, j, maxCount, runs, base, s);
    var added := BatchInOrder(available, j, maxCount, runs, base, s);
    assert (s.evs + added)[|s.evs|..] == added;
    BatchStopsShort(available, j, maxCount, runs, base, s);
  }

  lemma {:induction false} BatchPrefix(available: seq<nat>, j: nat, maxCount: int, runs: nat -> ButtonRun,
                                       base: nat, s: Batch)
    requires j <= |available| && forall k :: k in available ==> k < |s.nodes|
    ensures var r := BatchFrom(available, j, maxCount, runs, base, s);
      s.handled <= r.handled <= s.handled + (|available| - j) &&
      |r.evs| == |s.evs| + (r.handled - s.handled) && r.evs[..|s.evs|] == s.evs
    decreases |available| - j
  {
    if j < |available| && s.c.clicked as int < maxCount {
      assert available[j] in available;
      var b := runs(base + s.handled);
      var s' := BatchStep(s, available[j], b);
      if !EndsBatch(b) {
        BatchPrefix(available, j + 1, maxCount, runs, base, s');
        var r := BatchFrom(available, j + 1, maxCount, runs, base, s');
        assert r.evs[..|s.evs|] == r.evs[..|s'.evs|][..|s.evs|];
      }
    }
  }

  /** The button events `evs` name the buttons `nodes` one after another,
      from the first. */
  predicate HandledInOrder(evs: seq<Event>, nodes: seq<nat>) {
    |evs| <= |nodes| &&
    forall k :: 0 <= k < |evs| ==> (evs[k].Pressed? || evs[k].Skipped?) && evs[k].node == nodes[k]
  }

  /** The batch from a button it handles, `available[j]`: the button's
      event `e`, the batch `s'` after it, and whether the batch goes on. */
  lemma BatchCons(available: seq<nat>, j: nat, maxCount: int, runs: nat -> ButtonRun, base: nat, s: Batch)
    returns (e: Event, s': Batch, more: bool)
    requires j < |available| && s.c.clicked as int < maxCount && forall k :: k in available ==> k < |s.nodes|
    ensures s'.evs == s.evs + [e] && (e.Pressed? || e.Skipped?) && e.node == available[j]
    ensures forall k :: k in available ==> k < |s'.nodes|
    ensures more ==> BatchFrom(available, j, maxCount, runs, base, s) == BatchFrom(available, j + 1, maxCount, runs, base, s')
    ensures !more ==> BatchFrom(available, j, maxCount, runs, base, s) == s'
  {
    BatchFromUnfold(available, j, maxCount, runs, base, s);
    var b := runs(base + s.handled);
    s' := BatchStep(s, available[j], b);
    e := ButtonEvent(available[j], b);
    more := !EndsBatch(b);
  }

  /** The events the batch adds, `added`, name the available buttons in
      order. */
  lemma {:induction false} BatchInOrder(available: seq<nat>, j: nat, maxCount: int, runs: nat -> ButtonRun,
                                        base: nat, s: Batch)
    returns (added: seq<Event>)
    requires j <= |available| && forall k :: k in available ==> k < |s.nodes|
    ensures BatchFrom(available, j, maxCount, runs, base, s).evs == s.evs + added
    ensures HandledInOrder(added, available[j..])
    decreases |available| - j
  {
    added := [];
    if j < |available| && s.c.clicked as int < maxCount {
      var e, s', more := BatchCons(available, j, maxCount, runs, base, s);
      var rest := [];
      if more {
        rest := BatchInOrder(available, j + 1, maxCount, runs, base, s');
      }
      added := [e] + rest;
      assert s'.evs + rest == s.evs + added;
      assert available[j..][1..] == available[j + 1..];
      HandledOneMore(e, rest, available[j..]);
    } else {
      BatchFromUnfold(available, j, maxCount, runs, base, s);
    }
  }

  lemma HandledOneMore(e: Event, rest: seq<Event>, nodes: seq<nat>)
    requires |nodes| > 0 && (e.Pressed? || e.Skipped?) && e.node == nodes[0] && HandledInOrder(rest, nodes[1..])
    ensures HandledInOrder([e] + rest, nodes)
  {
    forall k | 1 <= k < |[e] + rest|
      ensures ([e] + rest)[k] == rest[k - 1] && nodes[k] == nodes[1..][k - 1]
    {
    }
  }

  lemma {:induction false} BatchStopsShort(available: seq<nat>, j: nat, maxCount: int, runs: nat -> ButtonRun,
                                           base: nat, s: Batch)
    requires j <= |available| && forall k :: k in available ==> k < |s.nodes|
    ensures var r := BatchFrom(available, j, maxCount, runs, base, s);
      r.handled - s.handled < |available| - j ==> r.c.clicked as int >= maxCount || r.c.errors == s.c.errors + 1
    decreases |available| - j
  {
    if j < |available| && s.c.clicked as int < maxCount {
      assert available[j] in available;
      var b := runs(base + s.handled);
      var s' := BatchStep(s, available[j], b);
      if !EndsBatch(b) {
        BatchStopsShort(available, j + 1, maxCount, runs, base, s');
        BatchPrefix(available, j + 1, maxCount, runs, base, s');
      }
    }
  }

  /** A form that fails without a connection-loss marker, the unchosen term
      of the current revision included, never leaves the button: the click
      still counts and the batch goes on. */
  lemma {:induction false} QuietFormFailureIsContained(rev: Revision, be: ButtonEnv, term: string, tomorrowDay: string,
                                     content: string, activeTemplate: string, c: Counters)
    requires RunButton(rev, be, term, tomorrowDay, content, activeTemplate).climb.ClickedAt?
    ensures var b := RunButton(rev, be, term, tomorrowDay, content, activeTemplate);
      Escape(b).Some? ==> IsTransient(Escape(b).value) && EndsBatch(b)
    ensures var b := RunButton(rev, be, term, tomorrowDay, content, activeTemplate);
      AfterButton(c, b).clicked == c.clicked + 1 && AfterButton(c, b).pending == (if c.pending > 0 then c.pending - 1 else 0)
  {
    var b := RunButton(rev, be, term, tomorrowDay, content, activeTemplate);
    assert b.modal.Some?;
    var run := b.modal.value;
    assert run == HandleModal(rev, be.modal, term, b.tab, tomorrowDay, content, activeTemplate);
    if run.outcome.Raised? {
      assert IsTransient(run.outcome.msg);
    }
  }

  /** In particular the current revision's "term not found" error is caught
      by the form handler, unless the configured term itself carries a
      connection-loss marker; it never reaches the outer `except` that was
      written to re-raise it. */
  lemma TermNotFoundDoesNotStopBatch(be: ButtonEnv, term: string, tomorrowDay: string, content: string,
                                     activeTemplate: string)
    requires RunButton(Current, be, term, tomorrowDay, content, activeTemplate).climb.ClickedAt?
    requires be.modal.Iframe() == IframeFound
    requires !Terms.SelectTermCurrent(term, be.modal.term, be.modal.pick).Picked?
    requires !IsTransient(TermNotFoundPrefix + term)
    ensures var b := RunButton(Current, be, term, tomorrowDay, content, activeTemplate);
      b.modal == Some(ModalRun(Aborted, [TermStep(false)])) && Escape(b).None? && !EndsBatch(b)
  {
  }

  /** In the earlier revision every exception that leaves a button ends the
      batch: the retry raises only connection-loss failures. */
  lemma EarlierEscapesEndBatch(be: ButtonEnv, term: string, tomorrowDay: string, content: string, activeTemplate: string)
    requires Escape(RunButton(Earlier, be, term, tomorrowDay, content, activeTemplate)).Some?
    ensures EndsBatch(RunButton(Earlier, be, term, tomorrowDay, content, activeTemplate))
  {
    var b := RunButton(Earlier, be, term, tomorrowDay, content, activeTemplate);
    if b.climb.ClimbRaised? {
      EarlierClimbRaisesOnlyTransient(be.tab.ancestors, be.attempt);
    } else {
      assert b.modal.Some? && b.modal.value.outcome.Raised?;
      assert IsTransient(b.modal.value.outcome.msg);
    }
  }

  /** What a part of a round leaves: the counters, the cursor, the events it
      added, the page's rows, and the reason when it ends the loop. */
  datatype Turn = Turn(c: Counters, cur: Cursor, evs: seq<Event>, nodes: seq<Node>, stop: Option<StopReason>)

  /** `scroll_down(500)`: a failure adds an error; a scroll that works counts
      and loads more rows. */
  function ScrollTurn(env: Env, cur: Cursor, c: Counters, nodes: seq<Node>): Turn {
    var loaded := env.scroll(cur.scrolls);
    Turn(if loaded.Some? then c.(scrolls := c.scrolls + 1) else c.(errors := c.errors + 1),
         cur.(scrolls := cur.scrolls + 1), [ScrolledDown(c.pending, loaded.Some?)],
         if loaded.Some? then nodes + loaded.value else nodes, None)
  }

  /** A round with buttons available: run the batch, stop at the target, and
      scroll after it when the batch set the scroll flag or no counted button
      is pending. */
  function BatchTurn(available: seq<nat>, maxCount: int, runs: nat -> ButtonRun, env: Env, cur: Cursor, c: Counters,
                     nodes: seq<Node>): Turn
    requires forall k :: k in available ==> k < |nodes|
  {
    var r := WholeBatch(available, maxCount, runs, cur.buttons, c, nodes);
    var cur' := cur.(buttons := cur.buttons + r.handled);
    if r.c.clicked as int >= maxCount then Turn(r.c, cur', r.evs, r.nodes, Some(TargetReached))
    else if r.shouldScroll || r.c.pending == 0 then
      var t := ScrollTurn(env, cur', r.c, r.nodes);
      t.(evs := r.evs + t.evs)
    else Turn(r.c, cur', r.evs, r.nodes, None)
  }

  /** The rest of a round once the scan has left `available`: with nothing
      available, scroll when no counted button is pending and otherwise clear
      the pending count; else clear the error count and run the batch. */
  function AfterScanTurn(available: seq<nat>, maxCount: int, runs: nat -> ButtonRun, env: Env, cur: Cursor, c: Counters,
                         nodes: seq<Node>): Turn
    requires forall k :: k in available ==> k < |nodes|
  {
    if |available| == 0 then
      if c.pending == 0 then ScrollTurn(env, cur, c, nodes) else Turn(c.(pending := 0), cur, [], nodes, None)
    else BatchTurn(available, maxCount, runs, env, cur, c.(errors := 0), nodes)
  }

  /** Whether a button query's exception leaves the loop: only the current
      revision re-raises it, when it names the "term not found" marker and
      is not a connection loss. */
  predicate CrashesLoop(rev: Revision, msg: string) {
    rev == Current && !IsTransient(msg) && Contains(Lower(msg), TermNotFoundMarker)
  }

  /** The scan of the controls the query found: the partition loop over the
      "Send Proposal" candidates among them. */
  function ScanOf(nodes: seq<Node>, found: seq<nat>): (s: ScanResult)
    ensures |s.nodes| == |nodes| && forall k :: k in s.available ==> k < |s.nodes|
  {
    AvailableOnPage(nodes, found);
    ScanSummary(nodes, Candidates(nodes, found));
    ScanFrom(nodes, Candidates(nodes, found))
  }

  /** A round whose query answered `found`: the scan counts the fresh
      candidates into the pending and detected counts, then the round goes on
      as `AfterScanTurn` says. */
  function ScanTurn(maxCount: int, runs: nat -> ButtonRun, env: Env, cur: Cursor, c: Counters, nodes: seq<Node>,
                    found: seq<nat>): Turn {
    var s := ScanOf(nodes, found);
    var t := AfterScanTurn(s.available, maxCount, runs, env, cur,
                           c.(pending := c.pending + s.newlyCounted, detected := c.detected + s.newlyCounted), s.nodes);
    t.(evs := [Scanned(s.newlyCounted, |s.available|)] + t.evs)
  }

  /** One round after the reconnect check: query the buttons (an exception
      that propagates adds an error, or leaves the loop), then scan. */
  function RoundTurn(rev: Revision, maxCount: int, runs: nat -> ButtonRun, env: Env, cur: Cursor, c: Counters,
                     nodes: seq<Node>): Turn {
    var cur' := cur.(queries := cur.queries + 1);
    match FindElements(env.buttons(cur.queries))
    case Propagated(f) =>
      if CrashesLoop(rev, f.msg) then Turn(c, cur', [QueryFailed(f.msg)], nodes, Some(Crashed(f.msg)))
      else Turn(c.(errors := c.errors + 1), cur', [QueryFailed(f.msg)], nodes, None)
    case Value(found) => ScanTurn(maxCount, runs, env, cur', c, nodes, found)
  }

  /** How the loop ends: the count it returns, why, its trace, the page's
      rows and the browser's tab. */
  datatype Finish = Finish(clicked: nat, reason: StopReason, events: seq<Event>, nodes: seq<Node>, tab: Option<nat>)

  /** The `while total_scrolls < max_scrolls` loop from the counters `c`, the
      cursor `cur`, the trace `evs`, the rows `nodes` and the browser's tab
      `tab`, for at most `fuel` more rounds: at three consecutive errors
      reconnect first, and stop when that fails (the tab stays as it was);
      a reconnect that works moves to the tab it chooses; then run a round. */
  function LoopFrom(rev: Revision, maxCount: int, runs: nat -> ButtonRun, env: Env, fuel: nat, cur: Cursor, c: Counters,
                    evs: seq<Event>, nodes: seq<Node>, tab: Option<nat>): Finish
    decreases fuel, 1
  {
    if c.scrolls >= MaxScrolls then Finish(c.clicked, ScrollsExhausted, evs, nodes, tab)
    else if fuel == 0 then Finish(c.clicked, OutOfFuel, evs, nodes, tab)
    else if c.errors >= MaxConsecutiveErrors && !ReconnectWorks(env.connect(cur.reconnects)) then
      Finish(c.clicked, ReconnectFailed, evs + [Reconnected(c.errors, false)], nodes, tab)
    else
      var due := c.errors >= MaxConsecutiveErrors;
      RoundThenLoop(rev, maxCount, runs, env, fuel,
                    if due then cur.(reconnects := cur.reconnects + 1) else cur,
                    if due then c.(errors := 0) else c,
                    if due then evs + [Reconnected(c.errors, true)] else evs, nodes,
                    if due then ReconnectFrom(rev, env.connect(cur.reconnects), 0) else tab)
  }

  /** A round of the loop once the reconnect check has passed, then the rest
      of the loop, `fuel - 1` more rounds, unless the round stops it. */
  function RoundThenLoop(rev: Revision, maxCount: int, runs: nat -> ButtonRun, env: Env, fuel: nat, cur: Cursor,
                         c: Counters, evs: seq<Event>, nodes: seq<Node>, tab: Option<nat>): Finish
    requires fuel > 0
    decreases fuel, 0
  {
    var t := RoundTurn(rev, maxCount, runs, env, cur, c, nodes);
    if t.stop.Some? then Finish(t.c.clicked, t.stop.value, evs + t.evs, t.nodes, tab)
    else LoopFrom(rev, maxCount, runs, env, fuel - 1, t.cur, t.c, evs + t.evs, t.nodes, tab)
  }

  /** The bookkeeping a part of a round keeps, measured from the counters `c`
      and the rows `nodes` it started from, its trace's error count read from
      `e`: the target bound, at most one scroll, one press event per click
      and one scroll event per scroll, no scroll while counted buttons are
      pending, no reconnect and the threshold not reached before any event,
      the error counter equal to the trace's, and every marker kept. */
  ghost predicate TurnOk(c: Counters, nodes: seq<Node>, maxCount: int, e: nat, t: Turn) {
    (t.c.clicked as int <= maxCount || t.c.clicked == 0) &&
    c.scrolls <= t.c.scrolls <= c.scrolls + 1 && t.c.errors <= MaxConsecutiveErrors &&
    Presses(t.evs) == t.c.clicked - c.clicked && Scrolls(t.evs) == t.c.scrolls - c.scrolls &&
    ScrollsGated(t.evs) && Quiet(e, t.evs) && (t.stop.None? ==> t.c.errors == Errs(e, t.evs)) &&
    (t.stop == Some(TargetReached) ==> t.c.clicked as int >= maxCount) &&
    MarkersKept(nodes, t.nodes)
  }

  lemma ScrollTurnOk(env: Env, cur: Cursor, c: Counters, nodes: seq<Node>, maxCount: int)
    requires c.pending == 0 && c.errors < MaxConsecutiveErrors && (c.clicked as int <= maxCount || c.clicked == 0)
    ensures TurnOk(c, nodes, maxCount, c.errors, ScrollTurn(env, cur, c, nodes)) && ScrollTurn(env, cur, c, nodes).stop.None?
  {
    var t := ScrollTurn(env, cur, c, nodes);
    var ev := t.evs[0];
    assert [] + [ev] == t.evs;
    CountsAppend([], ev);
    ErrsAppend(c.errors, [], ev);
    assert t.evs[..0] == [];
  }

  /** After a batch the round keeps its bookkeeping, and ends only at the
      target. */
  lemma BatchTurnOk(available: seq<nat>, maxCount: int, runs: nat -> ButtonRun, env: Env, cur: Cursor, c: Counters,
                    nodes: seq<Node>)
    requires forall k :: k in available ==> k < |nodes|
    requires RunsWellFormed(runs) && c.errors == 0 && (c.clicked as int <= maxCount || c.clicked == 0)
    ensures var t := BatchTurn(available, maxCount, runs, env, cur, c, nodes);
      TurnOk(c, nodes, maxCount, 0, t) && (t.stop == None || t.stop == Some(TargetReached))
  {
    var start := Batch(c, 0, false, [], nodes);
    assert BatchOk(c, nodes, maxCount, start);
    BatchFromOk(available, 0, maxCount, runs, cur.buttons, c, nodes, start);
    var r := WholeBatch(available, maxCount, runs, cur.buttons, c, nodes);
    var cur' := cur.(buttons := cur.buttons + r.handled);
    if r.c.clicked as int < maxCount && (r.shouldScroll || r.c.pending == 0) {
      var s := ScrollTurn(env, cur', r.c, r.nodes);
      ScrollTurnOk(env, cur', r.c, r.nodes, maxCount);
      PressesConcat(r.evs, s.evs);
      ErrsConcat(0, r.evs, s.evs);
      QuietConcat(0, r.evs, s.evs);
      MarkersKeptTransitive(nodes, r.nodes, s.nodes);
    }
  }

  lemma AfterScanTurnOk(available: seq<nat>, maxCount: int, runs: nat -> ButtonRun, env: Env, cur: Cursor, c: Counters,
                        nodes: seq<Node>)
    requires forall k :: k in available ==> k < |nodes|
    requires RunsWellFormed(runs) && c.errors < MaxConsecutiveErrors && (c.clicked as int <= maxCount || c.clicked == 0)
    ensures var t := AfterScanTurn(available, maxCount, runs, env, cur, c, nodes);
      TurnOk(c, nodes, maxCount, if |available| > 0 then 0 else c.errors, t) &&
      (t.stop == None || t.stop == Some(TargetReached))
  {
    if |available| == 0 {
      if c.pending == 0 {
        ScrollTurnOk(env, cur, c, nodes, maxCount);
      }
    } else {
      BatchTurnOk(available, maxCount, runs, env, cur, c.(errors := 0), nodes);
    }
  }

  /** An event that neither clicks, scrolls nor reconnects, put before a
      part of a round that keeps the bookkeeping from the counters and rows
      it leaves. */
  lemma PrefixOk(c: Counters, nodes: seq<Node>, maxCount: int, ev: Event, c1: Counters, n1: seq<Node>, rest: Turn)
    requires !ev.Reconnected? && !ev.Pressed? && !ev.ScrolledDown?
    requires c1.clicked == c.clicked && c1.scrolls == c.scrolls && c.errors < MaxConsecutiveErrors
    requires TurnOk(c1, n1, maxCount, ErrorStep(c.errors, ev), rest) && MarkersKept(nodes, n1)
    ensures TurnOk(c, nodes, maxCount, c.errors, rest.(evs := [ev] + rest.evs))
  {
    var first := [ev];
    assert first[..0] == [];
    PressesConcat(first, rest.evs);
    ErrsConcat(c.errors, first, rest.evs);
    QuietConcat(c.errors, first, rest.evs);
    MarkersKeptTransitive(nodes, n1, rest.nodes);
  }

  lemma ScanTurnOk(maxCount: int, runs: nat -> ButtonRun, env: Env, cur: Cursor, c: Counters, nodes: seq<Node>,
                   found: seq<nat>)
    requires RunsWellFormed(runs) && c.errors < MaxConsecutiveErrors && (c.clicked as int <= maxCount || c.clicked == 0)
    ensures var t := ScanTurn(maxCount, runs, env, cur, c, nodes, found);
      TurnOk(c, nodes, maxCount, c.errors, t) && (t.stop == None || t.stop == Some(TargetReached))
  {
    var s := ScanOf(nodes, found);
    var c1 := c.(pending := c.pending + s.newlyCounted, detected := c.detected + s.newlyCounted);
    var rest := AfterScanTurn(s.available, maxCount, runs, env, cur, c1, s.nodes);
    assert ScanTurn(maxCount, runs, env, cur, c, nodes, found) == rest.(evs := [Scanned(s.newlyCounted, |s.available|)] + rest.evs);
    AvailableOnPage(nodes, found);
    ScanSummary(nodes, Candidates(nodes, found));
    MarkersKeptByScan(nodes, s.nodes);
    AfterScanTurnOk(s.available, maxCount, runs, env, cur, c1, s.nodes);
    PrefixOk(c, nodes, maxCount, Scanned(s.newlyCounted, |s.available|), c1, s.nodes, rest);
  }

  /** A round keeps the bookkeeping, leaves at least one event, and ends the
      loop only at the target or on an exception the current revision
      re-raises. */
  lemma RoundTurnOk(rev: Revision, maxCount: int, runs: nat -> ButtonRun, env: Env, cur: Cursor, c: Counters,
                    nodes: seq<Node>)
    requires RunsWellFormed(runs) && c.errors < MaxConsecutiveErrors && (c.clicked as int <= maxCount || c.clicked == 0)
    ensures var t := RoundTurn(rev, maxCount, runs, env, cur, c, nodes);
      TurnOk(c, nodes, maxCount, c.errors, t) && |t.evs| > 0 &&
      (t.stop.Some? ==> t.stop.value.TargetReached? || t.stop.value.Crashed?)
    ensures var t := RoundTurn(rev, maxCount, runs, env, cur, c, nodes);
      t.stop.Some? && t.stop.value.Crashed? ==>
        CrashesLoop(rev, t.stop.value.msg) && env.buttons(cur.queries) == Threw(Failure(OtherError, t.stop.value.msg))
  {
    var t := RoundTurn(rev, maxCount, runs, env, cur, c, nodes);
    var found := FindElements(env.buttons(cur.queries));
    if found.Propagated? {
      assert t.evs == [QueryFailed(found.failure.msg)] && t.nodes == nodes && t.c.scrolls == c.scrolls;
      assert t.evs[..0] == [];
    } else {
      assert t == ScanTurn(maxCount, runs, env, cur.(queries := cur.queries + 1), c, nodes, found.value);
      ScanTurnOk(maxCount, runs, env, cur.(queries := cur.queries + 1), c, nodes, found.value);
    }
  }

  /** The rules a round follows, read off what it leaves: it always leaves
      an event, a scan first when the query answered; a query exception that
      is not re-raised adds an error and nothing else; a scan that finds
      nothing available either clears a pending count without scrolling, or
      with nothing pending scrolls; after a scan that finds buttons the error
      count is that of the batch and its scroll alone. */
  lemma RoundRules(rev: Revision, maxCount: int, runs: nat -> ButtonRun, env: Env, cur: Cursor, c: Counters,
                   nodes: seq<Node>)
    requires RunsWellFormed(runs) && (c.clicked as int <= maxCount || c.clicked == 0)
    ensures var t := RoundTurn(rev, maxCount, runs, env, cur, c, nodes);
      |t.evs| > 0 && (t.evs[0].Scanned? <==> FindElements(env.buttons(cur.queries)).Value?)
    ensures var t := RoundTurn(rev, maxCount, runs, env, cur, c, nodes);
      var q := env.buttons(cur.queries);
      q.Threw? && q.failure.kind == OtherError && !IsTransient(q.failure.msg) && !CrashesLoop(rev, q.failure.msg) ==>
        t == Turn(c.(errors := c.errors + 1), cur.(queries := cur.queries + 1), [QueryFailed(q.failure.msg)], nodes, None)
    ensures var t := RoundTurn(rev, maxCount, runs, env, cur, c, nodes);
      t.evs[0].Scanned? && t.evs[0].available == 0 && c.pending > 0 ==>
        t.evs == [Scanned(0, 0)] && t.c == c.(pending := 0) && t.cur == cur.(queries := cur.queries + 1) && t.stop.None?
    ensures var t := RoundTurn(rev, maxCount, runs, env, cur, c, nodes);
      t.evs[0].Scanned? && t.evs[0].available == 0 && c.pending == 0 ==>
        t.evs == [Scanned(0, 0), ScrolledDown(0, env.scroll(cur.scrolls).Some?)] &&
        t.cur == cur.(queries := cur.queries + 1, scrolls := cur.scrolls + 1) && t.stop.None?
    ensures var t := RoundTurn(rev, maxCount, runs, env, cur, c, nodes);
      t.evs[0].Scanned? && t.evs[0].available > 0 && t.stop.None? ==> t.c.errors == Errs(0, t.evs[1..])
  {
    var found := FindElements(env.buttons(cur.queries));
    if found.Value? {
      ScanRules(maxCount, runs, env, cur.(queries := cur.queries + 1), c, nodes, found.value);
    }
  }

  lemma ScanRules(maxCount: int, runs: nat -> ButtonRun, env: Env, cur: Cursor, c: Counters, nodes: seq<Node>,
                  found: seq<nat>)
    requires RunsWellFormed(runs) && (c.clicked as int <= maxCount || c.clicked == 0)
    ensures var t := ScanTurn(maxCount, runs, env, cur, c, nodes, found);
      var s := ScanOf(nodes, found);
      t.evs[0] == Scanned(s.newlyCounted, |s.available|) &&
      (|s.available| == 0 && c.pending > 0 ==>
        t.evs == [Scanned(0, 0)] && t.c == c.(pending := 0) && t.cur == cur && t.stop.None?) &&
      (|s.available| == 0 && c.pending == 0 ==>
        t.evs == [Scanned(0, 0), ScrolledDown(0, env.scroll(cur.scrolls).Some?)] &&
        t.cur == cur.(scrolls := cur.scrolls + 1) && t.stop.None?) &&
      (|s.available| > 0 && t.stop.None? ==> t.c.errors == Errs(0, t.evs[1..]))
  {
    var s := ScanOf(nodes, found);
    var c1 := c.(pending := c.pending + s.newlyCounted, detected := c.detected + s.newlyCounted);
    var rest := AfterScanTurn(s.available, maxCount, runs, env, cur, c1, s.nodes);
    var t := ScanTurn(maxCount, runs, env, cur, c, nodes, found);
    assert t == rest.(evs := [Scanned(s.newlyCounted, |s.available|)] + rest.evs);
    AvailableOnPage(nodes, found);
    ScanSummary(nodes, Candidates(nodes, found));
    if |s.available| > 0 {
      assert rest == BatchTurn(s.available, maxCount, runs, env, cur, c1.(errors := 0), s.nodes);
      BatchTurnOk(s.available, maxCount, runs, env, cur, c1.(errors := 0), s.nodes);
      assert t.evs[1..] == rest.evs;
    }
  }

  /** What the loop has kept at the top of each round, with the counters `c`
      after the trace `evs`: the target bound, one press per click and one
      scroll event per scroll, scrolls gated, reconnects exactly at the
      threshold, the error count of the trace, and every reconnect so far
      worked. */
  ghost predicate LoopOk(maxCount: int, c: Counters, evs: seq<Event>) {
    (c.clicked as int <= maxCount || c.clicked == 0) && c.scrolls <= MaxScrolls && c.errors <= MaxConsecutiveErrors &&
    Presses(evs) == c.clicked && Scrolls(evs) == c.scrolls && ScrollsGated(evs) && ReconnectsAtThreshold(evs) &&
    ReconnectsWhenDue(evs) && c.errors == Errs(0, evs) &&
    forall k :: 0 <= k < |evs| && evs[k].Reconnected? ==> evs[k].ok
  }

  /** What the loop promises when it ends, started from the rows `n0`: the
      target bound and the target reached when it says so, one press per
      click, at most `max_scrolls` scrolls and all of them when it says so,
      no scroll while counted buttons are pending, reconnects exactly when
      three errors have accumulated, only the last of them failed, and only
      when the loop says so, an exception let out only as the current
      revision's re-raise of a query exception, and every marker kept. */
  ghost predicate FinishOk(rev: Revision, env: Env, maxCount: int, n0: seq<Node>, f: Finish) {
    (f.clicked as int <= maxCount || f.clicked == 0) &&
    (f.reason == TargetReached ==> f.clicked as int >= maxCount) &&
    Presses(f.events) == f.clicked && Scrolls(f.events) <= MaxScrolls &&
    (f.reason == ScrollsExhausted ==> Scrolls(f.events) == MaxScrolls) &&
    ScrollsGated(f.events) && ReconnectsAtThreshold(f.events) &&
    ReconnectsWhenDue(f.events) && Errs(0, f.events) <= MaxConsecutiveErrors &&
    (forall k :: 0 <= k < |f.events| - 1 && f.events[k].Reconnected? ==> f.events[k].ok) &&
    (f.reason == ReconnectFailed <==> |f.events| > 0 && f.events[|f.events| - 1] == Reconnected(MaxConsecutiveErrors, false)) &&
    (f.reason.Crashed? ==>
      CrashesLoop(rev, f.reason.msg) && exists k :: env.buttons(k) == Threw(Failure(OtherError, f.reason.msg))) &&
    MarkersKept(n0, f.nodes)
  }

  lemma ReconnectOk(maxCount: int, c: Counters, evs: seq<Event>, ok: bool)
    requires LoopOk(maxCount, c, evs) && c.errors >= MaxConsecutiveErrors
    ensures var evs' := evs + [Reconnected(c.errors, ok)];
      Presses(evs') == c.clicked && Scrolls(evs') == c.scrolls && ScrollsGated(evs') && ReconnectsAtThreshold(evs') &&
      ReconnectsWhenDue(evs') && Errs(0, evs') == (if ok then 0 else c.errors) &&
      forall k :: 0 <= k < |evs| && evs'[k].Reconnected? ==> evs'[k].ok
  {
    var ev := Reconnected(c.errors, ok);
    CountsAppend(evs, ev);
    ErrsAppend(0, evs, ev);
    DueReconnect(evs, ok);
    PressesConcat(evs, [ev]);
  }

  /** A stretch with no reconnect that starts below the threshold ends at
      most at the threshold. */
  lemma QuietBound(e: nat, es: seq<Event>)
    requires Quiet(e, es) && e < MaxConsecutiveErrors
    ensures Errs(e, es) <= MaxConsecutiveErrors
  {
    if |es| > 0 {
      assert Errs(e, es[..|es| - 1]) < MaxConsecutiveErrors;
    }
  }

  /** A round from the top of the loop that does not stop it keeps
      `LoopOk`. */
  lemma RoundContinuesOk(maxCount: int, c1: Counters, evs1: seq<Event>, nodes: seq<Node>, n0: seq<Node>, t: Turn)
    requires LoopOk(maxCount, c1, evs1) && c1.errors < MaxConsecutiveErrors && c1.scrolls < MaxScrolls
    requires MarkersKept(n0, nodes) && TurnOk(c1, nodes, maxCount, c1.errors, t) && t.stop.None?
    ensures MarkersKept(n0, t.nodes) && LoopOk(maxCount, t.c, evs1 + t.evs)
  {
    var evs2 := evs1 + t.evs;
    PressesConcat(evs1, t.evs);
    ErrsConcat(0, evs1, t.evs);
    DueConcat(evs1, t.evs);
    MarkersKeptTransitive(n0, nodes, t.nodes);
    assert ReconnectsAtThreshold(t.evs);
    assert forall k :: 0 <= k < |evs2| && evs2[k].Reconnected? ==> k < |evs1| && evs2[k] == evs1[k];
  }

  /** A round from the top of the loop that stops it ends the loop as
      `FinishOk` says. */
  lemma RoundStopsOk(rev: Revision, env: Env, maxCount: int, c1: Counters, q: nat, evs1: seq<Event>,
                     nodes: seq<Node>, n0: seq<Node>, t: Turn, tab: Option<nat>)
    requires LoopOk(maxCount, c1, evs1) && c1.errors < MaxConsecutiveErrors && c1.scrolls < MaxScrolls
    requires MarkersKept(n0, nodes) && TurnOk(c1, nodes, maxCount, c1.errors, t) && |t.evs| > 0
    requires t.stop.Some? && (t.stop.value.TargetReached? || t.stop.value.Crashed?)
    requires t.stop.value.Crashed? ==>
      CrashesLoop(rev, t.stop.value.msg) && env.buttons(q) == Threw(Failure(OtherError, t.stop.value.msg))
    ensures FinishOk(rev, env, maxCount, n0, Finish(t.c.clicked, t.stop.value, evs1 + t.evs, t.nodes, tab))
  {
    var evs2 := evs1 + t.evs;
    PressesConcat(evs1, t.evs);
    ErrsConcat(0, evs1, t.evs);
    DueConcat(evs1, t.evs);
    QuietBound(c1.errors, t.evs);
    MarkersKeptTransitive(n0, nodes, t.nodes);
    assert ReconnectsAtThreshold(t.evs);
    assert evs2[|evs2| - 1] == t.evs[|t.evs| - 1];
    assert forall k :: 0 <= k < |evs2| && evs2[k].Reconnected? ==> k < |evs1| && evs2[k] == evs1[k];
  }

  /** One round of the loop, given the round's turn `t` from the counters
      after the reconnect step. */
  lemma LoopFromStep(rev: Revision, maxCount: int, runs: nat -> ButtonRun, env: Env, fuel: nat, cur: Cursor, c: Counters,
                     evs: seq<Event>, nodes: seq<Node>, tab: Option<nat>, cur1: Cursor, c1: Counters, evs1: seq<Event>,
                     tab1: Option<nat>, t: Turn)
    requires c.scrolls < MaxScrolls && fuel > 0
    requires c.errors >= MaxConsecutiveErrors ==> ReconnectWorks(env.connect(cur.reconnects))
    requires var due := c.errors >= MaxConsecutiveErrors;
      cur1 == (if due then cur.(reconnects := cur.reconnects + 1) else cur) &&
      c1 == (if due then c.(errors := 0) else c) &&
      evs1 == (if due then evs + [Reconnected(c.errors, true)] else evs) &&
      tab1 == (if due then ReconnectFrom(rev, env.connect(cur.reconnects), 0) else tab)
    requires t == RoundTurn(rev, maxCount, runs, env, cur1, c1, nodes)
    ensures LoopFrom(rev, maxCount, runs, env, fuel, cur, c, evs, nodes, tab) ==
      if t.stop.Some? then Finish(t.c.clicked, t.stop.value, evs1 + t.evs, t.nodes, tab1)
      else LoopFrom(rev, maxCount, runs, env, fuel - 1, t.cur, t.c, evs1 + t.evs, t.nodes, tab1)
  {
    assert LoopFrom(rev, maxCount, runs, env, fuel, cur, c, evs, nodes, tab) ==
      RoundThenLoop(rev, maxCount, runs, env, fuel, cur1, c1, evs1, nodes, tab1);
  }

  /** The loop ending at the top, on the scroll limit or out of fuel. */
  lemma LoopEndsOk(rev: Revision, maxCount: int, runs: nat -> ButtonRun, env: Env, fuel: nat, cur: Cursor,
                   c: Counters, evs: seq<Event>, nodes: seq<Node>, tab: Option<nat>, n0: seq<Node>, f: Finish)
    requires LoopOk(maxCount, c, evs) && MarkersKept(n0, nodes)
    requires f == LoopFrom(rev, maxCount, runs, env, fuel, cur, c, evs, nodes, tab)
    requires c.scrolls >= MaxScrolls || fuel == 0
    ensures FinishOk(rev, env, maxCount, n0, f)
  {
    assert f == Finish(c.clicked, if c.scrolls >= MaxScrolls then ScrollsExhausted else OutOfFuel, evs, nodes, tab);
    if |evs| > 0 {
      assert evs[|evs| - 1].Reconnected? ==> evs[|evs| - 1].ok;
    }
  }

  /** The loop ending on a failed reconnect. */
  lemma ReconnectFailsOk(rev: Revision, maxCount: int, runs: nat -> ButtonRun, env: Env, fuel: nat, cur: Cursor,
                         c: Counters, evs: seq<Event>, nodes: seq<Node>, tab: Option<nat>, n0: seq<Node>, f: Finish)
    requires LoopOk(maxCount, c, evs) && MarkersKept(n0, nodes)
    requires f == LoopFrom(rev, maxCount, runs, env, fuel, cur, c, evs, nodes, tab)
    requires c.scrolls < MaxScrolls && fuel > 0
    requires c.errors >= MaxConsecutiveErrors && !ReconnectWorks(env.connect(cur.reconnects))
    ensures FinishOk(rev, env, maxCount, n0, f)
  {
    assert f == Finish(c.clicked, ReconnectFailed, evs + [Reconnected(c.errors, false)], nodes, tab);
    ReconnectOk(maxCount, c, evs, false);
  }

  /** A round from the top of the loop either ends the loop as `FinishOk`
      says or leaves `LoopOk` in place for the next one. */
  lemma RoundOk(rev: Revision, maxCount: int, runs: nat -> ButtonRun, env: Env, cur1: Cursor, c1: Counters,
                evs1: seq<Event>, nodes: seq<Node>, tab: Option<nat>, n0: seq<Node>)
    requires RunsWellFormed(runs) && LoopOk(maxCount, c1, evs1) && c1.errors < MaxConsecutiveErrors
    requires c1.scrolls < MaxScrolls && MarkersKept(n0, nodes)
    ensures var t := RoundTurn(rev, maxCount, runs, env, cur1, c1, nodes);
      (t.stop.Some? ==> FinishOk(rev, env, maxCount, n0, Finish(t.c.clicked, t.stop.value, evs1 + t.evs, t.nodes, tab))) &&
      (t.stop.None? ==> MarkersKept(n0, t.nodes) && LoopOk(maxCount, t.c, evs1 + t.evs))
  {
    var t := RoundTurn(rev, maxCount, runs, env, cur1, c1, nodes);
    RoundTurnOk(rev, maxCount, runs, env, cur1, c1, nodes);
    if t.stop.Some? {
      RoundStopsOk(rev, env, maxCount, c1, cur1.queries, evs1, nodes, n0, t, tab);
    } else {
      RoundContinuesOk(maxCount, c1, evs1, nodes, n0, t);
    }
  }

  /** A round of the loop that neither starts at its end nor fails to
      reconnect: `t` is the round's turn and `evs1` the trace before it. The
      round ends the loop as `FinishOk` says, or the loop goes on from it with
      `LoopOk` in place. */
  lemma LoopRoundOk(rev: Revision, maxCount: int, runs: nat -> ButtonRun, env: Env, fuel: nat, cur: Cursor,
                    c: Counters, evs: seq<Event>, nodes: seq<Node>, tab: Option<nat>, n0: seq<Node>, f: Finish)
    returns (t: Turn, evs1: seq<Event>, tab1: Option<nat>)
    requires RunsWellFormed(runs) && LoopOk(maxCount, c, evs) && MarkersKept(n0, nodes)
    requires f == LoopFrom(rev, maxCount, runs, env, fuel, cur, c, evs, nodes, tab)
    requires c.scrolls < MaxScrolls && fuel > 0
    requires c.errors >= MaxConsecutiveErrors ==> ReconnectWorks(env.connect(cur.reconnects))
    ensures t.stop.Some? ==> FinishOk(rev, env, maxCount, n0, f)
    ensures t.stop.None? ==>
      LoopOk(maxCount, t.c, evs1 + t.evs) && MarkersKept(n0, t.nodes) &&
      f == LoopFrom(rev, maxCount, runs, env, fuel - 1, t.cur, t.c, evs1 + t.evs, t.nodes, tab1)
  {
    var due := c.errors >= MaxConsecutiveErrors;
    var cur1 := if due then cur.(reconnects := cur.reconnects + 1) else cur;
    var c1 := if due then c.(errors := 0) else c;
    evs1 := if due then evs + [Reconnected(c.errors, true)] else evs;
    tab1 := if due then ReconnectFrom(rev, env.connect(cur.reconnects), 0) else tab;
    t := RoundTurn(rev, maxCount, runs, env, cur1, c1, nodes);
    LoopFromStep(rev, maxCount, runs, env, fuel, cur, c, evs, nodes, tab, cur1, c1, evs1, tab1, t);
    if due {
      ReconnectOk(maxCount, c, evs, true);
    }
    assert LoopOk(maxCount, c1, evs1) && c1.errors < MaxConsecutiveErrors;
    RoundOk(rev, maxCount, runs, env, cur1, c1, evs1, nodes, tab1, n0);
    if t.stop.Some? {
      assert f == Finish(t.c.clicked, t.stop.value, evs1 + t.evs, t.nodes, tab1);
    }
  }

  /** One step of the loop from `LoopOk`: it ends as `FinishOk` says, or
      `more` rounds follow the round `t`, from the trace `evs1 + t.evs`. */
  lemma LoopStepOk(rev: Revision, maxCount: int, runs: nat -> ButtonRun, env: Env, fuel: nat, cur: Cursor,
                   c: Counters, evs: seq<Event>, nodes: seq<Node>, tab: Option<nat>, n0: seq<Node>, f: Finish)
    returns (more: bool, cur': Cursor, c': Counters, evs': seq<Event>, nodes': seq<Node>, tab': Option<nat>)
    requires RunsWellFormed(runs) && LoopOk(maxCount, c, evs) && MarkersKept(n0, nodes)
    requires f == LoopFrom(rev, maxCount, runs, env, fuel, cur, c, evs, nodes, tab)
    ensures !more ==> FinishOk(rev, env, maxCount, n0, f)
    ensures more ==>
      fuel > 0 && LoopOk(maxCount, c', evs') && MarkersKept(n0, nodes') &&
      f == LoopFrom(rev, maxCount, runs, env, fuel - 1, cur', c', evs', nodes', tab')
  {
    more, cur', c', evs', nodes', tab' := false, cur, c, evs, nodes, tab;
    var t, evs1, tab1;
    if c.scrolls >= MaxScrolls || fuel == 0 {
      LoopEndsOk(rev, maxCount, runs, env, fuel, cur, c, evs, nodes, tab, n0, f);
    } else if c.errors >= MaxConsecutiveErrors && !ReconnectWorks(env.connect(cur.reconnects)) {
      ReconnectFailsOk(rev, maxCount, runs, env, fuel, cur, c, evs, nodes, tab, n0, f);
    } else {
      t, evs1, tab1 := LoopRoundOk(rev, maxCount, runs, env, fuel, cur, c, evs, nodes, tab, n0, f);
      more, cur', c', evs', nodes', tab' := t.stop.None?, t.cur, t.c, evs1 + t.evs, t.nodes, tab1;
    }
  }

  /** The loop keeps `LoopOk` round after round and ends as `FinishOk` says. */
  lemma {:induction false} LoopFromOk(rev: Revision, maxCount: int, runs: nat -> ButtonRun, env: Env, fuel: nat,
                                      cur: Cursor, c: Counters, evs: seq<Event>, nodes: seq<Node>, tab: Option<nat>,
                                      n0: seq<Node>, f: Finish)
    requires RunsWellFormed(runs) && LoopOk(maxCount, c, evs) && MarkersKept(n0, nodes)
    requires f == LoopFrom(rev, maxCount, runs, env, fuel, cur, c, evs, nodes, tab)
    ensures FinishOk(rev, env, maxCount, n0, f)
    decreases fuel
  {
    var more, cur', c', evs', nodes', tab' := LoopStepOk(rev, maxCount, runs, env, fuel, cur, c, evs, nodes, tab, n0, f);
    if more {
      LoopFromOk(rev, maxCount, runs, env, fuel - 1, cur', c', evs', nodes', tab', n0, f);
    }
  }

  /** One step of the loop as the tab sees it: the trace grows, and the tab
      either stays or becomes the one a working reconnect chose, with that
      reconnect as the first new event. The loop ends with the trace `evs'`
      and the tab `tab'`, or goes on from them when `more`. */
  lemma LoopTabStep(rev: Revision, maxCount: int, runs: nat -> ButtonRun, env: Env, fuel: nat, cur: Cursor,
                    c: Counters, evs: seq<Event>, nodes: seq<Node>, tab: Option<nat>, f: Finish)
    returns (more: bool, cur': Cursor, c': Counters, evs': seq<Event>, nodes': seq<Node>, tab': Option<nat>)
    requires f == LoopFrom(rev, maxCount, runs, env, fuel, cur, c, evs, nodes, tab)
    ensures evs <= evs'
    ensures tab' == tab ||
      (|evs| < |evs'| && evs'[|evs|].Reconnected? && evs'[|evs|].ok &&
       ReconnectWorks(env.connect(cur.reconnects)) && tab' == ReconnectFrom(rev, env.connect(cur.reconnects), 0))
    ensures !more ==> f.events == evs' && f.tab == tab'
    ensures more ==> fuel > 0 && f == LoopFrom(rev, maxCount, runs, env, fuel - 1, cur', c', evs', nodes', tab')
  {
    more, cur', c', evs', nodes', tab' := false, cur, c, evs, nodes, tab;
    if c.scrolls >= MaxScrolls || fuel == 0 {
    } else if c.errors >= MaxConsecutiveErrors && !ReconnectWorks(env.connect(cur.reconnects)) {
      evs' := evs + [Reconnected(c.errors, false)];
    } else {
      var due := c.errors >= MaxConsecutiveErrors;
      var cur1 := if due then cur.(reconnects := cur.reconnects + 1) else cur;
      var c1 := if due then c.(errors := 0) else c;
      var evs1 := if due then evs + [Reconnected(c.errors, true)] else evs;
      tab' := if due then ReconnectFrom(rev, env.connect(cur.reconnects), 0) else tab;
      var t := RoundTurn(rev, maxCount, runs, env, cur1, c1, nodes);
      LoopFromStep(rev, maxCount, runs, env, fuel, cur, c, evs, nodes, tab, cur1, c1, evs1, tab', t);
      more, cur', c', evs', nodes' := t.stop.None?, t.cur, t.c, evs1 + t.evs, t.nodes;
      if due {
        assert evs'[|evs|] == Reconnected(c.errors, true);
      }
    }
  }

  /** The loop's trace extends the one it starts from, and the browser's tab
      changes only at a reconnect that worked: it ends as the tab it started
      with when there is none in the new part of the trace, and otherwise as
      the tab some working reconnect chose. */
  lemma {:induction false} LoopTabFacts(rev: Revision, maxCount: int, runs: nat -> ButtonRun, env: Env, fuel: nat,
                                        cur: Cursor, c: Counters, evs: seq<Event>, nodes: seq<Node>, tab: Option<nat>)
    ensures var f := LoopFrom(rev, maxCount, runs, env, fuel, cur, c, evs, nodes, tab);
      evs <= f.events &&
      ((forall k :: |evs| <= k < |f.events| ==> !(f.events[k].Reconnected? && f.events[k].ok)) ==> f.tab == tab) &&
      (f.tab == tab || exists n :: ReconnectWorks(env.connect(n)) && f.tab == ReconnectFrom(rev, env.connect(n), 0))
    decreases fuel
  {
    var f := LoopFrom(rev, maxCount, runs, env, fuel, cur, c, evs, nodes, tab);
    var more, cur', c', evs', nodes', tab' := LoopTabStep(rev, maxCount, runs, env, fuel, cur, c, evs, nodes, tab, f);
    if more {
      LoopTabFacts(rev, maxCount, runs, env, fuel - 1, cur', c', evs', nodes', tab');
    }
    assert evs' <= f.events;
    if tab' != tab {
      assert f.events[|evs|] == evs'[|evs|];
    }
  }

  class ProposalSender {
    const page: Page
    const browser: BrowserManager
    /** `template_term`: the configured term, or the default, stripped. */
    const templateTerm: string

    constructor (page0: Page, browser0: BrowserManager, configuredTerm: string)
      ensures page == page0 && browser == browser0
      ensures templateTerm == Strip(if configuredTerm == "" then Terms.DefaultTerm else configuredTerm)
    {
      page := page0;
      browser := browser0;
      templateTerm := Strip(if configuredTerm == "" then Terms.DefaultTerm else configuredTerm);
    }

    /** One pass of the batch loop's body for the button `i`: find its tab,
        run the click retry, and after a click count it, mark it clicked,
        update the pending batch and handle the form. */
    method HandleButton(rev: Revision, i: nat, be: ButtonEnv, c: Counters, shouldScroll: bool,
                        tomorrowDay: string, content: string, activeTemplate: string)
      returns (c': Counters, shouldScroll': bool, stop: bool, ev: Event)
      requires i < |page.nodes|
      modifies page
      ensures var b := RunButton(rev, be, templateTerm, tomorrowDay, content, activeTemplate);
        c' == AfterButton(c, b) && stop == EndsBatch(b) && ev == ButtonEvent(i, b) &&
        shouldScroll' == (shouldScroll || (b.climb.ClickedAt? && c'.pending == 0)) &&
        page.nodes == (if b.climb.ClickedAt? then old(page.nodes)[i := Marked(old(page.nodes)[i], Clicked)] else old(page.nodes))
      ensures ev.Pressed? ==> c'.clicked == c.clicked + 1
      ensures !ev.Pressed? ==> c'.clicked == c.clicked && !ev.ScrolledDown? && !ev.Reconnected?
      ensures c'.scrolls == c.scrolls && c'.pending <= c.pending && c'.errors == (if stop then c.errors + 1 else c.errors)
      ensures c'.errors == ErrorStep(c.errors, ev)
      ensures (shouldScroll ==> c.pending == 0) ==> (shouldScroll' ==> c'.pending == 0)
      ensures |page.nodes| == |old(page.nodes)| && MarkersKept(old(page.nodes), page.nodes)
    {
      var tab := SelectedTabValue(be.tab);
      var climb := ClickClimb(rev, be.tab.ancestors, be.attempt);
      var run: Option<ModalRun> := None;
      if climb.ClickedAt? {
        ghost var before := page.nodes;
        var _ := page.MarkButtonState(i, Clicked);
        MarkersKeptByMark(before, i, Clicked);
        run := Some(HandleModal(rev, be.modal, templateTerm, tab, tomorrowDay, content, activeTemplate));
      }
      c', shouldScroll', stop, ev := Settle(i, ButtonRun(tab, climb, run), c, shouldScroll);
    }

    /** One pass of the batch loop's body over the button `i`, the loop's
        `cur.buttons`-th, whose run is `runs(cur.buttons)`: handle it and
        say whether the batch stops after it. The batch's first button was
        the loop's `base`-th. */
    method BatchPass(rev: Revision, i: nat, env: Env, base: nat, cur: Cursor, c: Counters, shouldScroll: bool,
                     evs: seq<Event>, tomorrowDay: string, content: string, activeTemplate: string,
                     ghost runs: nat -> ButtonRun)
      returns (c': Counters, cur': Cursor, shouldScroll': bool, evs': seq<Event>, stop: bool)
      requires RunsFrom(runs, rev, env, templateTerm, tomorrowDay, content, activeTemplate)
      requires i < |page.nodes| && cur.buttons >= base
      modifies page
      ensures cur' == cur.(buttons := cur.buttons + 1) && stop == EndsBatch(runs(cur.buttons))
      ensures Batch(c', cur'.buttons - base, shouldScroll', evs', page.nodes) ==
        BatchStep(Batch(c, cur.buttons - base, shouldScroll, evs, old(page.nodes)), i, runs(cur.buttons))
    {
      assert runs(cur.buttons) == RunAt(rev, env, templateTerm, tomorrowDay, content, activeTemplate, cur.buttons);
      var ev;
      c', shouldScroll', stop, ev := HandleButton(rev, i, env.button(cur.buttons), c, shouldScroll,
                                                  tomorrowDay, content, activeTemplate);
      cur' := cur.(buttons := cur.buttons + 1);
      evs' := evs + [ev];
    }

    /** The bookkeeping after one button, given what the page did. */
    static method Settle(i: nat, b: ButtonRun, c: Counters, shouldScroll: bool)
      returns (c': Counters, shouldScroll': bool, stop: bool, ev: Event)
      requires b.climb.ClickedAt? <==> b.modal.Some?
      ensures c' == AfterButton(c, b) && stop == EndsBatch(b) && ev == ButtonEvent(i, b) &&
        shouldScroll' == (shouldScroll || (b.climb.ClickedAt? && c'.pending == 0))
      ensures ev.Pressed? ==> c'.clicked == c.clicked + 1
      ensures !ev.Pressed? ==> c'.clicked == c.clicked && !ev.ScrolledDown? && !ev.Reconnected?
      ensures c'.scrolls == c.scrolls && c'.pending <= c.pending && c'.errors == (if stop then c.errors + 1 else c.errors)
      ensures c'.errors == ErrorStep(c.errors, ev)
      ensures (shouldScroll ==> c.pending == 0) ==> (shouldScroll' ==> c'.pending == 0)
    {
      c', shouldScroll', stop := c, shouldScroll, false;
      var escaped: Option<string> := None;
      if b.climb.ClickedAt? {
        c' := c'.(clicked := c'.clicked + 1);
        if c'.pending > 0 {
          c' := c'.(pending := c'.pending - 1);
        }
        if c'.pending == 0 {
          shouldScroll' := true;
        }
        ev := Pressed(i, b.tab, b.modal.value.outcome);
        if b.modal.value.outcome.Raised? {
          escaped := Some(b.modal.value.outcome.msg);
        }
      } else {
        if b.climb.ClimbRaised? {
          escaped := Some(b.climb.msg);
        }
        ev := Skipped(i, escaped);
      }
      if escaped.Some? && IsPageRefresh(escaped.value) {
        c' := c'.(errors := c'.errors + 1);
        stop := true;
      }
      ButtonEventErrors(c.errors, i, b);
    }

    /** `scroll_down(500)` with its two outcomes. */
    method ScrollDown(env: Env, cur: Cursor, c: Counters) returns (c': Counters, cur': Cursor, ev: Event)
      modifies page
      ensures Turn(c', cur', [ev], page.nodes, None) == ScrollTurn(env, cur, c, old(page.nodes))
    {
      var loaded := env.scroll(cur.scrolls);
      cur' := cur.(scrolls := cur.scrolls + 1);
      ev := ScrolledDown(c.pending, loaded.Some?);
      if loaded.None? {
        c' := c.(errors := c.errors + 1);
      } else {
        page.Load(loaded.value);
        c' := c.(scrolls := c.scrolls + 1);
      }
    }

    /** The batch: the available buttons in order, stopping before a button
        once the target is reached, and after a button whose exception looks
        like a page refresh. */
    method RunBatch(rev: Revision, available: seq<nat>, maxCount: int, env: Env, cur: Cursor, c: Counters,
                    tomorrowDay: string, content: string, activeTemplate: string, ghost runs: nat -> ButtonRun)
      returns (c': Counters, cur': Cursor, shouldScroll: bool, evs: seq<Event>)
      requires RunsFrom(runs, rev, env, templateTerm, tomorrowDay, content, activeTemplate)
      requires forall k :: k in available ==> k < |page.nodes|
      modifies page
      ensures var r := WholeBatch(available, maxCount, runs, cur.buttons, c, old(page.nodes));
        c' == r.c && cur' == cur.(buttons := cur.buttons + r.handled) && shouldScroll == r.shouldScroll &&
        evs == r.evs && page.nodes == r.nodes
    {
      ghost var whole := WholeBatch(available, maxCount, runs, cur.buttons, c, page.nodes);
      c', cur', shouldScroll, evs := c, cur, false, [];
      var j := 0;
      while j < |available| && c'.clicked as int < maxCount
        invariant 0 <= j <= |available| && cur'.buttons >= cur.buttons
        invariant cur' == cur.(buttons := cur'.buttons) && |page.nodes| == |old(page.nodes)|
        invariant whole == BatchFrom(available, j, maxCount, runs, cur.buttons,
                                     Batch(c', cur'.buttons - cur.buttons, shouldScroll, evs, page.nodes))
        decreases |available| - j
      {
        ghost var now := Batch(c', cur'.buttons - cur.buttons, shouldScroll, evs, page.nodes);
        ghost var h := cur'.buttons;
        assert available[j] in available;
        var stop;
        c', cur', shouldScroll, evs, stop := BatchPass(rev, available[j], env, cur.buttons, cur', c', shouldScroll, evs,
                                                       tomorrowDay, content, activeTemplate, runs);
        var next := if stop then |available| else j + 1;
        BatchAdvance(available, j, maxCount, runs, cur.buttons, now, h, next,
                     Batch(c', cur'.buttons - cur.buttons, shouldScroll, evs, page.nodes));
        j := next;
      }
      BatchFromUnfold(available, j, maxCount, runs, cur.buttons, Batch(c', cur'.buttons - cur.buttons, shouldScroll, evs, page.nodes));
    }

    /** A round with buttons available, the error count already cleared: run
        the batch, stop at the target, and scroll after it when the batch set
        the scroll flag or no counted button is pending. */
    method BatchRound(rev: Revision, available: seq<nat>, maxCount: int, env: Env, cur: Cursor, c: Counters,
                      tomorrowDay: string, content: string, activeTemplate: string, ghost runs: nat -> ButtonRun)
      returns (c': Counters, cur': Cursor, evs: seq<Event>, stop: Option<StopReason>)
      requires RunsFrom(runs, rev, env, templateTerm, tomorrowDay, content, activeTemplate)
      requires forall k :: k in available ==> k < |page.nodes|
      modifies page
      ensures Turn(c', cur', evs, page.nodes, stop) == BatchTurn(available, maxCount, runs, env, cur, c, old(page.nodes))
    {
      stop := None;
      var shouldScroll;
      c', cur', shouldScroll, evs := RunBatch(rev, available, maxCount, env, cur, c, tomorrowDay, content, activeTemplate, runs);
      if c'.clicked as int >= maxCount {
        stop := Some(TargetReached);
        return;
      }
      if shouldScroll || c'.pending == 0 {
        var ev;
        c', cur', ev := ScrollDown(env, cur', c');
        evs := evs + [ev];
      }
    }

    /** The rest of a round once the scan has left `available`. */
    method AfterScan(rev: Revision, available: seq<nat>, maxCount: int, env: Env, cur: Cursor, c: Counters,
                     tomorrowDay: string, content: string, activeTemplate: string, ghost runs: nat -> ButtonRun)
      returns (c': Counters, cur': Cursor, evs: seq<Event>, stop: Option<StopReason>)
      requires RunsFrom(runs, rev, env, templateTerm, tomorrowDay, content, activeTemplate)
      requires forall k :: k in available ==> k < |page.nodes|
      modifies page
      ensures Turn(c', cur', evs, page.nodes, stop) == AfterScanTurn(available, maxCount, runs, env, cur, c, old(page.nodes))
    {
      if |available| == 0 {
        stop := None;
        if c.pending == 0 {
          var ev;
          c', cur', ev := ScrollDown(env, cur, c);
          evs := [ev];
        } else {
          c', cur', evs := c.(pending := 0), cur, [];
        }
      } else {
        c', cur', evs, stop := BatchRound(rev, available, maxCount, env, cur, c.(errors := 0), tomorrowDay, content, activeTemplate, runs);
      }
    }

    /** One round of the loop after the reconnect check: query the buttons,
        scan them, then go on with `AfterScan`. `stop` says when the round
        ends the loop. */
    method Round(rev: Revision, maxCount: int, env: Env, cur: Cursor, c: Counters,
                 tomorrowDay: string, content: string, activeTemplate: string, ghost runs: nat -> ButtonRun)
      returns (c': Counters, cur': Cursor, evs: seq<Event>, stop: Option<StopReason>)
      requires RunsFrom(runs, rev, env, templateTerm, tomorrowDay, content, activeTemplate)
      modifies page
      ensures Turn(c', cur', evs, page.nodes, stop) == RoundTurn(rev, maxCount, runs, env, cur, c, old(page.nodes))
    {
      c', cur', evs, stop := c, cur, [], None;
      var query := env.buttons(cur.queries);
      var found := FindElements(query);
      cur' := cur'.(queries := cur'.queries + 1);
      if found.Propagated? {
        var msg := found.failure.msg;
        evs := [QueryFailed(msg)];
        if CrashesLoop(rev, msg) {
          stop := Some(Crashed(msg));
          return;
        }
        c' := c'.(errors := c'.errors + 1);
        return;
      }
      assert RoundTurn(rev, maxCount, runs, env, cur, c, page.nodes) ==
        ScanTurn(maxCount, runs, env, cur', c, page.nodes, found.value);
      c', cur', evs, stop := ScanRound(rev, maxCount, env, cur', c, found.value, tomorrowDay, content, activeTemplate, runs);
    }

    /** The rest of a round once the query answered with the rows `found`:
        scan them, count the newly counted ones as pending and detected, then
        go on with `AfterScan`. */
    method ScanRound(rev: Revision, maxCount: int, env: Env, cur: Cursor, c: Counters, found: seq<nat>,
                     tomorrowDay: string, content: string, activeTemplate: string, ghost runs: nat -> ButtonRun)
      returns (c': Counters, cur': Cursor, evs: seq<Event>, stop: Option<StopReason>)
      requires RunsFrom(runs, rev, env, templateTerm, tomorrowDay, content, activeTemplate)
      modifies page
      ensures Turn(c', cur', evs, page.nodes, stop) == ScanTurn(maxCount, runs, env, cur, c, old(page.nodes), found)
    {
      ghost var scan := ScanOf(page.nodes, found);
      ghost var c1 := c.(pending := c.pending + scan.newlyCounted, detected := c.detected + scan.newlyCounted);
      ghost var rest' := AfterScanTurn(scan.available, maxCount, runs, env, cur, c1, scan.nodes);
      assert ScanTurn(maxCount, runs, env, cur, c, page.nodes, found) ==
        rest'.(evs := [Scanned(scan.newlyCounted, |scan.available|)] + rest'.evs);
      var available, newly := page.Scan(found);
      assert scan == ScanResult(page.nodes, available, newly);
      c' := c.(pending := c.pending + newly, detected := c.detected + newly);
      assert c' == c1 && available == scan.available && page.nodes == scan.nodes;
      var rest;
      c', cur', rest, stop := AfterScan(rev, available, maxCount, env, cur, c', tomorrowDay, content, activeTemplate, runs);
      assert Turn(c', cur', rest, page.nodes, stop) == rest';
      evs := [Scanned(newly, |available|)] + rest;
    }

    /** One round of `send_proposals`'s loop, with `fuel` rounds left and
        the scroll limit not reached: reconnect when the error counter has
        reached the threshold, giving up when that fails, then run the round.
        The loop's end, the browser's tab included, is what it was before the
        round. */
    method LoopRound(rev: Revision, maxCount: int, env: Env, fuel: nat, cur: Cursor, c: Counters, events: seq<Event>,
                     tomorrowDay: string, content: string, activeTemplate: string, ghost runs: nat -> ButtonRun)
      returns (cur': Cursor, c': Counters, events': seq<Event>, stop: Option<StopReason>)
      requires RunsFrom(runs, rev, env, templateTerm, tomorrowDay, content, activeTemplate)
      requires c.scrolls < MaxScrolls && fuel > 0
      modifies page, browser
      ensures LoopFrom(rev, maxCount, runs, env, fuel, cur, c, events, old(page.nodes), old(browser.tab)) ==
        if stop.Some? then Finish(c'.clicked, stop.value, events', page.nodes, browser.tab)
        else LoopFrom(rev, maxCount, runs, env, fuel - 1, cur', c', events', page.nodes, browser.tab)
    {
      cur', c', events' := cur, c, events;
      if c.errors >= MaxConsecutiveErrors {
        var ok := browser.Reconnect(rev, env.connect(cur.reconnects));
        cur' := cur.(reconnects := cur.reconnects + 1);
        events' := events + [Reconnected(c.errors, ok)];
        if !ok {
          return cur', c', events', Some(ReconnectFailed);
        }
        c' := c.(errors := 0);
      }
      ghost var cur1, c1, events1, tab1 := cur', c', events', browser.tab;
      var evs;
      c', cur', evs, stop := Round(rev, maxCount, env, cur', c', tomorrowDay, content, activeTemplate, runs);
      LoopFromStep(rev, maxCount, runs, env, fuel, cur, c, events, old(page.nodes), old(browser.tab),
                   cur1, c1, events1, tab1, Turn(c', cur', evs, page.nodes, stop));
      events' := events' + evs;
    }

    /** `send_proposals(max_count, template_content)`. `content` is the comment
        text handed to every form and `activeTemplate` the store's active text
        the comment step falls back to; `tomorrowDay` is tomorrow's day of the
        month. The loop runs at most `fuel` rounds. It ends as `LoopFrom` says,
        for the runs the page gives its buttons, and so as `FinishOk` says; the
        browser is left on the tab of the last reconnect that worked, or on
        the tab it had. */
    method SendProposals(rev: Revision, maxCount: int, content: string, activeTemplate: string, tomorrowDay: string,
                         env: Env, fuel: nat)
      returns (clicked: nat, reason: StopReason, events: seq<Event>)
      modifies page, browser
      ensures exists runs ::
        RunsFrom(runs, rev, env, templateTerm, tomorrowDay, content, activeTemplate) &&
        Finish(clicked, reason, events, page.nodes, browser.tab) ==
          LoopFrom(rev, maxCount, runs, env, fuel, Cursor(0, 0, 0, 0), Counters(0, 0, 0, 0, 0), [], old(page.nodes),
                   old(browser.tab))
      ensures FinishOk(rev, env, maxCount, old(page.nodes), Finish(clicked, reason, events, page.nodes, browser.tab))
      ensures (forall k :: 0 <= k < |events| ==> !(events[k].Reconnected? && events[k].ok)) ==>
        browser.tab == old(browser.tab)
      ensures browser.tab == old(browser.tab) ||
        exists n :: ReconnectWorks(env.connect(n)) && browser.tab == ReconnectFrom(rev, env.connect(n), 0)
    {
      ghost var runs := ButtonRuns(rev, env, templateTerm, tomorrowDay, content, activeTemplate);
      RunsFromWellFormed(runs, rev, env, templateTerm, tomorrowDay, content, activeTemplate);
      ghost var f := LoopFrom(rev, maxCount, runs, env, fuel, Cursor(0, 0, 0, 0), Counters(0, 0, 0, 0, 0), [], page.nodes,
                              browser.tab);
      LoopFromOk(rev, maxCount, runs, env, fuel, Cursor(0, 0, 0, 0), Counters(0, 0, 0, 0, 0), [], page.nodes,
                 browser.tab, page.nodes, f);
      LoopTabFacts(rev, maxCount, runs, env, fuel, Cursor(0, 0, 0, 0), Counters(0, 0, 0, 0, 0), [], page.nodes,
                   browser.tab);
      clicked, reason, events := RunLoop(rev, maxCount, content, activeTemplate, tomorrowDay, env, fuel, runs);
    }

    /** The loop of `send_proposals`: round after round until the scroll limit,
        a stop reason of a round, or the fuel runs out. */
    method RunLoop(rev: Revision, maxCount: int, content: string, activeTemplate: string, tomorrowDay: string,
                   env: Env, fuel: nat, ghost runs: nat -> ButtonRun)
      returns (clicked: nat, reason: StopReason, events: seq<Event>)
      requires RunsFrom(runs, rev, env, templateTerm, tomorrowDay, content, activeTemplate)
      modifies page, browser
      ensures Finish(clicked, reason, events, page.nodes, browser.tab) ==
        LoopFrom(rev, maxCount, runs, env, fuel, Cursor(0, 0, 0, 0), Counters(0, 0, 0, 0, 0), [], old(page.nodes),
                 old(browser.tab))
    {
      var c := Counters(0, 0, 0, 0, 0);
      var cur := Cursor(0, 0, 0, 0);
      events := [];
      var fuelLeft := fuel;
      ghost var whole := LoopFrom(rev, maxCount, runs, env, fuel, cur, c, events, page.nodes, browser.tab);
      while c.scrolls < MaxScrolls
        invariant whole == LoopFrom(rev, maxCount, runs, env, fuelLeft, cur, c, events, page.nodes, browser.tab)
        decreases fuelLeft
      {
        if fuelLeft == 0 {
          return c.clicked, OutOfFuel, events;
        }
        var stop;
        cur, c, events, stop := LoopRound(rev, maxCount, env, fuelLeft, cur, c, events, tomorrowDay, content,
                                          activeTemplate, runs);
        fuelLeft := fuelLeft - 1;
        if stop.Some? {
          return c.clicked, stop.value, events;
        }
      }
      return c.clicked, ScrollsExhausted, events;
    }
  }

  /** Counts and trace properties over a concatenation. */
  lemma {:induction false} PressesConcat(a: seq<Event>, b: seq<Event>)
    ensures Presses(a + b) == Presses(a) + Presses(b)
    ensures Scrolls(a + b) == Scrolls(a) + Scrolls(b)
    ensures ScrollsGated(a) && ScrollsGated(b) ==> ScrollsGated(a + b)
    ensures ReconnectsAtThreshold(a) && ReconnectsAtThreshold(b) ==> ReconnectsAtThreshold(a + b)
    decreases |b|
  {
    if |b| == 0 {
      assert a + b == a;
    } else {
      var b' := b[..|b| - 1];
      assert (a + b)[..|a + b| - 1] == a + b';
      assert b[..|b| - 1] == b';
      PressesConcat(a, b');
    }
  }
}
