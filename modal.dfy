/** The proposal form that opens after a "Send Proposal" click, handled by
    `_handle_proposal_modal`: wait for the form, choose the template term,
    enter and check the tag, pick tomorrow's date, fill the comment and
    submit. The form is an oracle that says, for each step, what the page's
    lookups found or raised. */
module Modal {
  import opened Text
  import opened Errors
  import opened Terms

  const SubmitText := "Send Proposal"
  const UnderstandText := "I understand"
  const TermNotFoundPrefix := "template_term_not_found: "
  const NoTagInput := "未找到 tag-input 输入框"
  const NoTagDropdown := "未找到下拉列表"
  const NoTagOption := "下拉列表中没有选项"

  /** What a step does with the exception it meets: it either goes on, or
      raises with a message. */
  datatype StepResult = StepOk | StepRaised(msg: string)

  /** The wait for the form's iframe: found before the deadline, not found,
      or a lookup raised an exception that `find_element` does not swallow. */
  datatype IframeWait = IframeFound | IframeTimedOut | IframeRaised(msg: string)

  /** `_wait_for_modal_iframe`: `polls` are the `find_element` lookups of the
      iframe made before the deadline, in order. The first lookup that finds
      it ends the wait; a swallowed failure counts as not found; a failure
      `find_element` lets through leaves the wait. */
  function WaitForIframe(polls: seq<Query<Option<()>>>): (r: IframeWait)
    ensures r.IframeRaised? ==> !IsTransient(r.msg)
    ensures r == IframeTimedOut <==> forall i :: 0 <= i < |polls| ==> FindElement(polls[i]) == Value(None)
    ensures r == IframeFound ==> exists i :: 0 <= i < |polls| && FindElement(polls[i]).Value? && FindElement(polls[i]).value.Some?
  {
    if |polls| == 0 then IframeTimedOut
    else match FindElement(polls[0])
      case Propagated(f) => IframeRaised(f.msg)
      case Value(Some(_)) => IframeFound
      case Value(None) =>
        var r := WaitForIframe(polls[1..]);
        assert forall i :: 1 <= i < |polls| ==> polls[i] == polls[1..][i - 1];
        r
  }

  /** The tag step's page. `raises` is a browser call of the step raising
      before the option is read (typing, clicking). `optionDiv` is the text of
      the preferred option element when present; otherwise `items` lists the
      dropdown's `li` texts. */
  datatype TagForm = TagForm(
    raises: Option<string>,
    inputFound: bool,
    dropdownFound: bool,
    optionDiv: Option<string>,
    items: Query<seq<string>>)

  /** The date picker: whether its button was found, the texts of the
      candidate day cells, whether the `text=` locator finds the day, and
      whether any call of the step raised. */
  datatype DateForm = DateForm(buttonFound: bool, cells: Query<seq<string>>, textHit: bool, raises: bool)

  /** The comment box: found by either locator, and whether typing raised. */
  datatype CommentForm = CommentForm(textareaFound: bool, raises: bool)

  /** The submit button: the first `uicl-button`'s text when there is one,
      the tag of the element the `text:Send Proposal` locator finds, the
      texts of all `uicl-button`s, and whether any call of the step raised. */
  datatype SubmitForm = SubmitForm(first: Option<string>, textHitTag: Option<string>, buttons: Query<seq<string>>, raises: bool)

  /** The confirmation button, found the same three ways. */
  datatype UnderstandForm = UnderstandForm(textHitTag: Option<string>, buttons: Query<seq<string>>, secondHitTag: Option<string>, raises: bool)

  datatype ModalForm = ModalForm(
    iframePolls: seq<Query<Option<()>>>,
    term: TermForm,
    pick: Option<nat>,
    tag: TagForm,
    date: DateForm,
    comment: CommentForm,
    submit: SubmitForm,
    understand: UnderstandForm)
  {
    /** How the wait for the form's iframe ends. */
    function Iframe(): IframeWait {
      WaitForIframe(iframePolls)
    }
  }

  /** The steps of the form that ran, in order, each with its result. */
  datatype Step =
    | TermStep(picked: bool)
    | TagStep
    | DateStep(picked: bool)
    | CommentStep(filled: bool)
    | SubmitStep(clicked: bool)

  /** `True`, `False`, or an exception that leaves the form handler. */
  datatype ModalOutcome = Completed | Aborted | Raised(msg: string)

  datatype ModalRun = ModalRun(outcome: ModalOutcome, steps: seq<Step>)

  /** The tag test: the tab text without spaces equals the option text without
      its trailing count and without spaces, ignoring case. */
  predicate TagMatches(tab: string, optionText: string) {
    Lower(RemoveSpaces(tab)) == Lower(RemoveSpaces(StripCountSuffix(Strip(optionText))))
  }

  function MismatchMessage(search: string, category: string): string {
    "输入值 '" + search + "' 与下拉选项 '" + category + "' 不匹配"
  }

  /** The option text the tag step reads: the preferred option element, else
      the first `li` of the dropdown. The current revision lists the `li`s
      through `find_elements`, which swallows connection-loss failures into an
      empty list; the earlier revision calls the page directly. */
  function TagOption(rev: Revision, t: TagForm): (r: Outcome<Option<string>>)
    ensures t.optionDiv.Some? ==> r == Value(t.optionDiv)
  {
    if t.optionDiv.Some? then Value(t.optionDiv)
    else
      var listed := if rev == Current then FindElements(t.items)
                    else (match t.items case Answered(xs) => Value(xs) case Threw(f) => Propagated(f));
      match listed
      case Propagated(f) => Propagated(f)
      case Value(xs) => Value(if |xs| == 0 then None else Some(xs[0]))
  }

  /** `_input_tag_and_select`: succeeds exactly when the input and the
      dropdown are there and the option read passes the tag test; every
      failure raises, a mismatch with a message naming both texts. */
  function InputTag(rev: Revision, tab: string, t: TagForm): (r: StepResult)
    ensures r == StepOk <==> (t.raises.None? && t.inputFound && t.dropdownFound &&
      TagOption(rev, t).Value? && TagOption(rev, t).value.Some? && TagMatches(tab, TagOption(rev, t).value.value))
    ensures (t.raises.None? && t.inputFound && t.dropdownFound && TagOption(rev, t).Value? &&
      TagOption(rev, t).value.Some? && !TagMatches(tab, TagOption(rev, t).value.value)) ==>
      r == StepRaised(MismatchMessage(RemoveSpaces(tab), RemoveSpaces(StripCountSuffix(Strip(TagOption(rev, t).value.value)))))
  {
    if t.raises.Some? then StepRaised(t.raises.value)
    else if !t.inputFound then StepRaised(NoTagInput)
    else if !t.dropdownFound then StepRaised(NoTagDropdown)
    else
      match TagOption(rev, t)
      case Propagated(f) => StepRaised(f.msg)
      case Value(None) => StepRaised(NoTagOption)
      case Value(Some(text)) =>
        if TagMatches(tab, text) then StepOk
        else StepRaised(MismatchMessage(RemoveSpaces(tab), RemoveSpaces(StripCountSuffix(Strip(text)))))
  }

  /** `_select_tomorrow_date`: the first cell whose trimmed text is the day,
      else the `text=` locator; any failure gives false. */
  function SelectDate(d: DateForm, tomorrowDay: string): (r: bool)
    ensures r ==> d.buttonFound && !d.raises
    ensures r && !d.textHit ==> d.cells.Answered? && exists c :: c in d.cells.value && Strip(c) == tomorrowDay
  {
    if d.raises || !d.buttonFound then false
    else
      var cells := FindElements(d.cells);
      if cells.Propagated? then false
      else if exists c :: c in cells.value && Strip(c) == tomorrowDay then true
      else d.textHit
  }

  /** `_input_comment`: the text typed is the given content, or when it is
      empty the active template's; nothing is typed when both are empty. */
  function InputComment(content: string, activeTemplate: string, c: CommentForm): (r: Option<string>)
    ensures r.Some? ==> r.value != "" && c.textareaFound && !c.raises
    ensures r.Some? ==> r.value == (if content != "" then content else activeTemplate)
    ensures (content != "" || activeTemplate != "") && c.textareaFound && !c.raises ==> r.Some?
  {
    var text := if content != "" then content else activeTemplate;
    if text == "" || !c.textareaFound || c.raises then None else Some(text)
  }

  /** `_submit_proposal`: clicks the first `uicl-button` when its text
      contains "Send Proposal", else the `text:` hit when it is a button, else
      the first `uicl-button` whose text contains "Send Proposal". */
  function SubmitProposal(s: SubmitForm): (r: bool)
    ensures r <==> (!s.raises &&
      ((s.first.Some? && Contains(s.first.value, SubmitText)) ||
       s.textHitTag == Some("button") ||
       (s.buttons.Answered? && exists b :: b in s.buttons.value && Contains(b, SubmitText))))
  {
    if s.raises then false
    else if s.first.Some? && Contains(s.first.value, SubmitText) then true
    else if s.textHitTag == Some("button") then true
    else match FindElements(s.buttons)
      case Propagated(_) => false
      case Value(bs) => exists b :: b in bs && Contains(b, SubmitText)
  }

  /** `_click_understand_button`: its result is not used by the form handler. */
  function ClickUnderstand(u: UnderstandForm): (r: bool)
    ensures r ==> !u.raises
    ensures !u.raises && u.textHitTag == Some("button") ==> r
  {
    if u.raises then false
    else if u.textHitTag == Some("button") then true
    else match FindElements(u.buttons)
      case Propagated(_) => false
      case Value(bs) =>
        if exists b :: b in bs && Contains(b, UnderstandText) then true
        else u.secondHitTag == Some("button")
  }

  /** The handler's `except`: an exception carrying a connection-loss
      marker is re-raised, every other one makes the handler return false. */
  function Caught(msg: string, steps: seq<Step>): (r: ModalRun)
    ensures r.steps == steps
    ensures r.outcome.Raised? <==> IsTransient(msg)
    ensures r.outcome != Completed
    ensures r.outcome.Raised? ==> r.outcome.msg == msg
  {
    if IsTransient(msg) then ModalRun(Raised(msg), steps) else ModalRun(Aborted, steps)
  }

  /** The date, comment and submit steps, none of which raises. */
  function FinishForm(m: ModalForm, tomorrowDay: string, content: string, activeTemplate: string, steps: seq<Step>): (r: ModalRun)
    ensures r.outcome == Completed
    ensures |r.steps| == |steps| + 3 && r.steps[..|steps|] == steps
    ensures r.steps[|steps| + 2] == SubmitStep(SubmitProposal(m.submit))
  {
    var dated := SelectDate(m.date, tomorrowDay);
    var filled := InputComment(content, activeTemplate, m.comment).Some?;
    var submitted := SubmitProposal(m.submit);
    ModalRun(Completed, steps + [DateStep(dated), CommentStep(filled), SubmitStep(submitted)])
  }

  /** Whether the term step found the term, in the revision's own way. */
  predicate TermPicked(rev: Revision, templateTerm: string, f: TermForm, pick: Option<nat>) {
    if rev == Current then SelectTermCurrent(templateTerm, f, pick).Picked?
    else SelectTermEarlier(templateTerm, f).Picked?
  }

  /** `_handle_proposal_modal` for both revisions. `templateTerm` is the
      configured term, `selectedTab` the row's tab (absent or empty: no tag
      step), `content` the comment given by the caller and `activeTemplate`
      the store's active text used when it is empty. The current revision
      aborts when the term is not chosen; the earlier one ignores the term
      result. */
  function HandleModal(rev: Revision, m: ModalForm, templateTerm: string, selectedTab: Option<string>,
                       tomorrowDay: string, content: string, activeTemplate: string): (r: ModalRun)
    ensures r.outcome.Raised? ==> IsTransient(r.outcome.msg)
    ensures m.Iframe() != IframeFound ==> r.steps == [] && r.outcome == Aborted
  {
    match m.Iframe()
    case IframeTimedOut => ModalRun(Aborted, [])
    case IframeRaised(msg) => Caught(msg, [])
    case IframeFound => FormRun(rev, TermPicked(rev, templateTerm, m.term, m.pick), m, templateTerm, selectedTab, tomorrowDay, content, activeTemplate)
  }

  /** The handler once the iframe is there, given whether the term step
      found the term. */
  function FormRun(rev: Revision, picked: bool, m: ModalForm, templateTerm: string, selectedTab: Option<string>,
                   tomorrowDay: string, content: string, activeTemplate: string): (r: ModalRun)
    ensures r.outcome.Raised? ==> IsTransient(r.outcome.msg)
    ensures |r.steps| > 0 && r.steps[0] == TermStep(picked)
  {
    var steps := [TermStep(picked)];
    if rev == Current && !picked then Caught(TermNotFoundPrefix + templateTerm, steps)
    else AfterTerm(rev, m, selectedTab, tomorrowDay, content, activeTemplate, steps)
  }

  /** The handler from the tag step on, after the steps already taken: the tag
      step runs when the row has a tab, and its failure ends the form. */
  function AfterTerm(rev: Revision, m: ModalForm, selectedTab: Option<string>, tomorrowDay: string, content: string,
                     activeTemplate: string, steps: seq<Step>): (r: ModalRun)
    ensures r.outcome.Raised? ==> IsTransient(r.outcome.msg)
    ensures |r.steps| > |steps| && r.steps[..|steps|] == steps
  {
    if selectedTab.Some? && selectedTab.value != "" then
      match InputTag(rev, selectedTab.value, m.tag)
      case StepRaised(msg) => Caught(msg, steps + [TagStep])
      case StepOk => FinishForm(m, tomorrowDay, content, activeTemplate, steps + [TagStep])
    else FinishForm(m, tomorrowDay, content, activeTemplate, steps)
  }

  /** The handler returns true exactly on the path that reaches the submit
      step, and every other path stops before it. */
  lemma SubmitOnlyWhenCompleted(rev: Revision, m: ModalForm, templateTerm: string, selectedTab: Option<string>,
                                tomorrowDay: string, content: string, activeTemplate: string)
    ensures var r := HandleModal(rev, m, templateTerm, selectedTab, tomorrowDay, content, activeTemplate);
      r.outcome == Completed <==> (|r.steps| > 0 && r.steps[|r.steps| - 1].SubmitStep?)
  {
    var r := HandleModal(rev, m, templateTerm, selectedTab, tomorrowDay, content, activeTemplate);
    if m.Iframe() == IframeFound {
      var picked := TermPicked(rev, templateTerm, m.term, m.pick);
      assert r == FormRun(rev, picked, m, templateTerm, selectedTab, tomorrowDay, content, activeTemplate);
      FormSubmitsOnlyWhenCompleted(rev, picked, m, templateTerm, selectedTab, tomorrowDay, content, activeTemplate);
    } else {
      assert r.steps == [] && r.outcome != Completed;
    }
  }

  /** Every path that does not return true stops before the submit step. */
  lemma NoSubmitUnlessCompleted(rev: Revision, m: ModalForm, templateTerm: string, selectedTab: Option<string>,
                                tomorrowDay: string, content: string, activeTemplate: string)
    ensures var r := HandleModal(rev, m, templateTerm, selectedTab, tomorrowDay, content, activeTemplate);
      r.outcome != Completed ==> forall k :: 0 <= k < |r.steps| ==> !r.steps[k].SubmitStep?
  {
    var r := HandleModal(rev, m, templateTerm, selectedTab, tomorrowDay, content, activeTemplate);
    if m.Iframe() == IframeFound {
      var picked := TermPicked(rev, templateTerm, m.term, m.pick);
      assert r == FormRun(rev, picked, m, templateTerm, selectedTab, tomorrowDay, content, activeTemplate);
      FormSubmitsOnlyWhenCompleted(rev, picked, m, templateTerm, selectedTab, tomorrowDay, content, activeTemplate);
    }
  }

  /** `SubmitOnlyWhenCompleted` once the iframe is there, whatever the term
      step gave. */
  lemma FormSubmitsOnlyWhenCompleted(rev: Revision, picked: bool, m: ModalForm, templateTerm: string,
                                     selectedTab: Option<string>, tomorrowDay: string, content: string,
                                     activeTemplate: string)
    ensures var r := FormRun(rev, picked, m, templateTerm, selectedTab, tomorrowDay, content, activeTemplate);
      r.outcome == Completed <==> (|r.steps| > 0 && r.steps[|r.steps| - 1].SubmitStep?)
    ensures var r := FormRun(rev, picked, m, templateTerm, selectedTab, tomorrowDay, content, activeTemplate);
      r.outcome != Completed ==> forall k :: 0 <= k < |r.steps| ==> !r.steps[k].SubmitStep?
  {
    var r := FormRun(rev, picked, m, templateTerm, selectedTab, tomorrowDay, content, activeTemplate);
    if !(rev == Current && !picked) {
      AfterTermEnds(rev, m, selectedTab, tomorrowDay, content, activeTemplate, [TermStep(picked)]);
      if r.outcome != Completed {
        assert r.steps == [TermStep(picked), TagStep];
      }
    }
  }

  /** From the tag step on, the form either reaches the submit step and
      returns true, or stops right after the tag step. */
  lemma AfterTermEnds(rev: Revision, m: ModalForm, selectedTab: Option<string>, tomorrowDay: string, content: string,
                      activeTemplate: string, steps: seq<Step>)
    ensures var r := AfterTerm(rev, m, selectedTab, tomorrowDay, content, activeTemplate, steps);
      (r.outcome == Completed && |r.steps| > 0 && r.steps[|r.steps| - 1].SubmitStep?) ||
      (r.outcome != Completed && r.steps == steps + [TagStep])
  {
  }

  /** True does not mean the proposal was sent: the handler returns true
      even when no submit button is found. */
  lemma CompletedDespiteFailedSubmit(rev: Revision, m: ModalForm, templateTerm: string, tomorrowDay: string,
                                     content: string, activeTemplate: string)
    requires m.Iframe() == IframeFound && TermPicked(rev, templateTerm, m.term, m.pick)
    requires m.submit.raises
    ensures var r := HandleModal(rev, m, templateTerm, None, tomorrowDay, content, activeTemplate);
      r.outcome == Completed && r.steps[|r.steps| - 1] == SubmitStep(false)
  {
    assert HandleModal(rev, m, templateTerm, None, tomorrowDay, content, activeTemplate) ==
      FinishForm(m, tomorrowDay, content, activeTemplate, [TermStep(true)]);
  }

  /** A tag that fails a check (a quiet failure) aborts the item before the
      date, comment and submit steps. */
  lemma TagFailureAborts(rev: Revision, m: ModalForm, templateTerm: string, tab: string,
                         tomorrowDay: string, content: string, activeTemplate: string)
    requires m.Iframe() == IframeFound && TermPicked(rev, templateTerm, m.term, m.pick)
    requires tab != ""
    requires InputTag(rev, tab, m.tag).StepRaised? && !IsTransient(InputTag(rev, tab, m.tag).msg)
    ensures HandleModal(rev, m, templateTerm, Some(tab), tomorrowDay, content, activeTemplate) ==
      ModalRun(Aborted, [TermStep(true), TagStep])
  {
    assert HandleModal(rev, m, templateTerm, Some(tab), tomorrowDay, content, activeTemplate) ==
      FormRun(rev, true, m, templateTerm, Some(tab), tomorrowDay, content, activeTemplate);
    FormTagFailureAborts(rev, m, templateTerm, tab, tomorrowDay, content, activeTemplate);
  }

  lemma FormTagFailureAborts(rev: Revision, m: ModalForm, templateTerm: string, tab: string,
                             tomorrowDay: string, content: string, activeTemplate: string)
    requires tab != ""
    requires InputTag(rev, tab, m.tag).StepRaised? && !IsTransient(InputTag(rev, tab, m.tag).msg)
    ensures FormRun(rev, true, m, templateTerm, Some(tab), tomorrowDay, content, activeTemplate) ==
      ModalRun(Aborted, [TermStep(true), TagStep])
  {
    assert FormRun(rev, true, m, templateTerm, Some(tab), tomorrowDay, content, activeTemplate) ==
      Caught(InputTag(rev, tab, m.tag).msg, [TermStep(true), TagStep]);
  }

  /** An option showing the tab's text with a count, such as "Retail (12)",
      passes the tag check, and so does any spacing or case of it. */
  lemma {:induction false} CountedOptionMatchesTab(tab: string, d: string)
    requires |tab| > 0 && Strip(tab) == tab && StripCountSuffix(tab) == tab
    requires |d| > 0 && forall i :: 0 <= i < |d| ==> IsDigit(d[i])
    ensures TagMatches(tab, tab + " (" + d + ")")
  {
    var opt := tab + " (" + d + ")";
    assert opt == tab + " " + "(" + d + ")" + "";
    CountSuffixRemoved(tab, " ", d, "");
    assert TrimEnd(tab) == tab by {
      TrimEndIdempotent(tab);
    }
    assert Strip(opt) == opt by {
      assert !IsSpace(opt[|opt| - 1]);
      assert TrimEnd(opt) == opt;
      assert opt[0] == tab[0];
      assert !IsSpace(tab[0]) by {
        assert TrimStart(TrimEnd(tab)) == tab;
      }
    }
  }

  /** The results of the date and comment steps do not change the outcome
      or whether the submit step clicks. */
  lemma DateAndCommentDoNotMatter(rev: Revision, m: ModalForm, d: DateForm, c: CommentForm, templateTerm: string,
                                  selectedTab: Option<string>, tomorrowDay: string, content: string, activeTemplate: string)
    ensures var r1 := HandleModal(rev, m, templateTerm, selectedTab, tomorrowDay, content, activeTemplate);
      var r2 := HandleModal(rev, m.(date := d, comment := c), templateTerm, selectedTab, tomorrowDay, content, activeTemplate);
      r1.outcome == r2.outcome && |r1.steps| == |r2.steps| &&
      (r1.outcome == Completed ==> r1.steps[|r1.steps| - 1] == r2.steps[|r2.steps| - 1])
  {
    var m2 := m.(date := d, comment := c);
    if m.Iframe() == IframeFound {
      var picked := TermPicked(rev, templateTerm, m.term, m.pick);
      assert m2.term == m.term && m2.pick == m.pick;
      FormIgnoresDateAndComment(rev, picked, m, m2, templateTerm, selectedTab, tomorrowDay, content, activeTemplate);
    }
  }

  lemma FormIgnoresDateAndComment(rev: Revision, picked: bool, m: ModalForm, m2: ModalForm, templateTerm: string,
                                  selectedTab: Option<string>, tomorrowDay: string, content: string, activeTemplate: string)
    requires m2.tag == m.tag && m2.submit == m.submit
    ensures var r1 := FormRun(rev, picked, m, templateTerm, selectedTab, tomorrowDay, content, activeTemplate);
      var r2 := FormRun(rev, picked, m2, templateTerm, selectedTab, tomorrowDay, content, activeTemplate);
      r1.outcome == r2.outcome && |r1.steps| == |r2.steps| &&
      (r1.outcome == Completed ==> r1.steps[|r1.steps| - 1] == r2.steps[|r2.steps| - 1])
  {
    if !(rev == Current && !picked) {
      var steps := [TermStep(picked)];
      var r1 := AfterTerm(rev, m, selectedTab, tomorrowDay, content, activeTemplate, steps);
      var r2 := AfterTerm(rev, m2, selectedTab, tomorrowDay, content, activeTemplate, steps);
      if selectedTab.Some? && selectedTab.value != "" {
        if InputTag(rev, selectedTab.value, m.tag).StepOk? {
          assert r1 == FinishForm(m, tomorrowDay, content, activeTemplate, steps + [TagStep]);
          assert r2 == FinishForm(m2, tomorrowDay, content, activeTemplate, steps + [TagStep]);
        }
      } else {
        assert r1 == FinishForm(m, tomorrowDay, content, activeTemplate, steps);
        assert r2 == FinishForm(m2, tomorrowDay, content, activeTemplate, steps);
      }
    }
  }

  /** The earlier revision goes on to the tag, date, comment and submit
      steps whatever the term step gives. */
  lemma EarlierIgnoresTerm(m: ModalForm, f: TermForm, templateTerm: string, selectedTab: Option<string>,
                           tomorrowDay: string, content: string, activeTemplate: string)
    ensures var r1 := HandleModal(Earlier, m, templateTerm, selectedTab, tomorrowDay, content, activeTemplate);
      var r2 := HandleModal(Earlier, m.(term := f), templateTerm, selectedTab, tomorrowDay, content, activeTemplate);
      r1.outcome == r2.outcome && |r1.steps| == |r2.steps| &&
      forall k :: 1 <= k < |r1.steps| ==> r1.steps[k] == r2.steps[k]
  {
    var m2 := m.(term := f);
    if m.Iframe() == IframeFound {
      var p1 := TermPicked(Earlier, templateTerm, m.term, m.pick);
      var p2 := TermPicked(Earlier, templateTerm, m2.term, m2.pick);
      assert HandleModal(Earlier, m, templateTerm, selectedTab, tomorrowDay, content, activeTemplate) ==
        AfterTerm(Earlier, m, selectedTab, tomorrowDay, content, activeTemplate, [TermStep(p1)]);
      assert HandleModal(Earlier, m2, templateTerm, selectedTab, tomorrowDay, content, activeTemplate) ==
        AfterTerm(Earlier, m2, selectedTab, tomorrowDay, content, activeTemplate, [TermStep(p2)]);
      var rest := AfterTerm(Earlier, m, selectedTab, tomorrowDay, content, activeTemplate, []);
      assert AfterTerm(Earlier, m2, selectedTab, tomorrowDay, content, activeTemplate, []) == rest;
      AfterTermAppends(Earlier, m, selectedTab, tomorrowDay, content, activeTemplate, [TermStep(p1)]);
      AfterTermAppends(Earlier, m2, selectedTab, tomorrowDay, content, activeTemplate, [TermStep(p2)]);
    }
  }

  /** The steps already taken only prefix what the handler does from the tag
      step on. */
  lemma AfterTermAppends(rev: Revision, m: ModalForm, selectedTab: Option<string>, tomorrowDay: string, content: string,
                         activeTemplate: string, steps: seq<Step>)
    ensures var rest := AfterTerm(rev, m, selectedTab, tomorrowDay, content, activeTemplate, []);
      AfterTerm(rev, m, selectedTab, tomorrowDay, content, activeTemplate, steps) == ModalRun(rest.outcome, steps + rest.steps)
  {
    if selectedTab.Some? && selectedTab.value != "" {
      assert steps + [TagStep] == steps + ([] + [TagStep]);
    }
    var tail := [DateStep(SelectDate(m.date, tomorrowDay)), CommentStep(InputComment(content, activeTemplate, m.comment).Some?),
                 SubmitStep(SubmitProposal(m.submit))];
    assert steps + [TagStep] + tail == steps + ([] + [TagStep] + tail);
    assert steps + tail == steps + ([] + tail);
  }

  /** The current revision stops at an unchosen term with the error
      "template_term_not_found: <term>", which the handler re-raises only
      when it carries a connection-loss marker. */
  lemma CurrentStopsAtUnchosenTerm(m: ModalForm, templateTerm: string, selectedTab: Option<string>,
                                   tomorrowDay: string, content: string, activeTemplate: string)
    requires m.Iframe() == IframeFound && !TermPicked(Current, templateTerm, m.term, m.pick)
    ensures var msg := TermNotFoundPrefix + templateTerm;
      HandleModal(Current, m, templateTerm, selectedTab, tomorrowDay, content, activeTemplate) ==
      ModalRun(if IsTransient(msg) then Raised(msg) else Aborted, [TermStep(false)])
  {
  }
}
