/** Choosing the "Template Term" option of the proposal form. The current
    revision normalises labels (drops one trailing "(N)" count, trims,
    lower-cases, collapses whitespace) and accepts an option when either
    normalised label contains the other; the earlier revision accepts only
    exact labels. The form is an oracle: what each lookup found or raised. */
module Terms {
  import opened Text
  import opened Errors

  const DefaultTerm := "Commission Tier Terms"

  /** Length of the run of digits at the end of `s`. */
  function TrailingDigits(s: string): (n: nat)
    ensures n <= |s|
    ensures forall i :: |s| - n <= i < |s| ==> IsDigit(s[i])
    ensures n < |s| ==> !IsDigit(s[|s| - n - 1])
    decreases |s|
  {
    if |s| > 0 && IsDigit(s[|s| - 1]) then TrailingDigits(s[..|s| - 1]) + 1 else 0
  }

  /** `re.sub(r'\s*\(\d+\)\s*$', '', s)`: removes a trailing count "(N)"
      together with the whitespace around it, or leaves `s` as it is. */
  function StripCountSuffix(s: string): (r: string)
    ensures |r| <= |s| && r == s[..|r|]
    ensures r != s ==> |r| == 0 || !IsSpace(r[|r| - 1])
  {
    TrimEndFacts(s);
    var t := TrimEnd(s);
    if |t| > 0 && t[|t| - 1] == ')' then
      var body := t[..|t| - 1];
      var d := TrailingDigits(body);
      if d > 0 && |body| > d && body[|body| - d - 1] == '(' then
        TrimEndFacts(body[..|body| - d - 1]);
        TrimEnd(body[..|body| - d - 1])
      else s
    else s
  }

  /** The label normalisation applied to the desired term and to every option. */
  function TermNorm(s: string): string {
    CollapseWs(Lower(Strip(StripCountSuffix(s))))
  }

  /** The match filter: equal, or either normalised label contains the other. */
  predicate Matches(option: string, desired: string) {
    option == desired || Contains(option, desired) || Contains(desired, option)
  }

  /** The label the bot looks for: the configured term, or the default when it
      is empty, trimmed. */
  function DesiredTerm(term: string): (r: string)
    ensures term == "" ==> r == DefaultTerm
    ensures term != "" ==> r == Strip(term)
  {
    if term == "" then DefaultTerm else Strip(term)
  }

  /** XPath `normalize-space()`: trimmed, inner whitespace runs collapsed. */
  function NormalizeSpace(s: string): string {
    CollapseWs(Strip(s))
  }

  /** `[t for t in options if matches]`, keeping the raw texts in order. */
  function MatchingOptions(options: seq<string>, desiredNorm: string): (r: seq<string>)
    ensures |r| <= |options|
    ensures forall t :: t in r ==> t in options && Matches(TermNorm(t), desiredNorm)
  {
    if |options| == 0 then []
    else (if Matches(TermNorm(options[0]), desiredNorm) then [options[0]] else [])
         + MatchingOptions(options[1..], desiredNorm)
  }

  /** How a term came to be selected. */
  datatype Route = ByNativeSelect | ByUniqueMatch | ByOperator | ByExactOption | ByTextLocator | ByEllipsis

  datatype TermChoice = Picked(chosen: string, via: Route) | NotPicked

  /** The native `<select>` of the form: absent, present and accepting the
      label, present and raising on it, or its lookup raising. */
  datatype NativeSelect = NoSelect | SelectAccepts | SelectRaises | LookupRaises

  /** One `li[role=option]` of an open dropdown: its own text, and the
      string values of the elements below it (what an XPath descendant step
      reaches; the item itself is not among them). */
  datatype Item = Item(text: string, inner: seq<string>)

  /** An open custom dropdown: its `li[role=option]` items and its
      `div.text-ellipsis` texts, each list as its query answered or raised. */
  datatype Panel = Panel(items: Query<seq<Item>>, ellipsis: Query<seq<string>>)

  /** The texts of a list of items, in order. */
  function ItemTexts(items: seq<Item>): (r: seq<string>)
    ensures |r| == |items| && forall i :: 0 <= i < |items| ==> r[i] == items[i].text
  {
    seq(|items|, i requires 0 <= i < |items| => items[i].text)
  }

  /** What the form's lookups give. `openRaises` is a lookup raising while the
      dropdown is being opened from the "Template Term" section; `textHit` is
      the `text=` locator finding the label; `ellipsis` lists the form's
      `div.text-ellipsis` texts (a text that cannot be read is given as "");
      `clickRaises` is a direct element click raising (only the earlier
      revision clicks elements directly). */
  datatype TermForm = TermForm(
    native: NativeSelect,
    openRaises: bool,
    panels: Query<seq<Panel>>,
    textHit: Query<bool>,
    ellipsis: Query<seq<string>>,
    clickRaises: bool)

  /** The option texts of a panel: the list items, or when there are none the
      ellipsis nodes; nothing when a query raised (that block is skipped). */
  function PanelOptions(p: Panel): (r: Option<seq<string>>)
    ensures p.items.Threw? ==> r.None?
    ensures p.items.Answered? && |p.items.value| > 0 ==> r == Some(ItemTexts(p.items.value))
  {
    match p.items
    case Threw(_) => None
    case Answered(items) =>
      if |items| > 0 then Some(ItemTexts(items))
      else match p.ellipsis
        case Threw(_) => None
        case Answered(e) => Some(e)
  }

  /** The current revision's choice inside the open dropdown: one match is
      clicked; several, or none among some options, go to the operator, whose
      answer `pick` (0-based, absent when not answered) is clicked. */
  function PanelChoice(p: Panel, desiredNorm: string, pick: Option<nat>): (r: Option<TermChoice>)
    ensures r.Some? ==> r.value.Picked?
    ensures r.Some? && r.value.via == ByUniqueMatch ==>
      PanelOptions(p).Some? && MatchingOptions(PanelOptions(p).value, desiredNorm) == [r.value.chosen]
    ensures r.Some? ==> r.value.via == ByUniqueMatch || r.value.via == ByOperator
    ensures r.Some? && r.value.via == ByOperator ==>
      PanelOptions(p).Some? && |MatchingOptions(PanelOptions(p).value, desiredNorm)| != 1
    ensures r.Some? ==> PanelOptions(p).Some? && r.value.chosen in PanelOptions(p).value
    ensures PanelOptions(p).Some? && |MatchingOptions(PanelOptions(p).value, desiredNorm)| == 1 ==>
      r == Some(Picked(MatchingOptions(PanelOptions(p).value, desiredNorm)[0], ByUniqueMatch))
  {
    match PanelOptions(p)
    case None => None
    case Some(options) =>
      var matches := MatchingOptions(options, desiredNorm);
      if |matches| == 1 then Some(Picked(matches[0], ByUniqueMatch))
      else if |matches| > 1 then
        (if pick.Some? && pick.value < |matches| then Some(Picked(matches[pick.value], ByOperator)) else None)
      else if |options| > 0 then
        (if pick.Some? && pick.value < |options| then Some(Picked(options[pick.value], ByOperator)) else None)
      else None
  }

  /** The current fallback's test on one ellipsis text: non-empty, and its
      normalised label equal to or containing the desired one. */
  predicate LooseHit(opt: string, desiredNorm: string) {
    opt != "" && (TermNorm(opt) == desiredNorm || Contains(TermNorm(opt), desiredNorm))
  }

  /** An operator's answer: the dropdown did not have exactly one match, and
      the answer is one of its options. */
  predicate OperatorPick(p: Panel, desiredNorm: string, chosen: string) {
    PanelOptions(p).Some? && |MatchingOptions(PanelOptions(p).value, desiredNorm)| != 1 &&
    chosen in PanelOptions(p).value
  }

  /** The choice in the last of the open dropdowns (`dropdowns[-1]`). */
  function LastPanelChoice(ps: seq<Panel>, desiredNorm: string, pick: Option<nat>): (r: Option<TermChoice>)
    ensures r.Some? ==> |ps| > 0 && r == PanelChoice(ps[|ps| - 1], desiredNorm, pick)
    ensures r.Some? ==> r.value.Picked? && (r.value.via == ByUniqueMatch || r.value.via == ByOperator)
    ensures r.Some? && r.value.via == ByOperator ==> OperatorPick(ps[|ps| - 1], desiredNorm, r.value.chosen)
  {
    if |ps| == 0 then None else PanelChoice(ps[|ps| - 1], desiredNorm, pick)
  }

  /** Index of the first ellipsis text the current fallback accepts. */
  function FirstLoose(opts: seq<string>, desiredNorm: string): (r: Option<nat>)
    ensures r.Some? ==> r.value < |opts| && LooseHit(opts[r.value], desiredNorm)
    ensures r.None? ==> forall i :: 0 <= i < |opts| ==> !LooseHit(opts[i], desiredNorm)
  {
    var hits := seq(|opts|, i requires 0 <= i < |opts| => LooseHit(opts[i], desiredNorm));
    assert forall i :: 0 <= i < |opts| ==> hits[i] == LooseHit(opts[i], desiredNorm);
    FirstTrue(hits)
  }


  /** `_select_template_term` of the current revision. Every failure is caught
      and gives "not selected"; the function itself never raises. */
  function SelectTermCurrent(term: string, f: TermForm, pick: Option<nat>): TermChoice {
    SelectCurrentFor(DesiredTerm(term), TermNorm(DesiredTerm(term)), f, pick)
  }

  /** The current revision's strategies, in order, for the trimmed label
      `desired`, whose normalised form is `desiredNorm`: the native select,
      the open dropdown's options, the `text=` locator, and the form's
      ellipsis texts. */
  function SelectCurrentFor(desired: string, desiredNorm: string, f: TermForm, pick: Option<nat>): (r: TermChoice)
    ensures f.native == LookupRaises || (f.openRaises && f.native != SelectAccepts) ==> r == NotPicked
    ensures f.native == SelectAccepts ==> r == Picked(desired, ByNativeSelect)
    ensures r.Picked? ==> r.via != ByExactOption
  {
    match f.native
    case LookupRaises => NotPicked
    case SelectAccepts => Picked(desired, ByNativeSelect)
    case _ => if f.openRaises then NotPicked else AfterOpen(desired, desiredNorm, f, pick)
  }

  /** The current revision once the dropdown has been sought: the last open
      dropdown's choice, else the `text=` locator and the ellipsis texts. */
  function AfterOpen(desired: string, desiredNorm: string, f: TermForm, pick: Option<nat>): TermChoice {
    match FindElements(f.panels)
    case Propagated(_) => NotPicked
    case Value(ps) =>
      var fromPanel := LastPanelChoice(ps, desiredNorm, pick);
      if fromPanel.Some? then fromPanel.value
      else LocatorOrEllipsis(desired, desiredNorm, f)
  }

  /** The last two strategies of the current revision: the `text=` locator,
      then the first ellipsis text the loose test accepts. */
  function LocatorOrEllipsis(desired: string, desiredNorm: string, f: TermForm): (r: TermChoice)
    ensures r.Picked? ==> r.via == ByTextLocator || r.via == ByEllipsis
    ensures r.Picked? && r.via == ByTextLocator ==> r.chosen == desired && f.textHit == Answered(true)
    ensures r.Picked? && r.via == ByEllipsis ==>
      f.ellipsis.Answered? && r.chosen in f.ellipsis.value && LooseHit(r.chosen, desiredNorm)
  {
    if f.textHit == Answered(true) then Picked(desired, ByTextLocator)
    else match FindElements(f.ellipsis)
      case Propagated(_) => NotPicked
      case Value(opts) =>
        match FirstLoose(opts, desiredNorm)
        case None => NotPicked
        case Some(i) => Picked(opts[i], ByEllipsis)
  }

  /** The earlier revision's XPath test on one `li`: some element below the
      item has, under `normalize-space()`, exactly the label as its text. */
  predicate HasExactInner(it: Item, desired: string) {
    exists k :: 0 <= k < |it.inner| && NormalizeSpace(it.inner[k]) == desired
  }

  /** Index of the first list item the earlier revision's XPath selects: the
      first with an element below it whose normalised text is the label. */
  function FirstExactItem(items: seq<Item>, desired: string): (r: Option<nat>)
    ensures r.Some? ==> r.value < |items| && HasExactInner(items[r.value], desired)
    ensures r.Some? ==> forall i :: 0 <= i < r.value ==> !HasExactInner(items[i], desired)
    ensures r.None? ==> forall i :: 0 <= i < |items| ==> !HasExactInner(items[i], desired)
  {
    var hits := seq(|items|, i requires 0 <= i < |items| => HasExactInner(items[i], desired));
    assert forall i :: 0 <= i < |items| ==> hits[i] == HasExactInner(items[i], desired);
    FirstTrue(hits)
  }


  /** The earlier fallback's test on one ellipsis text: non-empty and,
      trimmed, exactly the label. */
  predicate ExactHit(opt: string, desired: string) {
    opt != "" && Strip(opt) == desired
  }

  /** Index of the first ellipsis text the earlier fallback accepts. */
  function FirstExactText(opts: seq<string>, desired: string): (r: Option<nat>)
    ensures r.Some? ==> r.value < |opts| && ExactHit(opts[r.value], desired)
    ensures r.None? ==> forall i :: 0 <= i < |opts| ==> !ExactHit(opts[i], desired)
  {
    var hits := seq(|opts|, i requires 0 <= i < |opts| => ExactHit(opts[i], desired));
    assert forall i :: 0 <= i < |opts| ==> hits[i] == ExactHit(opts[i], desired);
    FirstTrue(hits)
  }


  /** `_select_template_term` of the earlier revision: exact labels only; its
      lookups and clicks are direct, so any of them raising gives "not
      selected". */
  function SelectTermEarlier(term: string, f: TermForm): TermChoice {
    SelectEarlierFor(DesiredTerm(term), f)
  }

  function SelectEarlierFor(desired: string, f: TermForm): (r: TermChoice)
    ensures r.Picked? ==> r.via != ByOperator && r.via != ByUniqueMatch
    ensures r.Picked? && r.via != ByNativeSelect ==> !f.clickRaises
  {
    match f.native
    case LookupRaises => NotPicked
    case SelectAccepts => Picked(desired, ByNativeSelect)
    case _ =>
      if f.openRaises then NotPicked
      else match f.panels
        case Threw(_) => NotPicked
        case Answered(ps) =>
          var itemHit: Option<Option<string>> :=
            if |ps| == 0 then Some(None)
            else match ps[|ps| - 1].items
              case Threw(_) => None
              case Answered(items) =>
                match FirstExactItem(items, desired)
                case None => Some(None)
                case Some(i) => Some(Some(items[i].text));
          match itemHit
          case None => NotPicked
          case Some(Some(hit)) => if f.clickRaises then NotPicked else Picked(hit, ByExactOption)
          case Some(None) =>
            match f.textHit
            case Threw(_) => NotPicked
            case Answered(true) => if f.clickRaises then NotPicked else Picked(desired, ByTextLocator)
            case Answered(false) =>
              match f.ellipsis
              case Threw(_) => NotPicked
              case Answered(opts) =>
                match FirstExactText(opts, desired)
                case None => NotPicked
                case Some(i) => if f.clickRaises then NotPicked else Picked(opts[i], ByEllipsis)
  }



  /** Appending whitespace does not change `rstrip`. */
  lemma {:induction false} TrimEndSpaces(a: string, w: string)
    requires forall i :: 0 <= i < |w| ==> IsSpace(w[i])
    ensures TrimEnd(a + w) == TrimEnd(a)
    decreases |w|
  {
    if |w| == 0 {
      assert a + w == a;
    } else {
      assert (a + w)[..|a + w| - 1] == a + w[..|w| - 1];
      TrimEndSpaces(a, w[..|w| - 1]);
    }
  }

  lemma {:induction false} TrimEndIdempotent(a: string)
    ensures TrimEnd(TrimEnd(a)) == TrimEnd(a)
  {
    TrimEndFacts(a);
  }

  /** Digits appended after an opening parenthesis form the whole trailing
      digit run. */
  lemma {:induction false} TrailingDigitsAfterParen(a: string, d: string)
    requires forall i :: 0 <= i < |d| ==> IsDigit(d[i])
    ensures TrailingDigits(a + "(" + d) == |d|
    decreases |d|
  {
    if |d| > 0 {
      assert (a + "(" + d)[..|a + "(" + d| - 1] == a + "(" + d[..|d| - 1];
      TrailingDigitsAfterParen(a, d[..|d| - 1]);
    } else {
      assert a + "(" + d == a + "(";
    }
  }

  /** The count pattern removes `ws "(" digits ")" ws` at the end together
      with all whitespace before it. */
  lemma CountSuffixRemoved(a: string, w1: string, d: string, w2: string)
    requires forall i :: 0 <= i < |w1| ==> IsSpace(w1[i])
    requires forall i :: 0 <= i < |w2| ==> IsSpace(w2[i])
    requires |d| > 0 && forall i :: 0 <= i < |d| ==> IsDigit(d[i])
    ensures StripCountSuffix(a + w1 + "(" + d + ")" + w2) == TrimEnd(a)
  {
    var head := a + w1;
    var body := head + "(" + d;
    var core := body + [')'];
    var s := core + w2;
    assert a + w1 + "(" + d + ")" + w2 == s;
    assert StripCountSuffix(s) == TrimEnd(head) by {
      ClosingParenEnd(core, w2);
      assert core[..|core| - 1] == body;
      CountBody(head, d);
      StripCountSuffixUnfold(s, body, |d|);
    }
    TrimEndSpaces(a, w1);
  }


  lemma ClosingParenEnd(core: string, w2: string)
    requires forall i :: 0 <= i < |w2| ==> IsSpace(w2[i])
    requires |core| > 0 && core[|core| - 1] == ')'
    ensures TrimEnd(core + w2) == core
  {
    TrimEndSpaces(core, w2);
  }

  lemma CountBody(head: string, d: string)
    requires |d| > 0 && forall i :: 0 <= i < |d| ==> IsDigit(d[i])
    ensures var body := head + "(" + d;
      TrailingDigits(body) == |d| && |body| > |d| && body[|body| - |d| - 1] == '(' &&
      body[..|body| - |d| - 1] == head
  {
    TrailingDigitsAfterParen(head, d);
  }

  /** The count pattern's removal, for a string whose trimmed form is
      `body + ")"` with a digit run of length `n` after a parenthesis. */
  lemma StripCountSuffixUnfold(s: string, body: string, n: nat)
    requires TrimEnd(s) == body + [')']
    requires TrailingDigits(body) == n && n > 0 && |body| > n && body[|body| - n - 1] == '('
    ensures StripCountSuffix(s) == TrimEnd(body[..|body| - n - 1])
  {
    var t := TrimEnd(s);
    assert t[..|t| - 1] == body;
  }



  /** The current revision: an option showing the label with a count, such
      as "Public Terms (12)", normalises to the same text as the label. */
  lemma CountedLabelNormalisesToLabel(desired: string, d: string)
    requires StripCountSuffix(desired) == desired
    requires |d| > 0 && forall i :: 0 <= i < |d| ==> IsDigit(d[i])
    ensures TermNorm(desired + " (" + d + ")") == TermNorm(desired)
    ensures Matches(TermNorm(desired + " (" + d + ")"), TermNorm(desired))
    ensures desired + " (" + d + ")" != "" ==> LooseHit(desired + " (" + d + ")", TermNorm(desired))
  {
    assert desired + " (" + d + ")" == desired + " " + "(" + d + ")" + "";
    CountSuffixRemoved(desired, " ", d, "");
    TrimEndIdempotent(desired);
  }

  /** Each whitespace character is a plain space followed by a non-space:
      a label as `normalize-space()` leaves it, apart from the leading end. */
  predicate SingleSpaced(s: string) {
    forall i :: 0 <= i < |s| && IsSpace(s[i]) ==> s[i] == ' ' && i + 1 < |s| && !IsSpace(s[i + 1])
  }

  lemma {:induction false} CollapseSingleSpaced(s: string)
    requires SingleSpaced(s)
    ensures CollapseWs(s) == s
    decreases |s|
  {
    if |s| > 0 {
      if IsSpace(s[0]) {
        assert TrimStart(s) == s[1..] by {
          assert !IsSpace(s[1]);
          assert TrimStart(s[1..]) == s[1..];
        }
      }
      assert SingleSpaced(s[1..]) by {
        forall i | 0 <= i < |s[1..]| && IsSpace(s[1..][i])
          ensures s[1..][i] == ' ' && i + 1 < |s[1..]| && !IsSpace(s[1..][i + 1])
        {
          assert s[1..][i] == s[i + 1];
        }
      }
      CollapseSingleSpaced(s[1..]);
    }
  }

  /** A string with no whitespace at either end is its own `strip()`. */
  lemma StripUnchanged(s: string)
    requires |s| > 0 && !IsSpace(s[0]) && !IsSpace(s[|s| - 1])
    ensures Strip(s) == s
  {
    assert TrimEnd(s) == s;
  }

  lemma SingleSpacedCounted(desired: string, d: string)
    requires SingleSpaced(desired)
    requires |d| > 0 && forall i :: 0 <= i < |d| ==> IsDigit(d[i])
    ensures SingleSpaced(desired + " (" + d + ")")
  {
    var opt := desired + " (" + d + ")";
    forall i | 0 <= i < |opt|
      ensures IsSpace(opt[i]) ==> opt[i] == ' ' && i + 1 < |opt| && !IsSpace(opt[i + 1])
    {
      if i < |desired| {
        assert opt[i] == desired[i];
        if IsSpace(desired[i]) {
          assert opt[i + 1] == desired[i + 1];
        }
      } else if i == |desired| {
        assert opt[i + 1] == '(';
      } else if i == |desired| + 1 {
        assert opt[i] == '(';
      } else if i < |opt| - 1 {
        assert opt[i] == d[i - |desired| - 2];
      } else {
        assert opt[i] == ')';
      }
    }
  }

  /** The earlier revision: for a label that is already normalised, the
      same label with a count, such as "Public Terms (12)", passes neither
      exact test, so that option is never chosen. */
  lemma EarlierRejectsCountedLabel(desired: string, d: string)
    requires |desired| > 0 && !IsSpace(desired[0]) && SingleSpaced(desired)
    requires |d| > 0 && forall i :: 0 <= i < |d| ==> IsDigit(d[i])
    ensures !ExactHit(desired + " (" + d + ")", desired)
    ensures NormalizeSpace(desired + " (" + d + ")") != desired
  {
    var opt := desired + " (" + d + ")";
    assert opt[0] == desired[0] && opt[|opt| - 1] == ')';
    StripUnchanged(opt);
    SingleSpacedCounted(desired, d);
    CollapseSingleSpaced(opt);
  }

  /** The earlier revision's item test reads the elements below an option,
      not the option's own text: an option whose one inner element holds the
      counted label is skipped, while an option that keeps the label and the
      count in separate elements is selected, whatever its own text. */
  lemma EarlierItemTest(desired: string, d: string, own: string)
    requires |desired| > 0 && !IsSpace(desired[0]) && SingleSpaced(desired)
    requires |d| > 0 && forall i :: 0 <= i < |d| ==> IsDigit(d[i])
    ensures !HasExactInner(Item(own, [desired + " (" + d + ")"]), desired)
    ensures HasExactInner(Item(own, [desired, "(" + d + ")"]), desired)
  {
    EarlierRejectsCountedLabel(desired, d);
    StripUnchanged(desired);
    CollapseSingleSpaced(desired);
    assert NormalizeSpace(Item(own, [desired, "(" + d + ")"]).inner[0]) == desired;
  }


  /** An option that is only a count, such as "(3)", normalises to the empty
      text, and the empty text matches every desired term. */
  lemma BareCountMatchesEverything(d: string, desiredNorm: string)
    requires |d| > 0 && forall i :: 0 <= i < |d| ==> IsDigit(d[i])
    ensures TermNorm("(" + d + ")") == ""
    ensures Matches(TermNorm("(" + d + ")"), desiredNorm)
  {
    assert "(" + d + ")" == "" + "" + "(" + d + ")" + "";
    CountSuffixRemoved("", "", d, "");
    assert OccursAt(desiredNorm, "", 0);
  }

  /** Exactly one match in the open dropdown is clicked without asking: the
      result does not depend on the operator's answer. */
  lemma UniqueMatchNeedsNoOperator(desired: string, desiredNorm: string, f: TermForm,
                                   pick1: Option<nat>, pick2: Option<nat>)
    requires f.native != LookupRaises && f.native != SelectAccepts && !f.openRaises
    requires f.panels.Answered? && |f.panels.value| > 0
    requires var opts := PanelOptions(f.panels.value[|f.panels.value| - 1]);
      opts.Some? && |MatchingOptions(opts.value, desiredNorm)| == 1
    ensures SelectCurrentFor(desired, desiredNorm, f, pick1) == SelectCurrentFor(desired, desiredNorm, f, pick2)
    ensures var opts := PanelOptions(f.panels.value[|f.panels.value| - 1]).value;
      SelectCurrentFor(desired, desiredNorm, f, pick1) ==
        Picked(MatchingOptions(opts, desiredNorm)[0], ByUniqueMatch)
  {
    var ps := f.panels.value;
    assert FindElements(f.panels) == Value(ps);
    assert SelectCurrentFor(desired, desiredNorm, f, pick1) == AfterOpen(desired, desiredNorm, f, pick1);
    assert SelectCurrentFor(desired, desiredNorm, f, pick2) == AfterOpen(desired, desiredNorm, f, pick2);
    var c := PanelChoice(ps[|ps| - 1], desiredNorm, pick1);
    assert c == PanelChoice(ps[|ps| - 1], desiredNorm, pick2);
    assert c.Some?;
  }




  /** The operator is asked only when the open dropdown does not have exactly
      one match, and the answer is one of that dropdown's options. */
  lemma OperatorOnlyWhenAmbiguous(desired: string, desiredNorm: string, f: TermForm, pick: Option<nat>)
    requires SelectCurrentFor(desired, desiredNorm, f, pick).Picked?
    requires SelectCurrentFor(desired, desiredNorm, f, pick).via == ByOperator
    ensures f.panels.Answered? && |f.panels.value| > 0
    ensures OperatorPick(f.panels.value[|f.panels.value| - 1], desiredNorm,
                         SelectCurrentFor(desired, desiredNorm, f, pick).chosen)
  {
    assert SelectCurrentFor(desired, desiredNorm, f, pick) == AfterOpen(desired, desiredNorm, f, pick);
    var q := FindElements(f.panels);
    if q.Value? {
      var c := LastPanelChoice(q.value, desiredNorm, pick);
      if c.Some? {
        assert AfterOpen(desired, desiredNorm, f, pick) == c.value;
      }
    }
  }

  /** A label the current fallback picks from the form's ellipsis texts is one
      of them, and its normalised text equals or contains the desired one. */
  lemma EllipsisPickIsLoose(desired: string, desiredNorm: string, f: TermForm, pick: Option<nat>)
    requires SelectCurrentFor(desired, desiredNorm, f, pick).Picked?
    requires SelectCurrentFor(desired, desiredNorm, f, pick).via == ByEllipsis
    ensures f.ellipsis.Answered?
    ensures SelectCurrentFor(desired, desiredNorm, f, pick).chosen in f.ellipsis.value
    ensures LooseHit(SelectCurrentFor(desired, desiredNorm, f, pick).chosen, desiredNorm)
  {
    assert SelectCurrentFor(desired, desiredNorm, f, pick) == AfterOpen(desired, desiredNorm, f, pick);
    var q := FindElements(f.panels);
    if q.Value? && LastPanelChoice(q.value, desiredNorm, pick).None? {
      assert AfterOpen(desired, desiredNorm, f, pick) == LocatorOrEllipsis(desired, desiredNorm, f);
    }
  }
}
