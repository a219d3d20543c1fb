/** The page's "Send Proposal" controls and the two marker attributes the bot
    writes on them. Markers live on the page nodes, so a scan needs no memory
    of its own: a control goes unmarked -> counted -> clicked and the bot only
    ever writes the value "true". A node handle is an index into the page. */
module Dom {
  import opened Text

  const CountedAttr := "data-impact-rpa-counted"
  const ClickedAttr := "data-impact-rpa-clicked"
  const MarkValue := "true"
  const ButtonText := "Send Proposal"

  datatype Attr = Counted | Clicked

  /** One control: its visible text (`btn.text or ''`), its two marker
      attributes, and whether the page accepts attribute writes on it (by the
      attribute setter or the `setAttribute` script fallback). */
  datatype Node = Node(text: string, counted: Option<string>, clicked: Option<string>, writable: bool)

  datatype Marker = Unmarked | CountedMark | ClickedMark

  function AttrOf(n: Node, a: Attr): Option<string> {
    match a
    case Counted => n.counted
    case Clicked => n.clicked
  }

  function MarkerOf(n: Node): Marker {
    if n.clicked == Some(MarkValue) then ClickedMark
    else if n.counted == Some(MarkValue) then CountedMark
    else Unmarked
  }

  function Rank(m: Marker): nat {
    match m
    case Unmarked => 0
    case CountedMark => 1
    case ClickedMark => 2
  }

  /** The node after `_mark_button_state(btn, attr)`. */
  function Marked(n: Node, a: Attr): (r: Node)
    ensures AttrOf(r, a) == (if AttrOf(n, a) == Some(MarkValue) || n.writable then Some(MarkValue) else AttrOf(n, a))
    ensures a == Counted ==> r.clicked == n.clicked
    ensures a == Clicked ==> r.counted == n.counted
    ensures r.text == n.text && r.writable == n.writable
  {
    if AttrOf(n, a) == Some(MarkValue) || !n.writable then n
    else match a
      case Counted => n.(counted := Some(MarkValue))
      case Clicked => n.(clicked := Some(MarkValue))
  }

  /** Marking twice is marking once. */
  lemma MarkedIdempotent(n: Node, a: Attr)
    ensures Marked(Marked(n, a), a) == Marked(n, a)
  {
  }

  /** Marking never moves a control backwards, and only ever writes "true". */
  lemma MarkedMonotone(n: Node, a: Attr)
    ensures Rank(MarkerOf(n)) <= Rank(MarkerOf(Marked(n, a)))
    ensures AttrOf(Marked(n, a), a) == AttrOf(n, a) || AttrOf(Marked(n, a), a) == Some(MarkValue)
  {
  }

  /** A control the scan will never count again: clicked, counted, or not
      writable. */
  predicate Settled(n: Node) {
    n.clicked == Some(MarkValue) || n.counted == Some(MarkValue) || !n.writable
  }

  /** A control the scan counts now: not clicked, not counted, writable. */
  predicate Fresh(n: Node) {
    !Settled(n)
  }

  predicate IsCandidate(nodes: seq<Node>, k: nat) {
    k < |nodes| && Contains(nodes[k].text, ButtonText)
  }

  /** The controls found whose text contains "Send Proposal"; an index outside
      the page is a falsy handle and is skipped. */
  function Candidates(nodes: seq<Node>, found: seq<nat>): (r: seq<nat>)
    ensures forall k :: k in r <==> k in found && IsCandidate(nodes, k)
    ensures |r| <= |found|
  {
    if |found| == 0 then []
    else
      var last := found[|found| - 1];
      Candidates(nodes, found[..|found| - 1]) + (if IsCandidate(nodes, last) then [last] else [])
  }

  predicate InPage(nodes: seq<Node>, cands: seq<nat>) {
    forall j :: 0 <= j < |cands| ==> cands[j] < |nodes|
  }

  datatype ScanResult = ScanResult(nodes: seq<Node>, available: seq<nat>, newlyCounted: nat)

  /** The partition loop of the scan, one candidate after another: clicked
      controls are dropped, unmarked ones are marked counted, and every
      survivor is available. */
  function ScanFrom(nodes: seq<Node>, cands: seq<nat>): (r: ScanResult)
    requires InPage(nodes, cands)
    ensures |r.nodes| == |nodes|
    decreases |cands|
  {
    if |cands| == 0 then ScanResult(nodes, [], 0)
    else
      var i := cands[0];
      var n := nodes[i];
      if n.clicked == Some(MarkValue) then ScanFrom(nodes, cands[1..])
      else if n.counted != Some(MarkValue) && n.writable then
        var r := ScanFrom(nodes[i := Marked(n, Counted)], cands[1..]);
        ScanResult(r.nodes, [i] + r.available, r.newlyCounted + 1)
      else
        var r := ScanFrom(nodes, cands[1..]);
        ScanResult(r.nodes, [i] + r.available, r.newlyCounted)
  }

  /** The candidates that are not marked clicked, in order. */
  function NotClicked(nodes: seq<Node>, cands: seq<nat>): (r: seq<nat>)
    requires InPage(nodes, cands)
    ensures forall k :: k in r <==> k in cands && nodes[k].clicked != Some(MarkValue)
  {
    if |cands| == 0 then []
    else (if nodes[cands[0]].clicked == Some(MarkValue) then [] else [cands[0]]) + NotClicked(nodes, cands[1..])
  }

  /** Set of distinct candidates that a scan counts. */
  ghost function FreshSet(nodes: seq<Node>, cands: seq<nat>): set<nat>
    requires InPage(nodes, cands)
  {
    set k | k in cands && Fresh(nodes[k])
  }

  /** Only the counted marker changes, and only towards "true". */
  ghost predicate OnlyCountedRaised(before: seq<Node>, after: seq<Node>) {
    |after| == |before| &&
    forall k :: 0 <= k < |before| ==>
      after[k].text == before[k].text && after[k].clicked == before[k].clicked &&
      after[k].writable == before[k].writable &&
      (after[k].counted == before[k].counted || after[k].counted == Some(MarkValue))
  }

  lemma NotClickedSameClicked(a: seq<Node>, b: seq<Node>, cands: seq<nat>)
    requires InPage(a, cands) && |a| == |b|
    requires forall k :: 0 <= k < |a| ==> a[k].clicked == b[k].clicked
    ensures NotClicked(a, cands) == NotClicked(b, cands)
  {
  }

  /** The scan's markers: only counted markers change, only to "true",
      so no control moves back and clicked controls are untouched. */
  lemma {:induction false} ScanRaisesOnlyCounted(nodes: seq<Node>, cands: seq<nat>)
    requires InPage(nodes, cands)
    ensures OnlyCountedRaised(nodes, ScanFrom(nodes, cands).nodes)
    ensures forall k :: 0 <= k < |nodes| ==>
      Rank(MarkerOf(nodes[k])) <= Rank(MarkerOf(ScanFrom(nodes, cands).nodes[k]))
    decreases |cands|
  {
    if |cands| > 0 {
      var i := cands[0];
      var n := nodes[i];
      if n.clicked == Some(MarkValue) || !(n.counted != Some(MarkValue) && n.writable) {
        ScanRaisesOnlyCounted(nodes, cands[1..]);
      } else {
        var nodes' := nodes[i := Marked(n, Counted)];
        ScanRaisesOnlyCounted(nodes', cands[1..]);
      }
    }
  }

  /** The available controls are exactly the candidates not marked clicked. */
  lemma {:induction false} ScanAvailableIsNotClicked(nodes: seq<Node>, cands: seq<nat>)
    requires InPage(nodes, cands)
    ensures ScanFrom(nodes, cands).available == NotClicked(nodes, cands)
    decreases |cands|
  {
    if |cands| > 0 {
      var i := cands[0];
      var n := nodes[i];
      if n.clicked == Some(MarkValue) || !(n.counted != Some(MarkValue) && n.writable) {
        ScanAvailableIsNotClicked(nodes, cands[1..]);
      } else {
        var nodes' := nodes[i := Marked(n, Counted)];
        ScanAvailableIsNotClicked(nodes', cands[1..]);
        NotClickedSameClicked(nodes, nodes', cands[1..]);
      }
    }
  }

  /** Each control is counted once however often it is listed: the number of
      newly counted controls is the number of distinct fresh candidates. */
  lemma {:induction false} ScanCountsFreshOnce(nodes: seq<Node>, cands: seq<nat>)
    requires InPage(nodes, cands)
    ensures ScanFrom(nodes, cands).newlyCounted == |FreshSet(nodes, cands)|
    decreases |cands|
  {
    if |cands| > 0 {
      var i := cands[0];
      var rest := cands[1..];
      InPageTail(nodes, nodes, cands);
      FreshSetSplit(nodes, cands);
      if !Fresh(nodes[i]) {
        ScanCountsFreshOnce(nodes, rest);
      } else {
        var nodes' := nodes[i := Marked(nodes[i], Counted)];
        InPageTail(nodes, nodes', cands);
        ScanCountsFreshOnce(nodes', rest);
        FreshSetAfterMark(nodes, i, rest);
        var tail' := FreshSet(nodes', rest);
        assert FreshSet(nodes, cands) == {i} + tail';
        assert i !in tail';
      }
    }
  }

  lemma FreshSetSplit(nodes: seq<Node>, cands: seq<nat>)
    requires InPage(nodes, cands) && |cands| > 0
    ensures InPage(nodes, cands[1..])
    ensures FreshSet(nodes, cands) ==
      (if Fresh(nodes[cands[0]]) then {cands[0]} else {}) + FreshSet(nodes, cands[1..])
  {
    InPageTail(nodes, nodes, cands);
    forall k: nat ensures k in FreshSet(nodes, cands) <==>
      k in (if Fresh(nodes[cands[0]]) then {cands[0]} else {}) + FreshSet(nodes, cands[1..])
    {
      assert k in cands <==> k == cands[0] || k in cands[1..];
    }
  }

  lemma FreshSetAfterMark(nodes: seq<Node>, i: nat, rest: seq<nat>)
    requires i < |nodes| && InPage(nodes, rest)
    ensures InPage(nodes[i := Marked(nodes[i], Counted)], rest)
    ensures nodes[i].writable ==>
      FreshSet(nodes[i := Marked(nodes[i], Counted)], rest) == FreshSet(nodes, rest) - {i}
  {
    var nodes' := nodes[i := Marked(nodes[i], Counted)];
    assert InPage(nodes', rest);
    if nodes[i].writable {
      forall k: nat ensures k in FreshSet(nodes', rest) <==> k in FreshSet(nodes, rest) - {i} {
        if k in rest && k != i {
          var j :| 0 <= j < |rest| && rest[j] == k;
          assert nodes'[k] == nodes[k];
        }
      }
    }
  }

  /** The nodes after the scan has looked at one candidate. */
  function StepNodes(nodes: seq<Node>, i: nat): (r: seq<Node>)
    requires i < |nodes|
    ensures |r| == |nodes|
  {
    var n := nodes[i];
    if n.clicked != Some(MarkValue) && n.counted != Some(MarkValue) && n.writable
    then nodes[i := Marked(n, Counted)] else nodes
  }

  /** One step of the scan, unfolded. */
  lemma ScanStep(nodes: seq<Node>, cands: seq<nat>)
    requires InPage(nodes, cands) && |cands| > 0
    ensures cands[0] < |nodes| && InPage(StepNodes(nodes, cands[0]), cands[1..])
    ensures var i := cands[0];
      var r := ScanFrom(StepNodes(nodes, i), cands[1..]);
      ScanFrom(nodes, cands) ==
        ScanResult(r.nodes,
                   (if nodes[i].clicked == Some(MarkValue) then [] else [i]) + r.available,
                   r.newlyCounted + (if Fresh(nodes[i]) then 1 else 0))
  {
    InPageTail(nodes, StepNodes(nodes, cands[0]), cands);
  }

  lemma InPageTail(nodes: seq<Node>, nodes': seq<Node>, cands: seq<nat>)
    requires InPage(nodes, cands) && |cands| > 0 && |nodes'| == |nodes|
    ensures cands[0] < |nodes| && InPage(nodes', cands[1..])
  {
    assert forall j :: 0 <= j < |cands[1..]| ==> cands[1..][j] == cands[j + 1];
  }

  /** After a scan every candidate is settled, and settled controls stay
      settled. */
  lemma {:induction false} ScanSettles(nodes: seq<Node>, cands: seq<nat>)
    requires InPage(nodes, cands)
    ensures forall k :: 0 <= k < |nodes| && (k in cands || Settled(nodes[k])) ==>
      Settled(ScanFrom(nodes, cands).nodes[k])
    decreases |cands|
  {
    if |cands| > 0 {
      var i := cands[0];
      var n := nodes[i];
      var rest := cands[1..];
      assert forall k :: k in cands <==> k == i || k in rest;
      if n.clicked == Some(MarkValue) || !(n.counted != Some(MarkValue) && n.writable) {
        ScanSettles(nodes, rest);
      } else {
        var nodes' := nodes[i := Marked(n, Counted)];
        ScanSettles(nodes', rest);
      }
    }
  }

  /** A scan over settled candidates changes nothing and counts nothing. */
  lemma {:induction false} ScanOfSettledIsQuiet(nodes: seq<Node>, cands: seq<nat>)
    requires InPage(nodes, cands)
    requires forall k :: k in cands ==> Settled(nodes[k])
    ensures ScanFrom(nodes, cands).nodes == nodes
    ensures ScanFrom(nodes, cands).newlyCounted == 0
    decreases |cands|
  {
    if |cands| > 0 {
      assert cands[0] in cands;
      ScanOfSettledIsQuiet(nodes, cands[1..]);
    }
  }

  /** Idempotent scan: scanning the same unchanged controls again changes no
      marker, counts nothing new and yields the same available controls. */
  lemma ScanIdempotent(nodes: seq<Node>, cands: seq<nat>)
    requires InPage(nodes, cands)
    ensures var r := ScanFrom(nodes, cands);
      InPage(r.nodes, cands) &&
      ScanFrom(r.nodes, cands) == ScanResult(r.nodes, r.available, 0)
  {
    var r := ScanFrom(nodes, cands);
    ScanSettles(nodes, cands);
    ScanOfSettledIsQuiet(r.nodes, cands);
    ScanAvailableIsNotClicked(nodes, cands);
    ScanAvailableIsNotClicked(r.nodes, cands);
    ScanRaisesOnlyCounted(nodes, cands);
    NotClickedSameClicked(nodes, r.nodes, cands);
  }

  /** The page as the bot sees it; the scan and the click marker update its
      nodes in place. */
  class Page {
    var nodes: seq<Node>

    constructor (nodes0: seq<Node>)
      ensures nodes == nodes0
    {
      nodes := nodes0;
    }

    /** Scrolling loads more rows below the ones already on the page. */
    method Load(more: seq<Node>)
      modifies this
      ensures nodes == old(nodes) + more
      ensures MarkersKept(old(nodes), nodes)
    {
      nodes := nodes + more;
    }

    /** `_mark_button_state(button, attr)`: no write when the attribute is
        already "true"; otherwise writes "true" if the page allows it. */
    method MarkButtonState(i: nat, a: Attr) returns (ok: bool)
      requires i < |nodes|
      modifies this
      ensures ok <==> AttrOf(old(nodes)[i], a) == Some(MarkValue) || old(nodes)[i].writable
      ensures AttrOf(old(nodes)[i], a) == Some(MarkValue) ==> nodes == old(nodes)
      ensures nodes == old(nodes)[i := Marked(old(nodes)[i], a)]
    {
      var current := AttrOf(nodes[i], a);
      if current == Some(MarkValue) {
        return true;
      }
      if nodes[i].writable {
        nodes := nodes[i := Marked(nodes[i], a)];
        return true;
      }
      return false;
    }

    /** The button scan: keep the found controls whose text contains
        "Send Proposal", drop the clicked ones, mark the rest counted, and
        report how many were newly marked. */
    method Scan(found: seq<nat>) returns (available: seq<nat>, newlyCounted: nat)
      modifies this
      ensures var cands := Candidates(old(nodes), found);
        InPage(old(nodes), cands) &&
        ScanResult(nodes, available, newlyCounted) == ScanFrom(old(nodes), cands)
      ensures OnlyCountedRaised(old(nodes), nodes)
      ensures available == NotClicked(old(nodes), Candidates(old(nodes), found))
      ensures newlyCounted == |FreshSet(old(nodes), Candidates(old(nodes), found))|
      ensures newlyCounted <= |available|
    {
      var cands := FilterCandidates(found);
      available, newlyCounted := MarkCandidates(cands);
    }

    /** The text filter of the scan: the found controls on the page whose
        text contains "Send Proposal", in order. */
    method FilterCandidates(found: seq<nat>) returns (cands: seq<nat>)
      ensures cands == Candidates(nodes, found)
      ensures InPage(nodes, cands)
    {
      cands := [];
      var j := 0;
      while j < |found|
        invariant 0 <= j <= |found|
        invariant cands == Candidates(nodes, found[..j])
      {
        assert found[..j + 1][..j] == found[..j];
        if found[j] < |nodes| && Contains(nodes[found[j]].text, ButtonText) {
          cands := cands + [found[j]];
        }
        j := j + 1;
      }
      assert found[..j] == found;
      assert InPage(nodes, cands) by {
        forall j' | 0 <= j' < |cands| ensures cands[j'] < |nodes| {
          assert cands[j'] in cands;
        }
      }
    }

    /** One candidate of the scan: a clicked control is dropped; any other
        is kept, and marked counted unless it already is. */
    method ScanOne(i: nat) returns (kept: bool, counted: bool)
      requires i < |nodes|
      modifies this
      ensures kept <==> old(nodes)[i].clicked != Some(MarkValue)
      ensures counted <==> Fresh(old(nodes)[i])
      ensures nodes == StepNodes(old(nodes), i)
    {
      if nodes[i].clicked == Some(MarkValue) {
        return false, false;
      }
      kept, counted := true, false;
      if nodes[i].counted != Some(MarkValue) {
        ghost var before := nodes;
        counted := MarkButtonState(i, Counted);
        assert !before[i].writable ==> nodes == before[i := before[i]] == before;
      }
    }

    /** The marking part of the scan over the candidates. */
    method MarkCandidates(cands: seq<nat>) returns (available: seq<nat>, newlyCounted: nat)
      requires InPage(nodes, cands)
      modifies this
      ensures ScanResult(nodes, available, newlyCounted) == ScanFrom(old(nodes), cands)
      ensures OnlyCountedRaised(old(nodes), nodes)
      ensures available == NotClicked(old(nodes), cands)
      ensures newlyCounted == |FreshSet(old(nodes), cands)|
      ensures newlyCounted <= |available|
    {
      ghost var start := nodes;
      available, newlyCounted := [], 0;
      var j := 0;
      while j < |cands|
        invariant 0 <= j <= |cands|
        invariant |nodes| == |start| && InPage(nodes, cands[j..])
        invariant var r := ScanFrom(nodes, cands[j..]);
          ScanFrom(start, cands) == ScanResult(r.nodes, available + r.available, newlyCounted + r.newlyCounted)
      {
        ghost var before := nodes;
        var i := cands[j];
        assert cands[j..][0] == i && cands[j..][1..] == cands[j + 1..];
        ScanStep(before, cands[j..]);
        var kept, counted := ScanOne(i);
        if kept {
          available := available + [i];
        }
        if counted {
          newlyCounted := newlyCounted + 1;
        }
        j := j + 1;
      }
      assert cands[j..] == [];
      ScanSummary(start, cands);
    }
  }

  /** What the partition loop leaves: only counted markers raised, the
      unclicked candidates available, the fresh ones counted once, and no
      more counted than available. */
  lemma ScanSummary(nodes: seq<Node>, cands: seq<nat>)
    requires InPage(nodes, cands)
    ensures var r := ScanFrom(nodes, cands);
      OnlyCountedRaised(nodes, r.nodes) && r.available == NotClicked(nodes, cands) &&
      r.newlyCounted == |FreshSet(nodes, cands)| && r.newlyCounted <= |r.available|
  {
    ScanRaisesOnlyCounted(nodes, cands);
    ScanAvailableIsNotClicked(nodes, cands);
    ScanCountsFreshOnce(nodes, cands);
    var available := NotClicked(nodes, cands);
    assert FreshSet(nodes, cands) <= Elems(available);
    SetOfSeqSize(available);
    SubsetSize(FreshSet(nodes, cands), Elems(available));
  }

  /** No marker written as "true" is lost, and the controls' texts and
      writability stay; new controls may appear after the old ones. */
  ghost predicate MarkersKept(before: seq<Node>, after: seq<Node>) {
    |before| <= |after| &&
    forall k :: 0 <= k < |before| ==>
      after[k].text == before[k].text && after[k].writable == before[k].writable &&
      (before[k].counted == Some(MarkValue) ==> after[k].counted == Some(MarkValue)) &&
      (before[k].clicked == Some(MarkValue) ==> after[k].clicked == Some(MarkValue))
  }

  /** Every control the scan leaves available is on the page. */
  lemma AvailableOnPage(nodes: seq<Node>, found: seq<nat>)
    ensures InPage(nodes, Candidates(nodes, found))
    ensures forall k :: k in NotClicked(nodes, Candidates(nodes, found)) ==> k < |nodes|
  {
    var cands := Candidates(nodes, found);
    forall j | 0 <= j < |cands| ensures cands[j] < |nodes| {
      assert cands[j] in cands;
    }
  }

  /** The scan writes only to its candidates: every other control is left
      exactly as it was. */
  lemma {:induction false} ScanTouchesOnlyCandidates(nodes: seq<Node>, cands: seq<nat>)
    requires InPage(nodes, cands)
    ensures forall k :: 0 <= k < |nodes| && k !in cands ==> ScanFrom(nodes, cands).nodes[k] == nodes[k]
    decreases |cands|
  {
    if |cands| > 0 {
      ScanStep(nodes, cands);
      var i := cands[0];
      ScanTouchesOnlyCandidates(StepNodes(nodes, i), cands[1..]);
      forall k | 0 <= k < |nodes| && k !in cands
        ensures ScanFrom(nodes, cands).nodes[k] == nodes[k]
      {
        assert k !in cands[1..] && k != i;
      }
    }
  }

  /** The scan keeps the texts the filter looks at, so the same lookup finds
      the same candidates afterwards. */
  lemma {:induction false} CandidatesKeptByScan(before: seq<Node>, after: seq<Node>, found: seq<nat>)
    requires OnlyCountedRaised(before, after)
    ensures Candidates(after, found) == Candidates(before, found)
    decreases |found|
  {
    if |found| > 0 {
      CandidatesKeptByScan(before, after, found[..|found| - 1]);
      var last := found[|found| - 1];
      assert IsCandidate(after, last) == IsCandidate(before, last);
    }
  }

  lemma MarkersKeptByScan(before: seq<Node>, after: seq<Node>)
    requires OnlyCountedRaised(before, after)
    ensures MarkersKept(before, after)
  {
  }

  lemma MarkersKeptByMark(nodes: seq<Node>, i: nat, a: Attr)
    requires i < |nodes|
    ensures MarkersKept(nodes, nodes[i := Marked(nodes[i], a)])
  {
  }

  lemma MarkersKeptTransitive(a: seq<Node>, b: seq<Node>, c: seq<Node>)
    requires MarkersKept(a, b) && MarkersKept(b, c)
    ensures MarkersKept(a, c)
  {
  }

  ghost function Elems(s: seq<nat>): set<nat> {
    set k | k in s
  }

  lemma {:induction false} SetOfSeqSize(s: seq<nat>)
    ensures |Elems(s)| <= |s|
  {
    if |s| > 0 {
      SetOfSeqSize(s[1..]);
      assert Elems(s) == {s[0]} + Elems(s[1..]) by {
        forall k ensures k in Elems(s) <==> k in {s[0]} + Elems(s[1..]) {
          assert k in s <==> k == s[0] || k in s[1..];
        }
      }
    } else {
      assert Elems(s) == {};
    }
  }

  lemma SubsetSize(a: set<nat>, b: set<nat>)
    requires a <= b
    ensures |a| <= |b|
  {
    assert b == a + (b - a);
  }
}
