/** How the bot classifies failures. Exceptions are modelled by their class and
    their message `str(e)`; every classification lower-cases the message and
    looks for fixed markers in it. */
module Errors {
  import opened Text

  /** The two revisions of the bot: `main_updated.py` (current) and `main.py`
      (earlier). Operations whose behaviour differs take the revision. */
  datatype Revision = Current | Earlier

  /** The exception classes `find_element(s)` name in their first `except`. */
  datatype ErrorKind = ElementNotFound | PageDisconnected | ContextLost | OtherError

  datatype Failure = Failure(kind: ErrorKind, msg: string)

  /** What a foreign DOM query did: answered, or raised. */
  datatype Query<T> = Answered(value: T) | Threw(failure: Failure)

  /** What a wrapped call gives its caller: a value, or an exception that
      propagates. */
  datatype Outcome<T> = Value(value: T) | Propagated(failure: Failure)

  /** The connection-loss markers: 'disconnect', 'context' or 'target closed'
      in the lower-cased message. */
  predicate IsTransient(msg: string) {
    var m := Lower(msg);
    Contains(m, "disconnect") || Contains(m, "context") || Contains(m, "target closed")
  }

  /** The per-button catch of the main loop also treats 'no such' as a sign
      that the page was refreshed. */
  predicate IsPageRefresh(msg: string) {
    IsTransient(msg) || Contains(Lower(msg), "no such")
  }

  /** A click failed because the element has no layout box. */
  predicate IsNoRect(msg: string) {
    Contains(Lower(msg), "norect") || Contains(Lower(msg), "没有位置")
  }

  /** Failures `find_element(s)` swallow: the three named classes, or any other
      exception whose message carries a connection-loss marker. */
  predicate Swallowed(f: Failure) {
    f.kind != OtherError || IsTransient(f.msg)
  }

  /** `BrowserManager.find_elements`: the helper's list (an absent list is
      already the empty list), the empty list for a swallowed failure, and
      otherwise the exception propagates. It never yields `None`. */
  function FindElements<T>(q: Query<seq<T>>): (r: Outcome<seq<T>>)
    ensures r.Propagated? <==> q.Threw? && q.failure.kind == OtherError && !IsTransient(q.failure.msg)
    ensures r.Propagated? ==> r.failure == q.failure
    ensures q.Answered? ==> r == Value(q.value)
    ensures q.Threw? && r.Value? ==> r.value == []
  {
    match q
    case Answered(xs) => Value(xs)
    case Threw(f) => if Swallowed(f) then Value([]) else Propagated(f)
  }

  /** `BrowserManager.find_element`: as `find_elements`, with "not found" as
      the absent element. */
  function FindElement<T>(q: Query<Option<T>>): (r: Outcome<Option<T>>)
    ensures r.Propagated? <==> q.Threw? && q.failure.kind == OtherError && !IsTransient(q.failure.msg)
    ensures r.Propagated? ==> r.failure == q.failure
    ensures q.Answered? ==> r == Value(q.value)
    ensures q.Threw? && r.Value? ==> r.value == None
  {
    match q
    case Answered(x) => Value(x)
    case Threw(f) => if Swallowed(f) then Value(None) else Propagated(f)
  }

  /** A failure that propagates out of `find_elements` is never a
      connection-loss failure: those are all swallowed. */
  lemma PropagatedIsNotTransient<T>(q: Query<seq<T>>)
    requires FindElements(q).Propagated?
    ensures !IsTransient(FindElements(q).failure.msg)
  {
  }

  /** The marker test is case-insensitive. */
  lemma {:induction false} TransientIgnoresCase(msg: string)
    ensures IsTransient(Lower(msg)) == IsTransient(msg)
  {
    LowerIdempotent(msg);
  }

  lemma LowerIdempotent(s: string)
    ensures Lower(Lower(s)) == Lower(s)
  {
    assert forall i :: 0 <= i < |s| ==> LowerChar(LowerChar(s[i])) == LowerChar(s[i]);
  }

  /** Lower-casing works character by character, so it distributes over
      concatenation. */
  lemma LowerConcat(a: string, b: string)
    ensures Lower(a + b) == Lower(a) + Lower(b)
  {
    assert forall i :: 0 <= i < |a + b| ==> (a + b)[i] == if i < |a| then a[i] else b[i - |a|];
  }

  /** A message carrying a marker, written in any case and with any text
      around it ("Page Disconnected", "Target closed."), is classified as
      connection loss. */
  lemma {:induction false} MarkerAnywhereIsTransient(pre: string, marker: string, post: string)
    requires Lower(marker) == "disconnect" || Lower(marker) == "context" || Lower(marker) == "target closed"
    ensures IsTransient(pre + marker + post)
  {
    LowerConcat(pre + marker, post);
    LowerConcat(pre, marker);
    var m := Lower(pre + marker + post);
    assert m == Lower(pre) + Lower(marker) + Lower(post);
    assert m[|pre|..|pre| + |marker|] == Lower(marker);
    assert OccursAt(m, Lower(marker), |pre|);
  }
}
