/** Character and string rules shared by the model: Python's `str.strip`,
    `str.lower`, `in` on strings, `replace(" ", "")` and the two
    regular-expression rewrites the bot applies to labels. Whitespace is the
    ASCII part of Python's `\s`; lower-casing is the ASCII part of `str.lower`. */
module Text {

  datatype Option<T> = None | Some(value: T)

  predicate IsSpace(c: char) {
    c == ' ' || (9 <= c as int <= 13) || (28 <= c as int <= 31)
  }

  predicate IsDigit(c: char) {
    '0' <= c <= '9'
  }

  function LowerChar(c: char): char {
    if 'A' <= c <= 'Z' then (c as int + 32) as char else c
  }

  /** `s.lower()` restricted to ASCII letters. */
  function Lower(s: string): (r: string)
    ensures |r| == |s|
  {
    seq(|s|, i requires 0 <= i < |s| => LowerChar(s[i]))
  }

  /** Position of the first true entry. */
  function FirstTrue(bs: seq<bool>): (r: Option<nat>)
    ensures r.Some? ==> r.value < |bs| && bs[r.value]
    ensures r.Some? ==> forall j :: 0 <= j < r.value ==> !bs[j]
    ensures r.None? ==> forall j :: 0 <= j < |bs| ==> !bs[j]
  {
    if |bs| == 0 then None
    else if bs[0] then Some(0)
    else match FirstTrue(bs[1..])
      case None => None
      case Some(k) => Some(k + 1)
  }

  /** `sub` occurs in `s` starting at position `i`. */
  predicate OccursAt(s: string, sub: string, i: int) {
    0 <= i <= |s| - |sub| && s[i..i + |sub|] == sub
  }

  /** Python's `sub in s`. */
  predicate Contains(s: string, sub: string) {
    exists i :: 0 <= i <= |s| - |sub| && OccursAt(s, sub, i)
  }

  lemma ContainsSelf(s: string)
    ensures Contains(s, s)
  {
    assert OccursAt(s, s, 0);
  }

  lemma ContainsEmpty(s: string)
    ensures Contains(s, "")
  {
    assert OccursAt(s, "", 0);
  }

  /** Python's `s.rstrip()` (the right half of `strip`). */
  function TrimEnd(s: string): (r: string)
    ensures |r| <= |s|
    decreases |s|
  {
    if |s| > 0 && IsSpace(s[|s| - 1]) then TrimEnd(s[..|s| - 1]) else s
  }

  /** Python's `s.lstrip()` (the left half of `strip`). */
  function TrimStart(s: string): (r: string)
    ensures |r| <= |s|
    decreases |s|
  {
    if |s| > 0 && IsSpace(s[0]) then TrimStart(s[1..]) else s
  }

  /** `rstrip` keeps a prefix that ends in a non-space and removes only
      whitespace. */
  lemma {:induction false} TrimEndFacts(s: string)
    ensures var r := TrimEnd(s);
      r == s[..|r|] && (|r| > 0 ==> !IsSpace(r[|r| - 1])) &&
      forall i :: |r| <= i < |s| ==> IsSpace(s[i])
    decreases |s|
  {
    if |s| > 0 && IsSpace(s[|s| - 1]) {
      var p := s[..|s| - 1];
      TrimEndFacts(p);
      var r := TrimEnd(s);
      assert r == TrimEnd(p);
      assert p[..|r|] == s[..|r|];
      forall i | |r| <= i < |s| ensures IsSpace(s[i]) {
        if i < |p| { assert s[i] == p[i]; }
      }
    }
  }

  /** `lstrip` keeps a suffix that starts with a non-space and removes only
      whitespace. */
  lemma {:induction false} TrimStartFacts(s: string)
    ensures var r := TrimStart(s);
      r == s[|s| - |r|..] && (|r| > 0 ==> !IsSpace(r[0])) &&
      forall i :: 0 <= i < |s| - |r| ==> IsSpace(s[i])
    decreases |s|
  {
    if |s| > 0 && IsSpace(s[0]) {
      var p := s[1..];
      TrimStartFacts(p);
      var r := TrimStart(s);
      assert r == TrimStart(p);
      assert p[|p| - |r|..] == s[|s| - |r|..];
      forall i | 0 <= i < |s| - |r| ensures IsSpace(s[i]) {
        if i > 0 { assert s[i] == p[i - 1]; }
      }
    }
  }

  /** Python's `s.strip()`. */
  function Strip(s: string): string {
    TrimStart(TrimEnd(s))
  }

  /** Python's `s.replace(" ", "")`: only the plain space is removed. */
  function RemoveSpaces(s: string): (r: string)
    ensures ' ' !in r
    ensures |r| <= |s|
    decreases |s|
  {
    if |s| == 0 then ""
    else if s[0] == ' ' then RemoveSpaces(s[1..])
    else [s[0]] + RemoveSpaces(s[1..])
  }

  /** `re.sub(r'\s+', ' ', s)`: every maximal run of whitespace becomes one space. */
  function CollapseWs(s: string): (r: string)
    ensures |r| <= |s|
    decreases |s|
  {
    if |s| == 0 then ""
    else if IsSpace(s[0]) then [' '] + CollapseWs(TrimStart(s))
    else [s[0]] + CollapseWs(s[1..])
  }

  /** After `CollapseWs` the only whitespace is the plain space, no two
      spaces are adjacent, and the first character keeps its kind. */
  lemma {:induction false} CollapseWsSpacing(s: string)
    ensures var r := CollapseWs(s);
      (forall i :: 0 <= i < |r| && IsSpace(r[i]) ==> r[i] == ' ') &&
      (forall i :: 0 <= i < |r| - 1 && r[i] == ' ' ==> r[i + 1] != ' ') &&
      (|s| > 0 ==> |r| > 0 && (IsSpace(r[0]) <==> IsSpace(s[0])))
    decreases |s|
  {
    if |s| > 0 {
      var rest := if IsSpace(s[0]) then TrimStart(s) else s[1..];
      var head := if IsSpace(s[0]) then ' ' else s[0];
      CollapseWsSpacing(rest);
      TrimStartFacts(s);
      var r := CollapseWs(s);
      var rr := CollapseWs(rest);
      assert r == [head] + rr;
      assert IsSpace(s[0]) && |rest| > 0 ==> !IsSpace(rest[0]);
      forall i | 0 <= i < |r| && IsSpace(r[i]) ensures r[i] == ' ' {
        if i > 0 { assert r[i] == rr[i - 1]; }
      }
      forall i | 0 <= i < |r| - 1 && r[i] == ' ' ensures r[i + 1] != ' ' {
        assert r[i + 1] == rr[i];
        if i > 0 { assert r[i] == rr[i - 1]; }
      }
    }
  }
}
