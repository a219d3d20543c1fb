/** The comment-template store of `TemplateManager`. The store is the record
    `{templates: [...], active_template_id}` that `load_all` returns; every
    operation loads it, changes it and saves it, and reports the result of the
    save. The two revisions differ in where a load looks first, and therefore
    in what a failed save leaves behind: the outcome of a save is a parameter,
    and `SaveSeen` and `AfterSave` say what the next load sees. */
module Templates {
  import opened Text
  import opened Errors

  /** How a `save_all` ends: the file is written, it cannot be opened for
      writing (it keeps its old text), or writing fails after opening it in
      `'w'` mode has truncated it, so that it no longer parses as JSON. */
  datatype SaveOutcome = Saved | NotOpened | Truncated

  /** Whether the next `load_all` sees the record just saved. `Current` hands
      the record to the shared manager before writing the file, and its
      `load_all` asks the manager first, so it always does; `Earlier` reads
      the file, so only a completed write counts. */
  predicate SaveSeen(rev: Revision, save: SaveOutcome)
  {
    rev.Current? || save.Saved?
  }

  /** The value of one field of the record at the next load: the value written
      when the save is seen, the default of `_default_data` when `Earlier`
      left a truncated file (`load_all` then fails to parse it and returns the
      defaults), and the previous value otherwise. */
  function AfterSave<T>(rev: Revision, save: SaveOutcome, before: T, written: T, default: T): (r: T)
    ensures SaveSeen(rev, save) ==> r == written
    ensures rev.Earlier? && save.NotOpened? ==> r == before
    ensures rev.Earlier? && save.Truncated? ==> r == default
  {
    if SaveSeen(rev, save) then written else if save.Truncated? then default else before
  }

  datatype Template = Template(id: int, name: string, content: string)

  /** Largest id of a non-empty list: `max(tpl['id'] for tpl in templates)`. */
  function MaxId(ts: seq<Template>): (m: int)
    requires |ts| > 0
    ensures exists i :: 0 <= i < |ts| && ts[i].id == m
    ensures forall i :: 0 <= i < |ts| ==> ts[i].id <= m
  {
    if |ts| == 1 then ts[0].id
    else
      var rest := MaxId(ts[1..]);
      if ts[0].id >= rest then ts[0].id else rest
  }

  /** `get_next_id`: 1 for an empty list, otherwise the largest id plus one. */
  function NextId(ts: seq<Template>): (r: int)
    ensures |ts| == 0 ==> r == 1
    ensures forall i :: 0 <= i < |ts| ==> ts[i].id < r
    ensures |ts| > 0 ==> exists i :: 0 <= i < |ts| && ts[i].id == r - 1
  {
    if |ts| == 0 then 1 else MaxId(ts) + 1
  }

  function DigitChar(d: nat): char
    requires d < 10
  {
    "0123456789"[d]
  }

  /** Python's `str(n)` for a natural number. */
  function NatToDecimal(n: nat): (s: string)
    ensures |s| > 0 && forall i :: 0 <= i < |s| ==> IsDigit(s[i])
    decreases n
  {
    if n < 10 then [DigitChar(n)] else NatToDecimal(n / 10) + [DigitChar(n % 10)]
  }

  /** Python's `str(i)` for an integer. */
  function IntToDecimal(i: int): string {
    if i < 0 then "-" + NatToDecimal(-i) else NatToDecimal(i)
  }

  /** The name `add_template` stores: `name or f"模板 {new_id}"`. */
  function StoredName(name: string, id: int): (r: string)
    ensures name != "" ==> r == name
    ensures r != ""
  {
    if name == "" then "模板 " + IntToDecimal(id) else name
  }

  /** All ids differ; `add_template` keeps this, because the new id is fresh. */
  ghost predicate UniqueIds(ts: seq<Template>) {
    forall i, j :: 0 <= i < j < |ts| ==> ts[i].id != ts[j].id
  }

  /** Position of the first template with the given id, as the `for tpl in ...`
      searches of the source find it. */
  function FirstWithId(ts: seq<Template>, id: Option<int>): (r: Option<nat>)
    ensures r.Some? ==> r.value < |ts| && Some(ts[r.value].id) == id
    ensures r.Some? ==> forall j :: 0 <= j < r.value ==> Some(ts[j].id) != id
    ensures r.None? ==> forall j :: 0 <= j < |ts| ==> Some(ts[j].id) != id
  {
    if |ts| == 0 then None
    else if Some(ts[0].id) == id then Some(0)
    else match FirstWithId(ts[1..], id)
      case None => None
      case Some(k) => Some(k + 1)
  }

  /** The text `get_active_template` returns: the active template's content,
      else the first template's, else the empty string. */
  function ActiveContent(ts: seq<Template>, active: Option<int>): string {
    match FirstWithId(ts, active)
    case Some(i) => ts[i].content
    case None => if |ts| > 0 then ts[0].content else ""
  }

  /** The list after `update_template`: only the first entry with the id changes,
      and only in the fields that were given. */
  function UpdatedList(ts: seq<Template>, id: int, name: Option<string>, content: Option<string>): seq<Template> {
    match FirstWithId(ts, Some(id))
    case None => ts
    case Some(i) =>
      ts[i := Template(ts[i].id,
                       if name.Some? then name.value else ts[i].name,
                       if content.Some? then content.value else ts[i].content)]
  }

  /** `[t for t in templates if t['id'] != id]`. */
  function Without(ts: seq<Template>, id: int): (r: seq<Template>)
    ensures |r| <= |ts|
    ensures forall t :: t in r <==> t in ts && t.id != id
  {
    if |ts| == 0 then []
    else if ts[0].id == id then Without(ts[1..], id)
    else [ts[0]] + Without(ts[1..], id)
  }

  /** Deleting keeps the order of the rest: the list splits as its parts do. */
  lemma {:induction false} WithoutConcat(a: seq<Template>, b: seq<Template>, id: int)
    ensures Without(a + b, id) == Without(a, id) + Without(b, id)
    decreases |a|
  {
    if |a| > 0 {
      assert (a + b)[0] == a[0] && (a + b)[1..] == a[1..] + b;
      WithoutConcat(a[1..], b, id);
      if a[0].id != id {
        assert [a[0]] + (Without(a[1..], id) + Without(b, id)) == ([a[0]] + Without(a[1..], id)) + Without(b, id);
      }
    } else {
      assert a + b == b;
    }
  }

  /** The first template left after deleting `id` is the first one in the
      list with another id: the one `delete_template` makes active when the
      deleted template was. */
  lemma {:induction false} WithoutFirstIsFirstOther(ts: seq<Template>, id: int, i: nat)
    requires i < |ts| && ts[i].id != id
    requires forall j :: 0 <= j < i ==> ts[j].id == id
    ensures |Without(ts, id)| > 0 && Without(ts, id)[0] == ts[i]
    decreases i
  {
    if i > 0 {
      WithoutFirstIsFirstOther(ts[1..], id, i - 1);
    }
  }

  lemma {:induction false} NextIdIsFresh(ts: seq<Template>, name: string, content: string)
    requires UniqueIds(ts)
    ensures UniqueIds(ts + [Template(NextId(ts), name, content)])
  {
    var n := NextId(ts);
    var ts' := ts + [Template(n, name, content)];
    forall i, j | 0 <= i < j < |ts'| ensures ts'[i].id != ts'[j].id {
      if j == |ts| {
        assert ts'[i] == ts[i];
      } else {
        assert ts'[i] == ts[i] && ts'[j] == ts[j];
      }
    }
  }

  /** The list keeps its length and its ids under `update_template`, and the
      entry that changed is the first one carrying the id. */
  lemma UpdatedListKeepsIds(ts: seq<Template>, id: int, name: Option<string>, content: Option<string>)
    ensures |UpdatedList(ts, id, name, content)| == |ts|
    ensures forall k :: 0 <= k < |ts| ==> UpdatedList(ts, id, name, content)[k].id == ts[k].id
    ensures FirstWithId(ts, Some(id)).None? ==> UpdatedList(ts, id, name, content) == ts
    ensures forall k :: 0 <= k < |ts| && Some(k) != FirstWithId(ts, Some(id)) ==>
      UpdatedList(ts, id, name, content)[k] == ts[k]
  {
  }

  /** Deleting an id that is present, from a list with unique ids, removes
      exactly one entry. */
  lemma {:induction false} WithoutPresentId(ts: seq<Template>, id: int)
    requires UniqueIds(ts)
    requires exists i :: 0 <= i < |ts| && ts[i].id == id
    ensures |Without(ts, id)| == |ts| - 1
  {
    if ts[0].id == id {
      WithoutAbsentId(ts[1..], id);
    } else {
      var i :| 0 <= i < |ts| && ts[i].id == id;
      assert ts[1..][i - 1].id == id;
      WithoutPresentId(ts[1..], id);
    }
  }

  lemma {:induction false} WithoutAbsentId(ts: seq<Template>, id: int)
    requires forall i :: 0 <= i < |ts| ==> ts[i].id != id
    ensures Without(ts, id) == ts
  {
    if |ts| > 0 {
      WithoutAbsentId(ts[1..], id);
    }
  }

  /** `set_active` does not check the id, so the active id may name no
      template; `get_active_template` then falls back to the first template. */
  lemma DanglingActiveFallsBack(ts: seq<Template>, id: int)
    requires |ts| > 0
    requires forall i :: 0 <= i < |ts| ==> ts[i].id != id
    ensures ActiveContent(ts, Some(id)) == ts[0].content
  {
  }

  /** The record as the next `load_all` of revision `rev` returns it. */
  class TemplateStore {
    const rev: Revision
    var templates: seq<Template>
    var activeId: Option<int>

    constructor (rev0: Revision, templates0: seq<Template>, active0: Option<int>)
      ensures rev == rev0 && templates == templates0 && activeId == active0
    {
      rev := rev0;
      templates := templates0;
      activeId := active0;
    }

    /** `get_active_template`. */
    method GetActiveTemplate() returns (content: string)
      ensures content == ActiveContent(templates, activeId)
      ensures (exists i :: 0 <= i < |templates| && Some(templates[i].id) == activeId) ==>
        exists i :: 0 <= i < |templates| && Some(templates[i].id) == activeId && content == templates[i].content
      ensures |templates| == 0 ==> content == ""
    {
      var i := 0;
      while i < |templates|
        invariant 0 <= i <= |templates|
        invariant forall j :: 0 <= j < i ==> Some(templates[j].id) != activeId
      {
        if Some(templates[i].id) == activeId {
          return templates[i].content;
        }
        i := i + 1;
      }
      if |templates| > 0 {
        return templates[0].content;
      }
      return "";
    }

    /** `get_active_template_info`: the first template whose id is the active
        id, or nothing. */
    method GetActiveTemplateInfo() returns (info: Option<Template>)
      ensures info.Some? <==> exists i :: 0 <= i < |templates| && Some(templates[i].id) == activeId
      ensures info.Some? ==> info.value in templates && Some(info.value.id) == activeId
      ensures info.Some? ==> info.value == templates[FirstWithId(templates, activeId).value]
    {
      var i := 0;
      while i < |templates|
        invariant 0 <= i <= |templates|
        invariant forall j :: 0 <= j < i ==> Some(templates[j].id) != activeId
      {
        if Some(templates[i].id) == activeId {
          return Some(templates[i]);
        }
        i := i + 1;
      }
      return None;
    }

    /** `add_template`: appends one entry with a fresh id and, when `activate`
        holds, makes it active; true exactly when the save succeeds. */
    method AddTemplate(name: string, content: string, activate: bool, save: SaveOutcome) returns (ok: bool)
      modifies this
      ensures ok == save.Saved?
      ensures var newId := NextId(old(templates));
        templates == AfterSave(rev, save, old(templates), old(templates) + [Template(newId, StoredName(name, newId), content)], [])
        && activeId == AfterSave(rev, save, old(activeId), if activate then Some(newId) else old(activeId), None)
      ensures UniqueIds(old(templates)) ==> UniqueIds(templates)
    {
      var newId := NextId(templates);
      var written := templates + [Template(newId, StoredName(name, newId), content)];
      if UniqueIds(templates) {
        NextIdIsFresh(templates, StoredName(name, newId), content);
      }
      var active := if activate then Some(newId) else activeId;
      templates := AfterSave(rev, save, templates, written, []);
      activeId := AfterSave(rev, save, activeId, active, None);
      ok := save.Saved?;
    }

    /** `update_template`: false, with no save, when no template has the id;
        otherwise the first such entry takes the given fields, the record is
        saved and the save result is returned. */
    method UpdateTemplate(id: int, name: Option<string>, content: Option<string>, save: SaveOutcome)
      returns (ok: bool)
      modifies this
      ensures ok <==> save.Saved? && exists i :: 0 <= i < |old(templates)| && old(templates)[i].id == id
      ensures (forall i :: 0 <= i < |old(templates)| ==> old(templates)[i].id != id) ==>
        templates == old(templates) && activeId == old(activeId)
      ensures (exists i :: 0 <= i < |old(templates)| && old(templates)[i].id == id) ==>
        templates == AfterSave(rev, save, old(templates), UpdatedList(old(templates), id, name, content), [])
        && activeId == AfterSave(rev, save, old(activeId), old(activeId), None)
    {
      var i := 0;
      while i < |templates|
        invariant 0 <= i <= |templates|
        invariant forall j :: 0 <= j < i ==> templates[j].id != id
      {
        if templates[i].id == id {
          assert FirstWithId(templates, Some(id)) == Some(i);
          var t := templates[i];
          if name.Some? {
            t := t.(name := name.value);
          }
          if content.Some? {
            t := t.(content := content.value);
          }
          templates := AfterSave(rev, save, templates, templates[i := t], []);
          activeId := AfterSave(rev, save, activeId, activeId, None);
          return save.Saved?;
        }
        i := i + 1;
      }
      return false;
    }

    /** `delete_template`: refuses, with no save, when at most one template is
        left; otherwise removes every entry with the id and, when the deleted
        id was active, activates the first remaining template, saves the
        record and returns the save result. */
    method DeleteTemplate(id: int, save: SaveOutcome) returns (ok: bool)
      modifies this
      ensures |old(templates)| <= 1 ==> !ok && templates == old(templates) && activeId == old(activeId)
      ensures |old(templates)| > 1 ==> ok == save.Saved?
      ensures |old(templates)| > 1 ==>
        var rest := Without(old(templates), id);
        templates == AfterSave(rev, save, old(templates), rest, [])
        && activeId == AfterSave(rev, save, old(activeId),
             if old(activeId) == Some(id) && |rest| > 0 then Some(rest[0].id) else old(activeId), None)
    {
      if |templates| <= 1 {
        return false;
      }
      var rest := Without(templates, id);
      var active := if activeId == Some(id) && |rest| > 0 then Some(rest[0].id) else activeId;
      templates := AfterSave(rev, save, templates, rest, []);
      activeId := AfterSave(rev, save, activeId, active, None);
      return save.Saved?;
    }

    /** `set_active`: records the id without checking it, saves the record
        and returns the save result. */
    method SetActive(id: int, save: SaveOutcome) returns (ok: bool)
      modifies this
      ensures ok == save.Saved?
      ensures templates == AfterSave(rev, save, old(templates), old(templates), [])
      ensures activeId == AfterSave(rev, save, old(activeId), Some(id), None)
    {
      templates := AfterSave(rev, save, templates, templates, []);
      activeId := AfterSave(rev, save, activeId, Some(id), None);
      return save.Saved?;
    }
  }
}
