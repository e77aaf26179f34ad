/**
 The `ActivateEmailTemplate` request: deactivate the project's current active
 template, then activate the requested one.
 */
module TemplateApi {
  import opened Rows
  import opened Faults
  import opened Template

  /** What the handler answered: an HTTP status code, or a panic (the Go HTTP
      server recovers it and drops the connection; writes already made stay). */
  datatype Reply = Status(code: int) | Panicked

  datatype Response = Response(reply: Reply, table: Table)

  /** The handler as written. The two path parameters arrive already parsed:
      `None` stands for a value `strconv.Atoi` rejects. `Get` answers "no row" for
      an unknown id without an error, and the handler goes on with a nil template. */
  function ActivateEmailTemplate(table: Table, faults: Faults, projectParam: Option<int>, templateParam: Option<int>): (r: Response)
    requires WellFormed(table)
    ensures |r.table| == |table| && WellFormed(r.table)
    ensures projectParam.None? || templateParam.None? ==> r == Response(Status(400), table)
    ensures projectParam.Some? && templateParam.Some? && GetTemplate(templateParam.value) in faults
            ==> r == Response(Status(400), table)
    ensures projectParam.Some? && templateParam.Some? && GetTemplate(templateParam.value) !in faults
            && (ActiveTemplate(projectParam.value) in faults || ActiveCount(table, projectParam.value) == 0)
            ==> r == Response(Status(500), table)
    // the deactivating write fails: 500, nothing written
    ensures projectParam.Some? && templateParam.Some? && GetTemplate(templateParam.value) !in faults
            && GetActive(table, faults, projectParam.value).Found?
            && UpdateTemplate(GetActive(table, faults, projectParam.value).value.id, false) in faults
            ==> r == Response(Status(500), table)
    // the activating write fails: 500, but the current template stays deactivated
    ensures projectParam.Some? && templateParam.Some? && GetTemplate(templateParam.value) !in faults
            && 0 <= templateParam.value < |table|
            && GetActive(table, faults, projectParam.value).Found?
            && UpdateTemplate(GetActive(table, faults, projectParam.value).value.id, false) !in faults
            && UpdateTemplate(templateParam.value, true) in faults
            ==> r.reply == Status(500) && !r.table[GetActive(table, faults, projectParam.value).value.id].isActive
    ensures r.reply == Status(200) ==>
              templateParam.Some? && 0 <= templateParam.value < |table| && r.table[templateParam.value].isActive
    ensures r.reply == Status(200) ==>
              forall j :: 0 <= j < |table| ==> r.table[j].projectId == table[j].projectId
  {
    if projectParam.None? || templateParam.None? then Response(Status(400), table)
    else
      var projectId := projectParam.value;
      var id := templateParam.value;
      var target := Get(table, faults, projectId, id);
      if target.LookupError? then Response(Status(400), table)
      else
        match GetActive(table, faults, projectId)
        case Found(current) =>
          var off := Deactivate(current, table, faults);
          if !off.ok then Response(Status(500), off.table)
          else if target.Absent? then Response(Panicked, off.table)
          else
            var on := Activate(target.value, off.table, faults);
            if !on.ok then Response(Status(500), on.table)
            else Response(Status(200), on.table)
        case _ => Response(Status(500), table)
  }

  /** The handler as evidently intended: an unknown template id is a bad request
      answered before anything is written. */
  function ActivateEmailTemplateChecked(table: Table, faults: Faults, projectParam: Option<int>, templateParam: Option<int>): (r: Response)
    requires WellFormed(table)
    ensures r.reply != Panicked
    ensures projectParam.Some? && templateParam.Some? && GetTemplate(templateParam.value) !in faults
            && !(0 <= templateParam.value < |table|)
            ==> r == Response(Status(400), table)
    ensures projectParam.Some? && templateParam.Some? && 0 <= templateParam.value < |table|
            ==> r == ActivateEmailTemplate(table, faults, projectParam, templateParam)
  {
    if projectParam.Some? && templateParam.Some?
       && Get(table, faults, projectParam.value, templateParam.value).Absent?
    then Response(Status(400), table)
    else ActivateEmailTemplate(table, faults, projectParam, templateParam)
  }

  /** How many templates of `projectId` are active changes only by what the
      overwritten row contributes. */
  lemma {:induction false} ActiveCountAfterWrite(table: Table, i: nat, row: EmailTemplate, projectId: int)
    requires i < |table|
    ensures ActiveCount(table[i := row], projectId)
            == ActiveCount(table, projectId) - Contribution(table[i], projectId) + Contribution(row, projectId)
  {
    var n := |table|;
    var t := table[i := row];
    var front := table[..n - 1];
    assert ActiveCount(table, projectId) == ActiveCount(front, projectId) + Contribution(table[n - 1], projectId);
    assert ActiveCount(t, projectId) == ActiveCount(t[..n - 1], projectId) + Contribution(t[n - 1], projectId);
    if i == n - 1 {
      assert t[..n - 1] == front;
    } else {
      assert t[..n - 1] == front[i := row];
      assert t[n - 1] == table[n - 1];
      ActiveCountAfterWrite(front, i, row, projectId);
    }
  }

  /** With exactly one active template in the project, the only active template
      is the one `GetActive` returns. */
  lemma {:induction false} SingleActiveIsTheOneFound(table: Table, projectId: int, k: nat, j: nat)
    requires ActiveCount(table, projectId) == 1
    requires k < |table| && table[k].isActive && table[k].projectId == projectId
    requires j < |table| && table[j].isActive && table[j].projectId == projectId
    ensures j == k
  {
    var t := table[k := table[k].(isActive := false)];
    assert j == k || t[j] == table[j];
    ActiveCountAfterWrite(table, k, t[k], projectId);
  }

  /** Starting from exactly one active template, activating a template of the same
      project without a store error answers 200 and leaves exactly one active
      template, the requested one, even when it was already the active one. */
  lemma KeepsExactlyOneActive(table: Table, faults: Faults, projectId: int, id: nat)
    requires WellFormed(table)
    requires ActiveCount(table, projectId) == 1
    requires id < |table| && table[id].projectId == projectId
    requires GetTemplate(id) !in faults && ActiveTemplate(projectId) !in faults
    requires forall j :: 0 <= j < |table| ==> UpdateTemplate(j, false) !in faults && UpdateTemplate(j, true) !in faults
    ensures var r := ActivateEmailTemplate(table, faults, Some(projectId), Some(id));
            && r.reply == Status(200)
            && ActiveCount(r.table, projectId) == 1
            && r.table[id].isActive
            && forall j :: 0 <= j < |r.table| && r.table[j].isActive && r.table[j].projectId == projectId ==> j == id
  {
    var current := GetActive(table, faults, projectId).value;
    var c := current.id;
    var off := Deactivate(current, table, faults);
    var target := table[id];
    var on := Activate(target, off.table, faults);
    ActiveCountAfterWrite(table, c, off.table[c], projectId);
    assert off.table == table[c := off.table[c]];
    assert ActiveCount(off.table, projectId) == 0;
    ActiveCountAfterWrite(off.table, id, on.table[id], projectId);
    assert on.table == off.table[id := on.table[id]];
    assert ActiveCount(on.table, projectId) == 1;
    assert on.table[id].isActive && on.table[id].projectId == projectId;
    forall j | 0 <= j < |on.table| && on.table[j].isActive && on.table[j].projectId == projectId
      ensures j == id
    {
      SingleActiveIsTheOneFound(on.table, projectId, id, j);
    }
  }

  /** Starting from exactly one active template, a failing activating write
      answers 500 after the deactivating write went through: the project is left
      with no active template at all. */
  lemma FailedActivationLeavesNoActiveTemplate(table: Table, faults: Faults, projectId: int, id: nat)
    requires WellFormed(table)
    requires ActiveCount(table, projectId) == 1
    requires id < |table|
    requires GetTemplate(id) !in faults && ActiveTemplate(projectId) !in faults
    requires forall j :: 0 <= j < |table| ==> UpdateTemplate(j, false) !in faults
    requires UpdateTemplate(id, true) in faults
    ensures var r := ActivateEmailTemplate(table, faults, Some(projectId), Some(id));
            && r.reply == Status(500)
            && ActiveCount(r.table, projectId) == 0
  {
    var current := GetActive(table, faults, projectId).value;
    var c := current.id;
    var off := Deactivate(current, table, faults);
    ActiveCountAfterWrite(table, c, off.table[c], projectId);
    assert off.table == table[c := off.table[c]];
    assert ActiveCount(off.table, projectId) == 0;
  }

  /** The handler as written: with an unknown template id, the current active
      template is deactivated and the handler then panics on the nil template, so
      the project is left with no active template. */
  lemma UnknownTargetLeavesNoActiveTemplate()
    ensures var table := [EmailTemplate(0, 7, "Default", true, "", "")];
            var r := ActivateEmailTemplate(table, {}, Some(7), Some(5));
            r.reply == Panicked && ActiveCount(r.table, 7) == 0 && ActiveCount(table, 7) == 1
  {
    var table := [EmailTemplate(0, 7, "Default", true, "", "")];
    assert Get(table, {}, 7, 5) == Absent;
    assert GetActive(table, {}, 7) == Found(table[0]);
    var off := Deactivate(table[0], table, {});
    assert off.ok && !off.table[0].isActive;
    assert ActivateEmailTemplate(table, {}, Some(7), Some(5)) == Response(Panicked, off.table);
    assert ActiveCount(off.table, 7) == 0;
  }

  /** The intended handler on the same request: 400, nothing written. */
  lemma UnknownTargetIsRejectedWhenChecked(table: Table, faults: Faults, projectId: int, id: int)
    requires WellFormed(table)
    requires GetTemplate(id) !in faults && !(0 <= id < |table|)
    ensures ActivateEmailTemplateChecked(table, faults, Some(projectId), Some(id)) == Response(Status(400), table)
  {
  }
}
