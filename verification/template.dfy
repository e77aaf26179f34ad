/**
 E-mail templates: the template record, its in-memory transitions
 (`Activate`, `Deactivate`), the per-project controller (`Get`, `GetActive`,
 `Add`, `CreateDefault`) and the row writes they make.
 */
module Template {
  import opened Rows
  import opened Faults

  /** One post item as the template sees it. */
  datatype DataItem = DataItem(title: string, link: string, content: string)

  /** The value a template is rendered with. */
  datatype Data = Data(title: string, unsubscribeLink: string, items: seq<DataItem>)

  datatype EmailTemplate = EmailTemplate(
    id: nat,
    projectId: int,
    name: string,
    isActive: bool,
    subject: string,
    content: string)

  /** The email_templates table; the row at index `i` has id `i`. */
  type Table = seq<EmailTemplate>

  ghost predicate WellFormed(table: Table)
  {
    forall i :: 0 <= i < |table| ==> table[i].id == i
  }

  /** `a` and `b` agree on everything but the active flag. */
  ghost predicate SameExceptActive(a: EmailTemplate, b: EmailTemplate)
  {
    a.id == b.id && a.projectId == b.projectId && a.name == b.name
    && a.subject == b.subject && a.content == b.content
  }

  /** One if the template is an active template of the project, else zero. */
  function Contribution(et: EmailTemplate, projectId: int): nat
  {
    if et.isActive && et.projectId == projectId then 1 else 0
  }

  /** Number of active templates of a project. */
  function ActiveCount(table: Table, projectId: int): (n: nat)
    ensures n <= |table|
    ensures n == 0 <==> forall i :: 0 <= i < |table| ==> !(table[i].isActive && table[i].projectId == projectId)
  {
    if |table| == 0 then 0
    else
      var last := table[|table| - 1];
      var front := table[..|table| - 1];
      assert forall i :: 0 <= i < |front| ==> front[i] == table[i];
      ActiveCount(front, projectId) + Contribution(last, projectId)
  }

  /** A fresh, inactive template. */
  function New(): (et: EmailTemplate)
    ensures !et.isActive
    ensures et.name == "" && et.subject == "" && et.content == ""
  {
    EmailTemplate(0, 0, "", false, "", "")
  }

  /** The row write of `Update`: name, is_active, subject and content of the row whose
      id is the template's; the id and the project of the row are not written. A
      missing row makes the write a no-op. */
  function UpdateRow(table: Table, et: EmailTemplate): (r: Table)
    ensures |r| == |table|
    ensures forall i :: 0 <= i < |table| && i != et.id ==> r[i] == table[i]
    ensures et.id < |table| ==>
      && r[et.id].id == table[et.id].id && r[et.id].projectId == table[et.id].projectId
      && r[et.id].name == et.name && r[et.id].isActive == et.isActive
      && r[et.id].subject == et.subject && r[et.id].content == et.content
  {
    if et.id < |table| then
      table[et.id := table[et.id].(name := et.name, isActive := et.isActive,
                                   subject := et.subject, content := et.content)]
    else table
  }

  /** The in-memory template after a transition, the table after its write,
      and whether the write succeeded. */
  datatype Saved = Saved(template: EmailTemplate, table: Table, ok: bool)

  /** Sets the flag in memory first, then persists it. */
  function SetActive(et: EmailTemplate, active: bool, table: Table, faults: Faults): (s: Saved)
    ensures s.template.isActive == active && SameExceptActive(s.template, et)
    ensures s.ok <==> UpdateTemplate(et.id, active) !in faults
    ensures s.ok ==> s.table == UpdateRow(table, s.template)
    ensures !s.ok ==> s.table == table
  {
    var changed := et.(isActive := active);
    if UpdateTemplate(et.id, active) in faults then Saved(changed, table, false)
    else Saved(changed, UpdateRow(table, changed), true)
  }

  function Activate(et: EmailTemplate, table: Table, faults: Faults): (s: Saved)
    ensures s.template.isActive && SameExceptActive(s.template, et)
    ensures s.ok <==> UpdateTemplate(et.id, true) !in faults
    ensures |s.table| == |table|
    ensures s.ok && et.id < |table| ==> s.table[et.id].isActive
  {
    SetActive(et, true, table, faults)
  }

  function Deactivate(et: EmailTemplate, table: Table, faults: Faults): (s: Saved)
    ensures !s.template.isActive && SameExceptActive(s.template, et)
    ensures s.ok <==> UpdateTemplate(et.id, false) !in faults
    ensures |s.table| == |table|
    ensures s.ok && et.id < |table| ==> !s.table[et.id].isActive
  {
    SetActive(et, false, table, faults)
  }

  /** Activating twice is activating once: the second call changes neither the
      in-memory template nor the table. */
  lemma ActivateIsIdempotent(et: EmailTemplate, table: Table, faults: Faults)
    requires UpdateTemplate(et.id, true) !in faults
    ensures var once := Activate(et, table, faults);
            var twice := Activate(once.template, once.table, faults);
            twice.template == once.template && twice.table == once.table
  {
    var once := Activate(et, table, faults);
    if et.id < |table| {
      assert once.table[et.id] == once.table[et.id].(name := et.name, isActive := true,
                                                     subject := et.subject, content := et.content);
    }
  }

  /** Renders with the `Subject` field of the template; the template engine is a
      parameter. The subject goes through the same engine as the body: it is the
      body of the template whose `Content` is the `Subject` text. */
  function RenderSubject(et: EmailTemplate, data: Data, render: (string, Data) -> Option<string>): (r: Option<string>)
    ensures r == RenderContent(et.(content := et.subject), data, render)
  {
    render(et.subject, data)
  }

  /** Renders with the `Content` field of the template: the engine's answer for
      that text alone, an error (`None`) included. */
  function RenderContent(et: EmailTemplate, data: Data, render: (string, Data) -> Option<string>): (r: Option<string>)
    ensures r == render(et.content, data)
  {
    render(et.content, data)
  }

  /** The subject depends on nothing but the `Subject` field, the body on nothing but
      the `Content` field. */
  lemma RenderSelectsItsField(a: EmailTemplate, b: EmailTemplate, data: Data, render: (string, Data) -> Option<string>)
    ensures a.subject == b.subject ==> RenderSubject(a, data, render) == RenderSubject(b, data, render)
    ensures a.content == b.content ==> RenderContent(a, data, render) == RenderContent(b, data, render)
  {
  }

  /** `Get(id)`: the row with that id, whatever project the controller is for. */
  function Get(table: Table, faults: Faults, projectId: int, id: int): (r: Lookup<EmailTemplate>)
    requires WellFormed(table)
    ensures r.LookupError? <==> GetTemplate(id) in faults
    ensures r.Found? <==> GetTemplate(id) !in faults && 0 <= id < |table|
    ensures r.Found? ==> r.value == table[id] && r.value.id == id
  {
    if GetTemplate(id) in faults then LookupError
    else if 0 <= id < |table| then Found(table[id])
    else Absent
  }

  function IsActiveIn(projectId: int): EmailTemplate -> bool
  {
    (et: EmailTemplate) => et.isActive && et.projectId == projectId
  }

  /** `GetActive`: the project's active template (the first such row), or an error
      when the query fails or there is none. It never answers "no row". */
  function GetActive(table: Table, faults: Faults, projectId: int): (r: Lookup<EmailTemplate>)
    requires WellFormed(table)
    ensures !r.Absent?
    ensures r.Found? ==> r.value.id < |table| && table[r.value.id] == r.value
    ensures r.Found? ==> r.value.isActive && r.value.projectId == projectId
    ensures r.Found? ==> forall j :: 0 <= j < r.value.id ==> !(table[j].isActive && table[j].projectId == projectId)
    ensures r.LookupError? <==> ActiveTemplate(projectId) in faults || ActiveCount(table, projectId) == 0
  {
    if ActiveTemplate(projectId) in faults then LookupError
    else match FirstWhere(table, IsActiveIn(projectId))
      case None => LookupError
      case Some(i) => Found(table[i])
  }

  /** The template the controller created (with its new id), and the table after the insert. */
  datatype Created = Created(template: EmailTemplate, table: Table) | CreateFailed

  /** `Add`: forces the controller's project onto the template and inserts it. The
      database assigns the next id and the inactive default. */
  function Add(table: Table, faults: Faults, projectId: int, et: EmailTemplate): (r: Created)
    requires WellFormed(table)
    ensures r.CreateFailed? <==> InsertTemplate(projectId) in faults
    ensures r.Created? ==> r.table == table + [r.template] && WellFormed(r.table)
    ensures r.Created? ==> r.template.projectId == projectId && !r.template.isActive
    ensures r.Created? ==> r.template.name == et.name && r.template.subject == et.subject
                           && r.template.content == et.content
  {
    var scoped := et.(projectId := projectId);
    if InsertTemplate(projectId) in faults then CreateFailed
    else
      var saved := scoped.(id := |table|, isActive := false);
      Created(saved, table + [saved])
  }

  /** The body of the default template. */
  const DefaultContent: string :=
    "<html>\n" +
    "\t\t       <head>\n" +
    "\t\t         <title>{{ .Title }}</title>\n" +
    "\t\t       </head>\n" +
    "\t\t       <body>\n" +
    "\t\t         <h1>\n" +
    "\t\t\t   {{ .Title }}\n" +
    "\t\t         </h1>\n" +
    "\t\t         <br>\n" +
    "\t\t\t {{ range .Items }}\n" +
    "\t\t\t <hr>\n" +
    "\t\t\t <a href=\"{{ .Link }}\">\n" +
    "\t\t\t   <h3>\n" +
    "\t\t\t     {{ .Title }}\n" +
    "\t\t\t   </h3>\n" +
    "\t\t\t </a>\n" +
    "\t\t\t <br>\n" +
    "\t\t\t <p>\n" +
    "\t\t\t   {{ .Content }}\n" +
    "\t\t\t </p>\n" +
    "\t\t\t {{ end }}\n" +
    "\t\t\t <br>\n" +
    "\t\t\t <br>\n" +
    "\t\t\t <br>\n" +
    "\t\t\t <p>\n" +
    "\t\t\t   This newsletter is powered by <a href=\"https://statictask.io\">statictask.io</a>.\n" +
    "\t\t\t </p>\n" +
    "\t\t\t <p>\n" +
    "\t\t\t   Don't want to receive this email anymore? <a href=\"{{ .UnsubscribeLink }}\">Unsubscribe</a>.\n" +
    "\t\t\t </p>\n" +
    "\t\t\t <br>\n" +
    "\t\t       </body>\n" +
    "\t\t     </html>\n" +
    "\t"

  const DefaultSubject: string := "[Newsletter] {{ .Title }}"

  /** `CreateDefault`: adds the default template to the project; it does not activate it. */
  function CreateDefault(table: Table, faults: Faults, projectId: int): (r: Created)
    requires WellFormed(table)
    ensures r.CreateFailed? <==> InsertTemplate(projectId) in faults
    ensures r.Created? ==> r.template.name == "Default" && r.template.subject == DefaultSubject
    ensures r.Created? ==> r.template.content == DefaultContent
    ensures r.Created? ==> r.template.projectId == projectId && !r.template.isActive
    ensures r.Created? ==> r.table == table + [r.template] && r.template.id == |table|
    ensures r.Created? ==> ActiveCount(r.table, projectId) == ActiveCount(table, projectId)
  {
    var et := New().(name := "Default", subject := DefaultSubject, content := DefaultContent);
    var r := Add(table, faults, projectId, et);
    if r.Created? then
      assert r.table[..|r.table| - 1] == table;
      r
    else r
  }
}
