/**
  The project list page: the stored projects and the form that creates a project or, after
  "edit" was pressed on one, updates it. The name and the date are required.
*/
module ProjectsList {
  import opened Grouping
  import opened Books

  /** `x || ""` on an optional text field: a missing value reads as "". */
  function OrEmpty(x: Option<string>): (r: string)
    ensures x.Some? ==> r == x.value
    ensures x.None? ==> r == ""
  {
    match x
    case Some(v) => v
    case None => ""
  }

  /** What the form holds when it is submitted. */
  datatype Form = Form(name: string, description: string, date: string, companyName: string, auditorName: string)

  /**
    The update branch of `handleSubmit`: the first project with id eid takes the form's
    fields and keeps its id and its seats; when there is no such project nothing changes.
  */
  function UpdateProject(projects: seq<Project>, eid: int, f: Form): seq<Project> {
    var i := FindProjectIndex(projects, eid);
    if i == -1 then projects
    else projects[i := projects[i].(name := f.name, description := f.description, date := f.date,
                                   companyName := Some(f.companyName), auditorName := Some(f.auditorName))]
  }

  /**
    Updating keeps the list's length, every other project and the updated project's id
    and seats; the updated project shows the form's fields.
  */
  lemma UpdateProjectSpec(projects: seq<Project>, eid: int, f: Form)
    ensures var r := UpdateProject(projects, eid, f);
            var i := FindProjectIndex(projects, eid);
            && |r| == |projects|
            && (forall j :: 0 <= j < |projects| && j != i ==> r[j] == projects[j])
            && (forall j :: 0 <= j < |projects| ==> r[j].id == projects[j].id && r[j].seats == projects[j].seats)
            && (i == -1 ==> r == projects)
            && (i != -1 ==> FormOf(r[i]) == f)
  {
  }

  /** The project a new submission appends: the form's fields, a fresh id and no seats. */
  function NewProject(newId: int, f: Form): Project {
    Project(newId, f.name, f.description, f.date, Some(f.companyName), Some(f.auditorName), [])
  }

  /** `handleEdit`: the form filled from a project, missing company or auditor names as "". */
  function FormOf(p: Project): (f: Form)
    ensures f.name == p.name && f.description == p.description && f.date == p.date
    ensures p.companyName.Some? ==> f.companyName == p.companyName.value
    ensures p.auditorName.Some? ==> f.auditorName == p.auditorName.value
    ensures p.companyName.None? ==> f.companyName == ""
    ensures p.auditorName.None? ==> f.auditorName == ""
  {
    Form(p.name, p.description, p.date, OrEmpty(p.companyName), OrEmpty(p.auditorName))
  }

  /**
    Editing a project and submitting the form unchanged gives the project back, except
    that a missing company or auditor name is now stored as "".
  */
  lemma EditSubmitRoundTrip(projects: seq<Project>, eid: int)
    requires FindProjectIndex(projects, eid) != -1
    ensures var i := FindProjectIndex(projects, eid);
            var p := projects[i];
            UpdateProject(projects, eid, FormOf(p))
              == projects[i := p.(companyName := Some(OrEmpty(p.companyName)), auditorName := Some(OrEmpty(p.auditorName)))]
    ensures var p := projects[FindProjectIndex(projects, eid)];
            p.companyName.Some? && p.auditorName.Some? ==> UpdateProject(projects, eid, FormOf(p)) == projects
  {
    var i := FindProjectIndex(projects, eid);
    var p := projects[i];
    if p.companyName.Some? && p.auditorName.Some? {
      assert p.(companyName := Some(OrEmpty(p.companyName)), auditorName := Some(OrEmpty(p.auditorName))) == p;
    }
  }

  /** The projects with the given id removed, the others kept in order. */
  function WithoutProject(projects: seq<Project>, projectId: int): seq<Project> {
    Filter(projects, (p: Project) => p.id != projectId)
  }

  /** Deleting removes every project with that id and keeps every other one, in order. */
  lemma WithoutProjectSpec(projects: seq<Project>, projectId: int, a: seq<Project>, b: seq<Project>)
    ensures forall p :: p in WithoutProject(projects, projectId) <==> p in projects && p.id != projectId
    ensures FindProjectIndex(WithoutProject(projects, projectId), projectId) == -1
    ensures WithoutProject(a + b, projectId) == WithoutProject(a, projectId) + WithoutProject(b, projectId)
  {
    var r := WithoutProject(projects, projectId);
    FilterSpec(projects, (p: Project) => p.id != projectId);
    FilterAppend(a, b, (p: Project) => p.id != projectId);
    assert forall j :: 0 <= j < |r| ==> r[j] in r;
  }

  /** The project list page with its form. */
  class ProjectsPage {
    var projects: seq<Project>
    var name: string
    var description: string
    var date: string
    var companyName: string
    var auditorName: string
    /** The id of the project being edited, or None while the form creates a new one. */
    var editingIndex: Option<int>

    function CurrentForm(): Form
      reads this
    {
      Form(name, description, date, companyName, auditorName)
    }

    /** Opening the page: the stored projects and an empty form. */
    constructor(storedProjects: seq<Project>)
      ensures projects == storedProjects
      ensures CurrentForm() == Form("", "", "", "", "") && editingIndex == None
    {
      projects := storedProjects;
      name, description, date, companyName, auditorName := "", "", "", "", "";
      editingIndex := None;
    }

    /**
      `handleSubmit`: without a name or a date nothing changes. Otherwise the project
      being edited is updated, or a new project with the given fresh id is appended;
      then the name, description and date are cleared and editing ends.
    */
    method HandleSubmit(newId: int) returns (accepted: bool)
      modifies this
      ensures accepted <==> old(name) != "" && old(date) != ""
      ensures !accepted ==> projects == old(projects) && CurrentForm() == old(CurrentForm()) && editingIndex == old(editingIndex)
      ensures accepted && old(editingIndex).Some? ==> projects == UpdateProject(old(projects), old(editingIndex).value, old(CurrentForm()))
      ensures accepted && old(editingIndex).None? ==> projects == old(projects) + [NewProject(newId, old(CurrentForm()))]
      ensures accepted ==> CurrentForm() == Form("", "", "", old(companyName), old(auditorName)) && editingIndex == None
    {
      if name == "" || date == "" {
        return false;
      }
      if editingIndex.Some? {
        var updatedProjects := projects;
        var indexToUpdate := FindProjectIndex(updatedProjects, editingIndex.value);
        if indexToUpdate != -1 {
          updatedProjects := updatedProjects[indexToUpdate := updatedProjects[indexToUpdate].(
            name := name, description := description, date := date,
            companyName := Some(companyName), auditorName := Some(auditorName))];
        }
        projects := updatedProjects;
        editingIndex := None;
      } else {
        var newProject := Project(newId, name, description, date, Some(companyName), Some(auditorName), []);
        projects := projects + [newProject];
      }
      name, description, date := "", "", "";
      return true;
    }

    /** `handleEdit`: the form shows the first project with that id, which becomes the one edited. */
    method HandleEdit(projectId: int)
      requires FindProjectIndex(projects, projectId) != -1
      modifies this
      ensures projects == old(projects)
      ensures CurrentForm() == FormOf(projects[FindProjectIndex(projects, projectId)])
      ensures editingIndex == Some(projectId)
    {
      var projectToEdit := projects[FindProjectIndex(projects, projectId)];
      name := projectToEdit.name;
      description := projectToEdit.description;
      date := projectToEdit.date;
      companyName := OrEmpty(projectToEdit.companyName);
      auditorName := OrEmpty(projectToEdit.auditorName);
      editingIndex := Some(projectId);
    }

    /** `handleDelete`: every project with that id goes. */
    method HandleDelete(projectId: int)
      modifies this
      ensures projects == WithoutProject(old(projects), projectId)
      ensures CurrentForm() == old(CurrentForm()) && editingIndex == old(editingIndex)
    {
      projects := WithoutProject(projects, projectId);
    }

    /**
      `handleImport`: the project read from the chosen file is appended; when no file was
      chosen or its text is not valid JSON (None), nothing changes.
    */
    method HandleImport(imported: Option<Project>)
      modifies this
      ensures imported.None? ==> projects == old(projects)
      ensures imported.Some? ==> projects == old(projects) + [imported.value]
      ensures CurrentForm() == old(CurrentForm()) && editingIndex == old(editingIndex)
    {
      if imported.Some? {
        projects := projects + [imported.value];
      }
    }
  }
}
