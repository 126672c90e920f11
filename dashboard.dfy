/**
 * The record logic of the project list (src/app/dashboard/page.tsx): the
 * search over name, project number and client, creating a project from the
 * dialog's form, and the empty-state text.
 */
module Dashboard {

  import opened Wrappers
  import opened Text
  import opened Lists
  import opened Search

  /** A project as the list reads it; `None` is a missing column. */
  datatype Project = Project(id: string, name: string, projectNumber: Option<string>, client: Option<string>)

  /** The test of `filteredProjects`; it has no empty-search shortcut. */
  predicate Matches(p: Project, search: string) {
    var query := ToLower(search);
    Contains(ToLower(p.name), query) || Mentions(p.projectNumber, query) || Mentions(p.client, query)
  }

  /** `filteredProjects`, in list order. */
  function Filtered(projects: seq<Project>, search: string): (r: seq<Project>)
    ensures forall p :: p in r <==> p in projects && Matches(p, search)
    ensures |r| <= |projects|
  {
    Filter(projects, p => Matches(p, search))
  }

  /** Every name contains the empty string, so an empty search keeps every project. */
  lemma EmptySearchKeepsAll(projects: seq<Project>)
    ensures Filtered(projects, "") == projects
  {
    forall p | p in projects ensures Matches(p, "") {
      ContainsEmpty(ToLower(p.name));
    }
    FilterAll(projects, p => Matches(p, ""));
  }

  /** A project without number or client is found by its name only. */
  lemma MissingFieldsNeverMatch(p: Project, search: string)
    requires p.projectNumber.None? && p.client.None?
    ensures Matches(p, search) <==> Contains(ToLower(p.name), ToLower(search))
  {
  }

  lemma SearchIgnoresCase(projects: seq<Project>, search: string)
    ensures Filtered(projects, ToLower(search)) == Filtered(projects, search)
  {
    LowerIdempotent(search);
    FilterSame(projects, p => Matches(p, ToLower(search)), p => Matches(p, search));
  }

  /** The new-project dialog's fields. */
  datatype NewProject = NewProject(name: string, projectNumber: string, address: string, client: string, description: string)

  const EmptyNewProject: NewProject := NewProject("", "", "", "", "")

  /** The page state `handleCreateProject` touches. */
  datatype Page = Page(projects: seq<Project>, form: NewProject, dialogOpen: bool, creating: bool)

  /** How the POST ends: the created project, a response that is not ok, or a thrown fetch. */
  datatype CreateOutcome = Created(project: Project) | NotOk | Threw

  /** The page after a create, and the form sent, if any. */
  datatype CreateStep = CreateStep(page: Page, sent: Option<NewProject>)

  /**
   * `handleCreateProject`: nothing happens for a name that is blank after
   * trimming; otherwise the form is posted, a created project goes first in
   * the list and the dialog closes with an emptied form, and `creating`
   * ends false whatever the outcome.
   */
  function Create(page: Page, outcome: CreateOutcome): (r: CreateStep)
    ensures Trim(page.form.name) == "" ==> r == CreateStep(page, None)
    ensures Trim(page.form.name) != "" ==> r.sent == Some(page.form) && !r.page.creating
    ensures Trim(page.form.name) != "" && outcome.Created? ==>
      r.page.projects == [outcome.project] + page.projects && r.page.form == EmptyNewProject && !r.page.dialogOpen
    ensures Trim(page.form.name) != "" && !outcome.Created? ==>
      r.page == page.(creating := false)
  {
    if Trim(page.form.name) == "" then CreateStep(page, None)
    else
      match outcome
      case Created(project) => CreateStep(Page([project] + page.projects, EmptyNewProject, false, false), Some(page.form))
      case _ => CreateStep(page.(creating := false), Some(page.form))
  }

  /** A created project that the current search matches is the first one shown. */
  lemma CreatedShownFirst(page: Page, project: Project, search: string)
    requires Trim(page.form.name) != "" && Matches(project, search)
    ensures var shown := Filtered(Create(page, Created(project)).page.projects, search);
      |shown| > 0 && shown[0] == project && shown[1..] == Filtered(page.projects, search)
  {
    FilterAppend([project], page.projects, p => Matches(p, search));
    assert Filter([project], p => Matches(p, search)) == [project] by {
      FilterAll([project], p => Matches(p, search));
    }
  }

  /** The empty-state heading, hint and whether the create button is offered. */
  datatype EmptyState = EmptyState(heading: string, hint: string, offersCreate: bool)

  /** The empty state depends only on whether a search is typed. */
  function EmptyStateFor(search: string): (e: EmptyState)
    ensures search != "" ==> e == EmptyState("Inga projekt hittades", "Försök med en annan sökning", false)
    ensures search == "" ==> e == EmptyState("Inga projekt ännu", "Skapa ditt första projekt för att komma igång", true)
  {
    if search != "" then EmptyState("Inga projekt hittades", "Försök med en annan sökning", false)
    else EmptyState("Inga projekt ännu", "Skapa ditt första projekt för att komma igång", true)
  }

  /** 'Inga projekt ännu' is shown only when there really are no projects. */
  lemma NoProjectsYetIsAccurate(projects: seq<Project>, search: string)
    requires Filtered(projects, search) == [] && EmptyStateFor(search).offersCreate
    ensures projects == []
  {
    EmptySearchKeepsAll(projects);
  }
}
