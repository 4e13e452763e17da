/** What each request writes, column by column: who is refused, the row, the audit entry and the event
    of an accepted request, and what a deletion takes along. */
module TenantRows {
  import opened Wrappers
  import opened Text
  import opened Tenants

  /** Another project of the organization has this name already. */
  ghost predicate Duplicate(s: Store, org: OrgId, id: Id, name: Option<string>) {
    exists p :: p in s.projects && p != id && s.projects[p].organization == org && s.projects[p].name == name
  }

  /** `r` is `s` from i to j, all before and after it is white space, and its ends are not. */
  ghost predicate Trims(s: string, r: string, i: nat, j: nat) {
    && i <= j <= |s| && r == s[i..j]
    && (forall k :: 0 <= k < i || j <= k < |s| ==> IsSpace(s[k]))
    && (i < j ==> !IsSpace(s[i]) && !IsSpace(s[j - 1]))
  }

  /** `str.strip()`: nothing but white space goes, from both ends, and none is left there. */
  lemma {:induction false} StripMeaning(s: string) returns (i: nat, j: nat)
    ensures Trims(s, Strip(s), i, j)
    decreases |s|
  {
    hide IsSpace, Strip, Trims;
    StripStep(s);
    if s != "" && IsSpace(s[0]) {
      var k, l := StripMeaning(s[1..]);
      i, j := k + 1, l + 1;
      TrimsFront(s, Strip(s), k, l);
    } else if s != "" && IsSpace(s[|s| - 1]) {
      i, j := StripMeaning(s[..|s| - 1]);
      TrimsBack(s, Strip(s), i, j);
    } else {
      i, j := 0, |s|;
      TrimsNothing(s);
    }
  }

  lemma StripStep(s: string)
    ensures Strip(s) == if s == "" then ""
                        else if IsSpace(s[0]) then Strip(s[1..])
                        else if IsSpace(s[|s| - 1]) then Strip(s[..|s| - 1])
                        else s
  {
  }

  lemma TrimsNothing(s: string)
    requires s != "" ==> !IsSpace(s[0]) && !IsSpace(s[|s| - 1])
    ensures Trims(s, s, 0, |s|)
  {
    hide IsSpace;
  }

  lemma TrimsFront(s: string, r: string, i: nat, j: nat)
    requires s != "" && IsSpace(s[0]) && Trims(s[1..], r, i, j)
    ensures Trims(s, r, i + 1, j + 1)
  {
    hide IsSpace;
    assert forall k :: 0 < k < |s| ==> s[k] == s[1..][k - 1];
  }

  lemma TrimsBack(s: string, r: string, i: nat, j: nat)
    requires s != "" && IsSpace(s[|s| - 1]) && Trims(s[..|s| - 1], r, i, j)
    ensures Trims(s, r, i, j)
  {
    hide IsSpace;
    assert s[i..j] == s[..|s| - 1][i..j];
  }

  // ------------------------------------------------- projects

  /** A project is created unless its stripped name is taken. */
  lemma ProjectCreation(s: Store, org: OrgId, user: User, id: Id, name: string, about: Option<string>)
    ensures var (after, response) := Serve(s, Request(org, user, CreateProject(id, name, about)));
            var project := Project(org, Some(Strip(name)), about, Some("active"), user);
            if Duplicate(s, org, id, Some(Strip(name))) then after == s && response == Failed(IntegrityError)
            else
              && response == ProjectIs(id, project)
              && after == Store(s.members, s.projects[id := project], s.tasks, s.attachments,
                   s.audits + [Audit(org, user, "project.created", "project", id, map[])],
                   s.events + [Emitted(org, "project.created",
                                       map["project_id" := IdOf(id), "name" := TextOf(Some(Strip(name)))])])
  {
    hide Strip;
  }

  /** The last change that names a column decides it; columns that no change names stay. */
  lemma {:induction false} PatchedProjectColumns(p: Project, cs: seq<ProjectChange>, i: nat)
    ensures var q := PatchedProject(p, cs);
            && q.organization == p.organization && q.createdBy == p.createdBy
            && ((forall j :: 0 <= j < |cs| ==> !cs[j].Name?) ==> q.name == p.name)
            && ((forall j :: 0 <= j < |cs| ==> !cs[j].About?) ==> q.description == p.description)
            && ((forall j :: 0 <= j < |cs| ==> !cs[j].Standing?) ==> q.status == p.status)
            && (i < |cs| ==>
                  match cs[i]
                  case Name(name) => (forall j :: i < j < |cs| ==> !cs[j].Name?) ==> q.name == name
                  case About(about) => (forall j :: i < j < |cs| ==> !cs[j].About?) ==> q.description == about
                  case Standing(standing) => (forall j :: i < j < |cs| ==> !cs[j].Standing?) ==> q.status == standing)
    decreases |cs|
  {
    if cs != [] {
      PatchedProjectColumns(p, cs[..|cs| - 1], i);
    }
  }

  /** A project of the organization is updated unless a required column would be null or its name is taken. */
  lemma ProjectUpdate(s: Store, org: OrgId, user: User, id: Id, changes: seq<ProjectChange>)
    ensures var (after, response) := Serve(s, Request(org, user, UpdateProject(id, changes)));
            if id !in s.projects || s.projects[id].organization != org then
              after == s && response == Failed(ProjectNotFound)
            else
              var project := PatchedProject(s.projects[id], changes);
              if project.name.None? || project.status.None? || Duplicate(s, org, id, project.name) then
                after == s && response == Failed(IntegrityError)
              else
                && response == ProjectIs(id, project)
                && after == Store(s.members, s.projects[id := project], s.tasks, s.attachments,
                     s.audits + [Audit(org, user, "project.updated", "project", id, map[])],
                     s.events + [Emitted(org, "project.updated",
                                         map["project_id" := IdOf(id), "status" := TextOf(project.status)])])
  {
    hide PatchedProject;
  }

  /** A task that goes with its project. */
  predicate InProjectOf(s: Store, org: OrgId, project: Id, task: Id) {
    task in s.tasks && s.tasks[task].organization == org && s.tasks[task].project == project
  }

  /** A deleted project takes its tasks along, and their and its own attachments; nothing else goes. */
  lemma ProjectDeletion(s: Store, org: OrgId, user: User, id: Id)
    ensures var (after, response) := Serve(s, Request(org, user, DeleteProject(id)));
            if id !in s.projects || s.projects[id].organization != org then
              after == s && response == Failed(ProjectNotFound)
            else
              var name := TextOf(s.projects[id].name);
              && response == NoContent && after.members == s.members && after.projects == s.projects - {id}
              && (forall t :: t in after.tasks <==> t in s.tasks && !InProjectOf(s, org, id, t))
              && (forall t :: t in after.tasks ==> after.tasks[t] == s.tasks[t])
              && (forall a :: a in after.attachments <==>
                    && a in s.attachments
                    && !(&& s.attachments[a].organization == org
                         && (|| s.attachments[a].parent == InProject(id)
                             || (&& s.attachments[a].parent.InTask?
                                 && InProjectOf(s, org, id, s.attachments[a].parent.id)))))
              && (forall a :: a in after.attachments ==> after.attachments[a] == s.attachments[a])
              && after.audits == s.audits + [Audit(org, user, "project.deleted", "project", id, map["name" := name])]
              && after.events ==
                   s.events + [Emitted(org, "project.deleted", map["project_id" := IdOf(id), "name" := name])]
  {
    forall t
      ensures TaskOf(s, org, id, t) == InProjectOf(s, org, id, t)
    {
    }
  }

  // ------------------------------------------------- tasks

  /** A task is created in a project of the organization and for a member of it, or for nobody. */
  lemma TaskCreation(s: Store, org: OrgId, user: User, id: Id, project: Id, title: string, details: Option<string>,
                     priority: string, assignee: Option<User>, dueAt: Option<int>)
    ensures var create := CreateTask(id, project, title, details, priority, assignee, dueAt);
            var (after, response) := Serve(s, Request(org, user, create));
            if project !in s.projects || s.projects[project].organization != org then
              after == s && response == Failed(ProjectNotFound)
            else if assignee.Some? && (org, assignee.value) !in s.members then
              after == s && response == Failed(InvalidAssignee)
            else
              var task := Task(org, project, Some(Strip(title)), details, Some("todo"), Some(priority), assignee, dueAt,
                               user);
              && response == TaskIs(id, task)
              && after == Store(s.members, s.projects, s.tasks[id := task], s.attachments,
                   s.audits + [Audit(org, user, "task.created", "task", id, map[])],
                   s.events + [Emitted(org, "task.created",
                                       map["task_id" := IdOf(id), "project_id" := IdOf(project),
                                           "title" := TextOf(Some(Strip(title)))])])
  {
    hide Strip;
  }

  /** The same rule for tasks; organization, project and creator never change. */
  lemma {:induction false} PatchedTaskColumns(t: Task, cs: seq<TaskChange>, i: nat)
    ensures var u := PatchedTask(t, cs);
            && u.organization == t.organization && u.project == t.project && u.createdBy == t.createdBy
            && ((forall j :: 0 <= j < |cs| ==> !cs[j].Title?) ==> u.title == t.title)
            && ((forall j :: 0 <= j < |cs| ==> !cs[j].Details?) ==> u.description == t.description)
            && ((forall j :: 0 <= j < |cs| ==> !cs[j].Progress?) ==> u.status == t.status)
            && ((forall j :: 0 <= j < |cs| ==> !cs[j].Priority?) ==> u.priority == t.priority)
            && ((forall j :: 0 <= j < |cs| ==> !cs[j].Assignee?) ==> u.assignee == t.assignee)
            && ((forall j :: 0 <= j < |cs| ==> !cs[j].DueAt?) ==> u.dueAt == t.dueAt)
            && (i < |cs| ==>
                  match cs[i]
                  case Title(title) => (forall j :: i < j < |cs| ==> !cs[j].Title?) ==> u.title == title
                  case Details(details) => (forall j :: i < j < |cs| ==> !cs[j].Details?) ==> u.description == details
                  case Progress(progress) => (forall j :: i < j < |cs| ==> !cs[j].Progress?) ==> u.status == progress
                  case Priority(priority) => (forall j :: i < j < |cs| ==> !cs[j].Priority?) ==> u.priority == priority
                  case Assignee(assignee) => (forall j :: i < j < |cs| ==> !cs[j].Assignee?) ==> u.assignee == assignee
                  case DueAt(dueAt) => (forall j :: i < j < |cs| ==> !cs[j].DueAt?) ==> u.dueAt == dueAt)
    decreases |cs|
  {
    if cs != [] {
      PatchedTaskColumns(t, cs[..|cs| - 1], i);
    }
  }

  /** A task of the organization is updated if every assignee named is a member and no required column
      would be null; becoming done has an event of its own. */
  lemma TaskUpdate(s: Store, org: OrgId, user: User, id: Id, changes: seq<TaskChange>)
    ensures var (after, response) := Serve(s, Request(org, user, UpdateTask(id, changes)));
            if id !in s.tasks || s.tasks[id].organization != org then after == s && response == Failed(TaskNotFound)
            else if exists j :: && 0 <= j < |changes| && changes[j].Assignee? && changes[j].assignee.Some?
                                && (org, changes[j].assignee.value) !in s.members then
              after == s && response == Failed(InvalidAssignee)
            else
              var task := PatchedTask(s.tasks[id], changes);
              if task.title.None? || task.status.None? || task.priority.None? then
                after == s && response == Failed(IntegrityError)
              else
                && response == TaskIs(id, task)
                && after == Store(s.members, s.projects, s.tasks[id := task], s.attachments,
                     s.audits + [Audit(org, user, "task.updated", "task", id, map[])],
                     s.events + [Emitted(org, if task.status == Some("done") then "task.completed" else "task.updated",
                                         map["task_id" := IdOf(id), "project_id" := IdOf(task.project),
                                             "status" := TextOf(task.status)])])
  {
    hide PatchedTask;
  }

  /** A deleted task takes its attachments along; nothing else goes. */
  lemma TaskDeletion(s: Store, org: OrgId, user: User, id: Id)
    ensures var (after, response) := Serve(s, Request(org, user, DeleteTask(id)));
            if id !in s.tasks || s.tasks[id].organization != org then after == s && response == Failed(TaskNotFound)
            else
              var project := IdOf(s.tasks[id].project);
              && response == NoContent && after.members == s.members && after.projects == s.projects
              && after.tasks == s.tasks - {id}
              && (forall a :: a in after.attachments <==>
                    && a in s.attachments
                    && !(s.attachments[a].organization == org && s.attachments[a].parent == InTask(id)))
              && (forall a :: a in after.attachments ==> after.attachments[a] == s.attachments[a])
              && after.audits ==
                   s.audits + [Audit(org, user, "task.deleted", "task", id,
                                     map["title" := TextOf(s.tasks[id].title), "project_id" := project])]
              && after.events ==
                   s.events + [Emitted(org, "task.deleted", map["task_id" := IdOf(id), "project_id" := project])]
  {
  }

  // ------------------------------------------------- reading and attaching

  /** A project or a task is found by its id in its own organization only. */
  lemma Reading(s: Store, org: OrgId, user: User, id: Id)
    ensures Serve(s, Request(org, user, GetProject(id))) ==
            (s, if id in s.projects && s.projects[id].organization == org then ProjectIs(id, s.projects[id])
                else Failed(ProjectNotFound))
    ensures Serve(s, Request(org, user, GetTask(id))) ==
            (s, if id in s.tasks && s.tasks[id].organization == org then TaskIs(id, s.tasks[id])
                else Failed(TaskNotFound))
  {
  }

  /** An attachment needs a parent of the organization. */
  lemma Attaching(s: Store, org: OrgId, user: User, id: Id, parent: Parent, objectKey: string)
    ensures var (after, response) := Serve(s, Request(org, user, CreateAttachment(id, parent, objectKey)));
            if parent.InProject? && (parent.id !in s.projects || s.projects[parent.id].organization != org) then
              after == s && response == Failed(ProjectNotFound)
            else if parent.InTask? && (parent.id !in s.tasks || s.tasks[parent.id].organization != org) then
              after == s && response == Failed(TaskNotFound)
            else
              var attachment := Attachment(org, parent, objectKey);
              && response == AttachmentIs(id, attachment)
              && after == s.(attachments := s.attachments[id := attachment])
  {
  }
}
