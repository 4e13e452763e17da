/** Projects, tasks and attachments of many organizations in shared tables: every service
    function selects by id and organization, and the composite foreign keys cascade within
    one organization.  The result is that organizations cannot see one another. */
module Tenants {
  import opened Wrappers
  import opened Text

  type Id = nat
  type OrgId = nat
  type User = nat

  /** Columns that a PATCH may set to null are options; the NOT NULL ones are checked at flush. */
  datatype Project = Project(
    organization: OrgId, name: Option<string>, description: Option<string>, status: Option<string>, createdBy: User)
  {
    predicate NotNull() { name.Some? && status.Some? }
  }

  datatype Task = Task(
    organization: OrgId, project: Id, title: Option<string>, description: Option<string>,
    status: Option<string>, priority: Option<string>, assignee: Option<User>, dueAt: Option<int>, createdBy: User)
  {
    predicate NotNull() { title.Some? && status.Some? && priority.Some? }
  }

  datatype Parent = InProject(id: Id) | InTask(id: Id)

  datatype Attachment = Attachment(organization: OrgId, parent: Parent, objectKey: string)

  /** A value in audit metadata or an event payload. */
  datatype Field = IdOf(id: Id) | TextOf(text: Option<string>)

  type Fields = map<string, Field>

  datatype Audit = Audit(
    organization: OrgId, actor: User, action: string, entityType: string, entity: Id, metadata: Fields)

  datatype Emitted = Emitted(organization: OrgId, eventType: string, payload: Fields)

  datatype Store = Store(
    members: set<(OrgId, User)>,
    projects: map<Id, Project>,
    tasks: map<Id, Task>,
    attachments: map<Id, Attachment>,
    audits: seq<Audit>,
    events: seq<Emitted>)

  /** The fields a PATCH names, in order, with their new values. */
  datatype ProjectChange =
    | Name(name: Option<string>)
    | About(about: Option<string>)
    | Standing(standing: Option<string>)

  datatype TaskChange =
    | Title(title: Option<string>)
    | Details(details: Option<string>)
    | Progress(progress: Option<string>)
    | Priority(priority: Option<string>)
    | Assignee(assignee: Option<User>)
    | DueAt(dueAt: Option<int>)

  datatype Action =
    | GetProject(id: Id)
    | CreateProject(id: Id, name: string, about: Option<string>)
    | UpdateProject(id: Id, projectChanges: seq<ProjectChange>)
    | DeleteProject(id: Id)
    | GetTask(id: Id)
    | CreateTask(id: Id, project: Id, title: string, details: Option<string>, priority: string,
                 assignee: Option<User>, dueAt: Option<int>)
    | UpdateTask(id: Id, taskChanges: seq<TaskChange>)
    | DeleteTask(id: Id)
    | CreateAttachment(id: Id, parent: Parent, objectKey: string)

  /** One authorised request; create actions carry the id that will be generated. */
  datatype Request = Request(organization: OrgId, user: User, action: Action)

  datatype Error = ProjectNotFound | TaskNotFound | InvalidAssignee | IntegrityError

  datatype Response =
    | ProjectIs(id: Id, project: Project)
    | TaskIs(id: Id, task: Task)
    | AttachmentIs(id: Id, attachment: Attachment)
    | NoContent
    | Failed(error: Error)

  // ------------------------------------------------- selections by id and organization

  predicate HasProject(s: Store, org: OrgId, id: Id) {
    id in s.projects && s.projects[id].organization == org
  }

  predicate HasTask(s: Store, org: OrgId, id: Id) {
    id in s.tasks && s.tasks[id].organization == org
  }

  /** The unique constraint on (organization_id, name). */
  predicate NameTaken(s: Store, org: OrgId, id: Id, name: Option<string>) {
    exists p :: p in s.projects && p != id && s.projects[p].organization == org && s.projects[p].name == name
  }

  predicate AssigneeOk(s: Store, org: OrgId, assignee: Option<User>) {
    assignee.Some? ==> (org, assignee.value) in s.members
  }

  /** What a request records besides its rows: an audit entry and an event. */
  datatype Log = Log(
    action: string, entityType: string, entity: Id, metadata: Fields, eventType: string, payload: Fields)
  {
    function AuditBy(org: OrgId, actor: User): Audit { Audit(org, actor, action, entityType, entity, metadata) }
    function EventOf(org: OrgId): Emitted { Emitted(org, eventType, payload) }
  }

  function ProjectCreated(id: Id, p: Project): Log {
    Log("project.created", "project", id, map[], "project.created",
        map["project_id" := IdOf(id), "name" := TextOf(p.name)])
  }

  function ProjectUpdated(id: Id, p: Project): Log {
    Log("project.updated", "project", id, map[], "project.updated",
        map["project_id" := IdOf(id), "status" := TextOf(p.status)])
  }

  function ProjectDeleted(id: Id, p: Project): Log {
    Log("project.deleted", "project", id, map["name" := TextOf(p.name)], "project.deleted",
        map["project_id" := IdOf(id), "name" := TextOf(p.name)])
  }

  function TaskCreated(id: Id, t: Task): Log {
    Log("task.created", "task", id, map[], "task.created",
        map["task_id" := IdOf(id), "project_id" := IdOf(t.project), "title" := TextOf(t.title)])
  }

  function TaskUpdated(id: Id, t: Task): Log {
    Log("task.updated", "task", id, map[], if t.status == Some("done") then "task.completed" else "task.updated",
        map["task_id" := IdOf(id), "project_id" := IdOf(t.project), "status" := TextOf(t.status)])
  }

  function TaskDeleted(id: Id, t: Task): Log {
    Log("task.deleted", "task", id, map["title" := TextOf(t.title), "project_id" := IdOf(t.project)],
        "task.deleted", map["task_id" := IdOf(id), "project_id" := IdOf(t.project)])
  }

  function Logged(s: Store, org: OrgId, user: User, log: Log): Store {
    s.(audits := s.audits + [log.AuditBy(org, user)], events := s.events + [log.EventOf(org)])
  }

  // ------------------------------------------------- the field updates

  function SetProject(p: Project, c: ProjectChange): Project {
    match c
    case Name(name) => p.(name := name)
    case About(about) => p.(description := about)
    case Standing(standing) => p.(status := standing)
  }

  function SetTask(t: Task, c: TaskChange): Task {
    match c
    case Title(title) => t.(title := title)
    case Details(details) => t.(description := details)
    case Progress(progress) => t.(status := progress)
    case Priority(priority) => t.(priority := priority)
    case Assignee(assignee) => t.(assignee := assignee)
    case DueAt(dueAt) => t.(dueAt := dueAt)
  }

  function PatchedProject(p: Project, cs: seq<ProjectChange>): (p': Project)
    ensures p'.organization == p.organization
  {
    if cs == [] then p else SetProject(PatchedProject(p, cs[..|cs| - 1]), cs[|cs| - 1])
  }

  function PatchedTask(t: Task, cs: seq<TaskChange>): (t': Task)
    ensures t'.organization == t.organization && t'.project == t.project
  {
    if cs == [] then t else SetTask(PatchedTask(t, cs[..|cs| - 1]), cs[|cs| - 1])
  }

  /** Every assignee that the PATCH names belongs to the organization. */
  predicate ChangesOk(s: Store, org: OrgId, cs: seq<TaskChange>) {
    forall c :: c in cs && c.Assignee? ==> AssigneeOk(s, org, c.assignee)
  }

  // ------------------------------------------------- cascades

  /** ON DELETE CASCADE on (organization_id, task_id). */
  function WithoutTask(s: Store, org: OrgId, id: Id): Store {
    s.(tasks := s.tasks - {id},
       attachments := map a | a in s.attachments &&
                              !(s.attachments[a].organization == org && s.attachments[a].parent == InTask(id))
                      :: s.attachments[a])
  }

  predicate TaskOf(s: Store, org: OrgId, project: Id, task: Id) {
    task in s.tasks && s.tasks[task].organization == org && s.tasks[task].project == project
  }

  /** ON DELETE CASCADE on (organization_id, project_id), then from the deleted tasks to their attachments. */
  function WithoutProject(s: Store, org: OrgId, id: Id): Store {
    s.(projects := s.projects - {id},
       tasks := map t | t in s.tasks && !TaskOf(s, org, id, t) :: s.tasks[t],
       attachments := map a | a in s.attachments &&
                              !(s.attachments[a].organization == org &&
                                (s.attachments[a].parent == InProject(id) ||
                                 (s.attachments[a].parent.InTask? && TaskOf(s, org, id, s.attachments[a].parent.id))))
                      :: s.attachments[a])
  }

  // ------------------------------------------------- what a request does

  function NewTask(org: OrgId, user: User, project: Id, title: string, details: Option<string>, priority: string,
                   assignee: Option<User>, dueAt: Option<int>): Task
  {
    Task(org, project, Some(Strip(title)), details, Some("todo"), Some(priority), assignee, dueAt, user)
  }

  function Serve(s: Store, r: Request): (Store, Response) {
    var org := r.organization;
    match r.action
    case GetProject(id) =>
      if HasProject(s, org, id) then (s, ProjectIs(id, s.projects[id])) else (s, Failed(ProjectNotFound))
    case CreateProject(id, name, about) =>
      var project := Project(org, Some(Strip(name)), about, Some("active"), r.user);
      if NameTaken(s, org, id, project.name) then (s, Failed(IntegrityError))
      else (Logged(s.(projects := s.projects[id := project]), org, r.user, ProjectCreated(id, project)),
            ProjectIs(id, project))
    case UpdateProject(id, changes) =>
      if !HasProject(s, org, id) then (s, Failed(ProjectNotFound))
      else
        var project := PatchedProject(s.projects[id], changes);
        if !project.NotNull() || NameTaken(s, org, id, project.name) then (s, Failed(IntegrityError))
        else (Logged(s.(projects := s.projects[id := project]), org, r.user, ProjectUpdated(id, project)),
              ProjectIs(id, project))
    case DeleteProject(id) =>
      if !HasProject(s, org, id) then (s, Failed(ProjectNotFound))
      else (WithoutProject(Logged(s, org, r.user, ProjectDeleted(id, s.projects[id])), org, id), NoContent)
    case GetTask(id) =>
      if HasTask(s, org, id) then (s, TaskIs(id, s.tasks[id])) else (s, Failed(TaskNotFound))
    case CreateTask(id, project, title, details, priority, assignee, dueAt) =>
      if !HasProject(s, org, project) then (s, Failed(ProjectNotFound))
      else if !AssigneeOk(s, org, assignee) then (s, Failed(InvalidAssignee))
      else
        var task := NewTask(org, r.user, project, title, details, priority, assignee, dueAt);
        (Logged(s.(tasks := s.tasks[id := task]), org, r.user, TaskCreated(id, task)), TaskIs(id, task))
    case UpdateTask(id, changes) =>
      if !HasTask(s, org, id) then (s, Failed(TaskNotFound))
      else if !ChangesOk(s, org, changes) then (s, Failed(InvalidAssignee))
      else
        var task := PatchedTask(s.tasks[id], changes);
        if !task.NotNull() then (s, Failed(IntegrityError))
        else
          (Logged(s.(tasks := s.tasks[id := task]), org, r.user, TaskUpdated(id, task)), TaskIs(id, task))
    case DeleteTask(id) =>
      if !HasTask(s, org, id) then (s, Failed(TaskNotFound))
      else (WithoutTask(Logged(s, org, r.user, TaskDeleted(id, s.tasks[id])), org, id), NoContent)
    case CreateAttachment(id, parent, objectKey) =>
      if parent.InProject? && !HasProject(s, org, parent.id) then (s, Failed(ProjectNotFound))
      else if parent.InTask? && !HasTask(s, org, parent.id) then (s, Failed(TaskNotFound))
      else
        var attachment := Attachment(org, parent, objectKey);
        (s.(attachments := s.attachments[id := attachment]), AttachmentIs(id, attachment))
  }

  // ------------------------------------------------- the code

  class Session {
    var s: Store

    constructor (s: Store)
      ensures this.s == s
    {
      this.s := s;
    }

    method UpdateProject(org: OrgId, id: Id, user: User, changes: seq<ProjectChange>) returns (response: Response)
      modifies this
      ensures (s, response) == Serve(old(s), Request(org, user, Action.UpdateProject(id, changes)))
    {
      if !HasProject(s, org, id) {
        return Failed(ProjectNotFound);
      }
      var project := s.projects[id];
      for i := 0 to |changes|
        invariant project == PatchedProject(s.projects[id], changes[..i])
      {
        assert changes[..i + 1][..i] == changes[..i];
        project := SetProject(project, changes[i]);
      }
      assert changes[..|changes|] == changes;
      if !project.NotNull() || NameTaken(s, org, id, project.name) {
        return Failed(IntegrityError);
      }
      s := s.(projects := s.projects[id := project]);
      s := s.(audits := s.audits + [Audit(org, user, "project.updated", "project", id, map[])]);
      var payload := map["project_id" := IdOf(id), "status" := TextOf(project.status)];
      s := s.(events := s.events + [Emitted(org, "project.updated", payload)]);
      return ProjectIs(id, project);
    }

    method CreateProject(org: OrgId, id: Id, user: User, name: string, about: Option<string>)
      returns (response: Response)
      modifies this
      ensures (s, response) == Serve(old(s), Request(org, user, Action.CreateProject(id, name, about)))
    {
      var project := Project(org, Some(Strip(name)), about, Some("active"), user);
      if NameTaken(s, org, id, project.name) {
        return Failed(IntegrityError);
      }
      s := s.(projects := s.projects[id := project]);
      s := s.(audits := s.audits + [Audit(org, user, "project.created", "project", id, map[])]);
      var payload := map["project_id" := IdOf(id), "name" := TextOf(project.name)];
      s := s.(events := s.events + [Emitted(org, "project.created", payload)]);
      return ProjectIs(id, project);
    }

    method DeleteProject(org: OrgId, id: Id, user: User) returns (response: Response)
      modifies this
      ensures (s, response) == Serve(old(s), Request(org, user, Action.DeleteProject(id)))
    {
      if !HasProject(s, org, id) {
        return Failed(ProjectNotFound);
      }
      var name := TextOf(s.projects[id].name);
      s := s.(audits := s.audits + [Audit(org, user, "project.deleted", "project", id, map["name" := name])]);
      s := s.(events := s.events + [Emitted(org, "project.deleted", map["project_id" := IdOf(id), "name" := name])]);
      s := WithoutProject(s, org, id);
      return NoContent;
    }

    method CreateTask(org: OrgId, id: Id, user: User, project: Id, title: string, details: Option<string>,
                      priority: string, assignee: Option<User>, dueAt: Option<int>) returns (response: Response)
      modifies this
      ensures (s, response) ==
              Serve(old(s), Request(org, user,
                                    Action.CreateTask(id, project, title, details, priority, assignee, dueAt)))
    {
      if !HasProject(s, org, project) {
        return Failed(ProjectNotFound);
      }
      if assignee.Some? && (org, assignee.value) !in s.members {
        return Failed(InvalidAssignee);
      }
      var task := NewTask(org, user, project, title, details, priority, assignee, dueAt);
      s := s.(tasks := s.tasks[id := task]);
      s := s.(audits := s.audits + [Audit(org, user, "task.created", "task", id, map[])]);
      var payload := map["task_id" := IdOf(id), "project_id" := IdOf(task.project), "title" := TextOf(task.title)];
      s := s.(events := s.events + [Emitted(org, "task.created", payload)]);
      return TaskIs(id, task);
    }

    method UpdateTask(org: OrgId, id: Id, user: User, changes: seq<TaskChange>) returns (response: Response)
      modifies this
      ensures (s, response) == Serve(old(s), Request(org, user, Action.UpdateTask(id, changes)))
    {
      if !HasTask(s, org, id) {
        return Failed(TaskNotFound);
      }
      if !ChangesOk(s, org, changes) {
        return Failed(InvalidAssignee);
      }
      var task := s.tasks[id];
      for i := 0 to |changes|
        invariant task == PatchedTask(s.tasks[id], changes[..i])
      {
        assert changes[..i + 1][..i] == changes[..i];
        task := SetTask(task, changes[i]);
      }
      assert changes[..|changes|] == changes;
      if !task.NotNull() {
        return Failed(IntegrityError);
      }
      s := s.(tasks := s.tasks[id := task]);
      s := s.(audits := s.audits + [Audit(org, user, "task.updated", "task", id, map[])]);
      var eventType := if task.status == Some("done") then "task.completed" else "task.updated";
      var payload := map["task_id" := IdOf(id), "project_id" := IdOf(task.project), "status" := TextOf(task.status)];
      s := s.(events := s.events + [Emitted(org, eventType, payload)]);
      return TaskIs(id, task);
    }

    method DeleteTask(org: OrgId, id: Id, user: User) returns (response: Response)
      modifies this
      ensures (s, response) == Serve(old(s), Request(org, user, Action.DeleteTask(id)))
    {
      if !HasTask(s, org, id) {
        return Failed(TaskNotFound);
      }
      var task := s.tasks[id];
      var metadata := map["title" := TextOf(task.title), "project_id" := IdOf(task.project)];
      s := s.(audits := s.audits + [Audit(org, user, "task.deleted", "task", id, metadata)]);
      var payload := map["task_id" := IdOf(id), "project_id" := IdOf(task.project)];
      s := s.(events := s.events + [Emitted(org, "task.deleted", payload)]);
      s := WithoutTask(s, org, id);
      return NoContent;
    }
  }

  // ------------------------------------------------- an organization's slice

  function AuditsOf(audits: seq<Audit>, org: OrgId): seq<Audit> {
    if audits == [] then []
    else AuditsOf(audits[..|audits| - 1], org) +
         if audits[|audits| - 1].organization == org then [audits[|audits| - 1]] else []
  }

  function EventsOf(events: seq<Emitted>, org: OrgId): seq<Emitted> {
    if events == [] then []
    else EventsOf(events[..|events| - 1], org) +
         if events[|events| - 1].organization == org then [events[|events| - 1]] else []
  }

  /** The rows, audit entries and emitted events of one organization. */
  function Slice(s: Store, org: OrgId): Store {
    Store(set m | m in s.members && m.0 == org,
          map p | p in s.projects && s.projects[p].organization == org :: s.projects[p],
          map t | t in s.tasks && s.tasks[t].organization == org :: s.tasks[t],
          map a | a in s.attachments && s.attachments[a].organization == org :: s.attachments[a],
          AuditsOf(s.audits, org),
          EventsOf(s.events, org))
  }

  /** The id of a created row is new: no table holds it. */
  ghost predicate FreshIn(s: Store, r: Request) {
    r.action.CreateProject? || r.action.CreateTask? || r.action.CreateAttachment? ==>
      r.action.id !in s.projects && r.action.id !in s.tasks && r.action.id !in s.attachments
  }

  lemma LoggedSlice(s: Store, actor: OrgId, user: User, log: Log, org: OrgId)
    ensures Slice(Logged(s, actor, user, log), org) ==
            if actor == org then Logged(Slice(s, org), actor, user, log) else Slice(s, org)
  {
  }

  lemma NameTakenSlice(s: Store, org: OrgId, id: Id, name: Option<string>)
    ensures NameTaken(s, org, id, name) == NameTaken(Slice(s, org), org, id, name)
  {
    if NameTaken(s, org, id, name) {
      var p :| p in s.projects && p != id && s.projects[p].organization == org && s.projects[p].name == name;
      assert p in Slice(s, org).projects;
    }
  }

  lemma PutProject(s: Store, id: Id, p: Project, org: OrgId)
    requires p.organization == org
    ensures Slice(s.(projects := s.projects[id := p]), org) ==
            Slice(s, org).(projects := Slice(s, org).projects[id := p])
  {
  }

  lemma PutTask(s: Store, id: Id, t: Task, org: OrgId)
    requires t.organization == org
    ensures Slice(s.(tasks := s.tasks[id := t]), org) == Slice(s, org).(tasks := Slice(s, org).tasks[id := t])
  {
  }

  lemma PutAttachment(s: Store, id: Id, a: Attachment, org: OrgId)
    requires a.organization == org
    ensures Slice(s.(attachments := s.attachments[id := a]), org) ==
            Slice(s, org).(attachments := Slice(s, org).attachments[id := a])
  {
  }

  /** Rows of other organizations may come and go, as long as no row of this one is overwritten. */
  lemma ProjectElsewhere(s: Store, id: Id, p: Project, org: OrgId)
    requires p.organization != org && !HasProject(s, org, id)
    ensures Slice(s.(projects := s.projects[id := p]), org) == Slice(s, org)
  {
  }

  lemma TaskElsewhere(s: Store, id: Id, t: Task, org: OrgId)
    requires t.organization != org && !HasTask(s, org, id)
    ensures Slice(s.(tasks := s.tasks[id := t]), org) == Slice(s, org)
  {
  }

  lemma AttachmentElsewhere(s: Store, id: Id, a: Attachment, org: OrgId)
    requires a.organization != org && !(id in s.attachments && s.attachments[id].organization == org)
    ensures Slice(s.(attachments := s.attachments[id := a]), org) == Slice(s, org)
  {
  }

  lemma TaskOfSlice(s: Store, org: OrgId, project: Id, task: Id)
    ensures TaskOf(Slice(s, org), org, project, task) == TaskOf(s, org, project, task)
  {
  }

  /** Cascades stay within the organization that owns the deleted row. */
  lemma TaskCascade(s: Store, actor: OrgId, id: Id, org: OrgId)
    requires HasTask(s, actor, id)
    ensures Slice(WithoutTask(s, actor, id), org) ==
            if actor == org then WithoutTask(Slice(s, org), actor, id) else Slice(s, org)
  {
    hide AuditsOf, EventsOf;
    var after, before := Slice(WithoutTask(s, actor, id), org), Slice(s, org);
    if actor == org {
      assert after.tasks == before.tasks - {id};
      assert after.attachments == WithoutTask(before, actor, id).attachments;
    } else {
      assert after.tasks == before.tasks;
      assert after.attachments == before.attachments;
    }
  }

  lemma ProjectCascadeOwn(s: Store, id: Id, org: OrgId)
    requires HasProject(s, org, id)
    ensures Slice(WithoutProject(s, org, id), org) == WithoutProject(Slice(s, org), org, id)
  {
    hide AuditsOf, EventsOf, TaskOf;
    var after, before := Slice(WithoutProject(s, org, id), org), WithoutProject(Slice(s, org), org, id);
    forall t
      ensures TaskOf(Slice(s, org), org, id, t) == TaskOf(s, org, id, t)
    {
      TaskOfSlice(s, org, id, t);
    }
    assert after.projects == before.projects;
    assert after.tasks == before.tasks;
    assert after.attachments == before.attachments;
  }

  lemma ProjectCascadeOther(s: Store, actor: OrgId, id: Id, org: OrgId)
    requires HasProject(s, actor, id) && actor != org
    ensures Slice(WithoutProject(s, actor, id), org) == Slice(s, org)
  {
    hide AuditsOf, EventsOf;
    var after, before := Slice(WithoutProject(s, actor, id), org), Slice(s, org);
    assert after.projects == before.projects;
    assert after.tasks == before.tasks;
    assert after.attachments == before.attachments;
  }

  /** A request of another organization changes nothing in this one's slice. */
  lemma OthersInvisible(s: Store, r: Request, org: OrgId)
    requires r.organization != org && FreshIn(s, r)
    ensures Slice(Serve(s, r).0, org) == Slice(s, org)
  {
    hide Slice, Logged, WithoutProject, WithoutTask, PatchedProject, PatchedTask, NameTaken, ChangesOk;
    var actor := r.organization;
    match r.action
    case GetProject(id) =>
    case GetTask(id) =>
    case CreateProject(id, name, about) =>
      var project := Project(actor, Some(Strip(name)), about, Some("active"), r.user);
      ProjectElsewhere(s, id, project, org);
      LoggedSlice(s.(projects := s.projects[id := project]), actor, r.user, ProjectCreated(id, project), org);
    case UpdateProject(id, changes) =>
      if HasProject(s, actor, id) {
        var project := PatchedProject(s.projects[id], changes);
        ProjectElsewhere(s, id, project, org);
        LoggedSlice(s.(projects := s.projects[id := project]), actor, r.user, ProjectUpdated(id, project), org);
      }
    case DeleteProject(id) =>
      if HasProject(s, actor, id) {
        var logged := Logged(s, actor, r.user, ProjectDeleted(id, s.projects[id]));
        LoggedKeepsRows(s, actor, r.user, ProjectDeleted(id, s.projects[id]));
        ProjectCascadeOther(logged, actor, id, org);
        LoggedSlice(s, actor, r.user, ProjectDeleted(id, s.projects[id]), org);
      }
    case CreateTask(id, project, title, details, priority, assignee, dueAt) =>
      var task := NewTask(actor, r.user, project, title, details, priority, assignee, dueAt);
      TaskElsewhere(s, id, task, org);
      LoggedSlice(s.(tasks := s.tasks[id := task]), actor, r.user, TaskCreated(id, task), org);
    case UpdateTask(id, changes) =>
      if HasTask(s, actor, id) {
        var task := PatchedTask(s.tasks[id], changes);
        TaskElsewhere(s, id, task, org);
        LoggedSlice(s.(tasks := s.tasks[id := task]), actor, r.user, TaskUpdated(id, task), org);
      }
    case DeleteTask(id) =>
      if HasTask(s, actor, id) {
        var logged := Logged(s, actor, r.user, TaskDeleted(id, s.tasks[id]));
        LoggedKeepsRows(s, actor, r.user, TaskDeleted(id, s.tasks[id]));
        TaskCascade(logged, actor, id, org);
        LoggedSlice(s, actor, r.user, TaskDeleted(id, s.tasks[id]), org);
      }
    case CreateAttachment(id, parent, objectKey) =>
      AttachmentElsewhere(s, id, Attachment(actor, parent, objectKey), org);
  }

  lemma LoggedKeepsRows(s: Store, org: OrgId, user: User, log: Log)
    ensures var l := Logged(s, org, user, log);
            && l.members == s.members && l.projects == s.projects && l.tasks == s.tasks
            && l.attachments == s.attachments
  {
  }

  /** What an organization can look up is the same in its slice. */
  lemma LookupSlice(s: Store, org: OrgId, id: Id)
    ensures HasProject(Slice(s, org), org, id) == HasProject(s, org, id)
    ensures HasProject(s, org, id) ==> Slice(s, org).projects[id] == s.projects[id]
    ensures HasTask(Slice(s, org), org, id) == HasTask(s, org, id)
    ensures HasTask(s, org, id) ==> Slice(s, org).tasks[id] == s.tasks[id]
  {
  }

  lemma AssigneeSlice(s: Store, org: OrgId, assignee: Option<User>)
    ensures AssigneeOk(Slice(s, org), org, assignee) == AssigneeOk(s, org, assignee)
  {
  }

  lemma ChangesSlice(s: Store, org: OrgId, cs: seq<TaskChange>)
    ensures ChangesOk(Slice(s, org), org, cs) == ChangesOk(s, org, cs)
  {
  }

  /** An organization's request on the shared tables is the same request on its own slice. */
  lemma OwnSlice(s: Store, r: Request)
    ensures var org := r.organization;
            Serve(Slice(s, org), r) == (Slice(Serve(s, r).0, org), Serve(s, r).1)
  {
    if r.action.GetProject? || r.action.CreateProject? || r.action.UpdateProject? || r.action.DeleteProject? {
      OwnProjectSlice(s, r);
    } else {
      OwnTaskSlice(s, r);
    }
  }

  lemma OwnProjectSlice(s: Store, r: Request)
    requires r.action.GetProject? || r.action.CreateProject? || r.action.UpdateProject? || r.action.DeleteProject?
    ensures var org := r.organization;
            Serve(Slice(s, org), r) == (Slice(Serve(s, r).0, org), Serve(s, r).1)
  {
    hide Slice, Logged, WithoutProject, WithoutTask, PatchedProject, NameTaken, HasProject;
    var org := r.organization;
    LookupSlice(s, org, r.action.id);
    match r.action
    case GetProject(id) =>
    case CreateProject(id, name, about) =>
      var project := Project(org, Some(Strip(name)), about, Some("active"), r.user);
      NameTakenSlice(s, org, id, project.name);
      PutProject(s, id, project, org);
      LoggedSlice(s.(projects := s.projects[id := project]), org, r.user, ProjectCreated(id, project), org);
    case UpdateProject(id, changes) =>
      if HasProject(s, org, id) {
        HasProjectIs(s, org, id);
        var project := PatchedProject(s.projects[id], changes);
        NameTakenSlice(s, org, id, project.name);
        PutProject(s, id, project, org);
        LoggedSlice(s.(projects := s.projects[id := project]), org, r.user, ProjectUpdated(id, project), org);
      }
    case DeleteProject(id) =>
      if HasProject(s, org, id) {
        HasProjectIs(s, org, id);
        var logged := Logged(s, org, r.user, ProjectDeleted(id, s.projects[id]));
        LoggedKeepsRows(s, org, r.user, ProjectDeleted(id, s.projects[id]));
        HasProjectIs(logged, org, id);
        ProjectCascadeOwn(logged, id, org);
        LoggedSlice(s, org, r.user, ProjectDeleted(id, s.projects[id]), org);
      }
  }

  lemma HasProjectIs(s: Store, org: OrgId, id: Id)
    ensures HasProject(s, org, id) <==> id in s.projects && s.projects[id].organization == org
  {
  }

  lemma HasTaskIs(s: Store, org: OrgId, id: Id)
    ensures HasTask(s, org, id) <==> id in s.tasks && s.tasks[id].organization == org
  {
  }

  lemma OwnTaskSlice(s: Store, r: Request)
    requires !(r.action.GetProject? || r.action.CreateProject? || r.action.UpdateProject? || r.action.DeleteProject?)
    ensures var org := r.organization;
            Serve(Slice(s, org), r) == (Slice(Serve(s, r).0, org), Serve(s, r).1)
  {
    hide Slice, Logged, WithoutProject, WithoutTask, PatchedTask, HasProject, HasTask, AssigneeOk, ChangesOk;
    var org := r.organization;
    LookupSlice(s, org, r.action.id);
    match r.action
    case GetTask(id) =>
    case CreateTask(id, project, title, details, priority, assignee, dueAt) =>
      LookupSlice(s, org, project);
      AssigneeSlice(s, org, assignee);
      var task := NewTask(org, r.user, project, title, details, priority, assignee, dueAt);
      PutTask(s, id, task, org);
      LoggedSlice(s.(tasks := s.tasks[id := task]), org, r.user, TaskCreated(id, task), org);
    case UpdateTask(id, changes) =>
      ChangesSlice(s, org, changes);
      if HasTask(s, org, id) {
        HasTaskIs(s, org, id);
        var task := PatchedTask(s.tasks[id], changes);
        PutTask(s, id, task, org);
        LoggedSlice(s.(tasks := s.tasks[id := task]), org, r.user, TaskUpdated(id, task), org);
      }
    case DeleteTask(id) =>
      if HasTask(s, org, id) {
        HasTaskIs(s, org, id);
        var logged := Logged(s, org, r.user, TaskDeleted(id, s.tasks[id]));
        LoggedKeepsRows(s, org, r.user, TaskDeleted(id, s.tasks[id]));
        HasTaskIs(logged, org, id);
        TaskCascade(logged, org, id, org);
        LoggedSlice(s, org, r.user, TaskDeleted(id, s.tasks[id]), org);
      }
    case CreateAttachment(id, parent, objectKey) =>
      LookupSlice(s, org, parent.id);
      PutAttachment(s, id, Attachment(org, parent, objectKey), org);
  }

  // ------------------------------------------------- runs

  function Run(s: Store, rs: seq<Request>): Store {
    if rs == [] then s else Serve(Run(s, rs[..|rs| - 1]), rs[|rs| - 1]).0
  }

  /** The responses that the requests of `org` get within the run. */
  function Responses(s: Store, rs: seq<Request>, org: OrgId): seq<Response> {
    if rs == [] then []
    else
      var init, r := rs[..|rs| - 1], rs[|rs| - 1];
      Responses(s, init, org) + if r.organization == org then [Serve(Run(s, init), r).1] else []
  }

  /** The run with every request of other organizations deleted. */
  function Own(rs: seq<Request>, org: OrgId): seq<Request> {
    if rs == [] then []
    else Own(rs[..|rs| - 1], org) + if rs[|rs| - 1].organization == org then [rs[|rs| - 1]] else []
  }

  ghost predicate FreshRun(s: Store, rs: seq<Request>) {
    forall i :: 0 <= i < |rs| ==> FreshIn(Run(s, rs[..i]), rs[i])
  }

  /** Non-interference: deleting all requests of other organizations from a run, even all their rows
      beforehand, changes neither a response nor a row, audit entry or event of this organization. */
  lemma {:induction false} NonInterference(s: Store, rs: seq<Request>, org: OrgId)
    requires FreshRun(s, rs)
    ensures Responses(Slice(s, org), Own(rs, org), org) == Responses(s, rs, org)
    ensures Run(Slice(s, org), Own(rs, org)) == Slice(Run(s, rs), org)
  {
    hide Serve, Slice, FreshIn;
    if rs != [] {
      var init, r := rs[..|rs| - 1], rs[|rs| - 1];
      assert FreshRun(s, init) by {
        assert forall i :: 0 <= i < |init| ==> init[..i] == rs[..i] && init[i] == rs[i];
      }
      NonInterference(s, init, org);
      var own := Own(init, org);
      if r.organization == org {
        OwnSlice(Run(s, init), r);
        AppendRun(Slice(s, org), own, r, org);
      } else {
        OthersInvisible(Run(s, init), r, org);
        assert own + [] == own;
        assert Responses(s, init, org) + [] == Responses(s, init, org);
      }
    }
  }

  lemma AppendRun(s: Store, rs: seq<Request>, r: Request, org: OrgId)
    requires r.organization == org
    ensures Run(s, rs + [r]) == Serve(Run(s, rs), r).0
    ensures Responses(s, rs + [r], org) == Responses(s, rs, org) + [Serve(Run(s, rs), r).1]
  {
  }

  // ------------------------------------------------- referential integrity

  /** Tasks and attachments refer to existing parents of their own organization. */
  ghost predicate Integrity(s: Store) {
    && (forall t :: t in s.tasks ==> HasProject(s, s.tasks[t].organization, s.tasks[t].project))
    && (forall a :: a in s.attachments ==>
          match s.attachments[a].parent
          case InProject(id) => HasProject(s, s.attachments[a].organization, id)
          case InTask(id) => HasTask(s, s.attachments[a].organization, id))
  }

  lemma TaskDeletionIntegrity(s: Store, org: OrgId, id: Id)
    requires Integrity(s) && HasTask(s, org, id)
    ensures Integrity(WithoutTask(s, org, id))
  {
  }

  lemma ProjectDeletionIntegrity(s: Store, org: OrgId, id: Id)
    requires Integrity(s) && HasProject(s, org, id)
    ensures Integrity(WithoutProject(s, org, id))
  {
  }

  lemma IntegrityStep(s: Store, r: Request)
    requires Integrity(s) && FreshIn(s, r)
    ensures Integrity(Serve(s, r).0)
  {
    hide WithoutTask, WithoutProject, PatchedProject, PatchedTask, NameTaken, ChangesOk, AssigneeOk;
    hide ProjectCreated, ProjectUpdated, ProjectDeleted, TaskCreated, TaskUpdated, TaskDeleted, Strip;
    var org := r.organization;
    if r.action.DeleteTask? && HasTask(s, org, r.action.id) {
      TaskDeletionIntegrity(Logged(s, org, r.user, TaskDeleted(r.action.id, s.tasks[r.action.id])), org, r.action.id);
    } else if r.action.DeleteProject? && HasProject(s, org, r.action.id) {
      ProjectDeletionIntegrity(Logged(s, org, r.user, ProjectDeleted(r.action.id, s.projects[r.action.id])), org,
                               r.action.id);
    }
  }

  /** The composite foreign keys hold after every run. */
  lemma {:induction false} IntegrityAlways(s: Store, rs: seq<Request>)
    requires Integrity(s) && FreshRun(s, rs)
    ensures Integrity(Run(s, rs))
  {
    hide Serve, Integrity, FreshIn;
    if rs != [] {
      var init := rs[..|rs| - 1];
      assert FreshRun(s, init) by {
        assert forall i :: 0 <= i < |init| ==> init[..i] == rs[..i] && init[i] == rs[i];
      }
      IntegrityAlways(s, init);
      IntegrityStep(Run(s, init), rs[|rs| - 1]);
    }
  }
}
