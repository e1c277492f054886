/** The stored record shapes of backend/app/models.py and the in-memory store that
    replaces the database. Each table is a sequence in insertion (row id) order,
    so "the first row matching a query" is well defined; statuses are stored as
    strings, exactly as the columns hold them, so a row may carry a value outside
    the enumerations. Timestamps are integers (seconds). */
module Records {
  import opened Schemas

  datatype User = User(id: string, email: string, passwordHash: string)

  datatype Member = Member(id: string, workspaceId: string, userId: string, role: string)

  datatype Idea = Idea(
    id: string, workspaceId: string, title: string, description: string, status: string,
    mainTopicFlag: bool, startMonth: string, targetMonth: string, priority: PriorityInputs,
    createdAt: int, updatedAt: int)

  datatype Task = Task(
    id: string, workspaceId: string, ideaId: string, title: string, status: string,
    importance: int, startMonth: string, endMonth: string, dueMonth: string,
    dependencies: seq<string>, sortOrder: int, updatedAt: int)

  datatype Deliverable = Deliverable(
    id: string, workspaceId: string, ideaId: string, title: string, kind: string,
    dueMonth: string, status: string)

  datatype UpdateLog = UpdateLog(
    id: string, workspaceId: string, ideaId: string, source: string, title: string,
    bodyMd: string, aiSummary: string, aiTags: seq<string>, aiRiskFlags: seq<string>,
    createdAt: int)

  datatype Store = Store(
    users: seq<User>, members: seq<Member>, ideas: seq<Idea>, tasks: seq<Task>,
    deliverables: seq<Deliverable>, logs: seq<UpdateLog>)

  /** Seconds in the fourteen-day activity window of the dashboard and risk rules. */
  const FourteenDays: int := 14 * 24 * 60 * 60
}
