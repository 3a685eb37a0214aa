/** The six entity records of the domain. Every record carries its integer key
    `id`; navigation properties are not stored here but derived from the store
    (see `Database.Members` and its siblings). */
module Entities {
  import opened Clr
  import opened Enums

  datatype Team = Team(id: Id, name: string, description: string, ownerId: string)

  datatype TeamMember = TeamMember(id: Id, userId: string, teamId: Id, role: TeamRole)

  /** `teamId == Null` is a personal collection, `Value(t)` one owned by team `t`. */
  datatype Collection = Collection(
    id: Id, name: string, description: string, ownerId: string, teamId: Nullable<Id>)

  datatype Endpoint = Endpoint(
    id: Id, name: string, url: string, httpMethod: HttpMethod, description: string,
    folderPath: string, collectionId: Id)

  /** `headers`, `body` and `authConfig` are opaque text (JSON by convention only). */
  datatype RequestTemplate = RequestTemplate(
    id: Id, name: string, headers: string, body: string, authType: AuthType,
    authConfig: string, endpointId: Id)

  datatype ResponseHistory = ResponseHistory(
    id: Id, statusCode: int32, headers: string, body: string, responseTimeMs: int32,
    responseSizeBytes: int64, executedAt: DateTime, endpointId: Id, userId: string)

  /** The empty JSON object, the initial value of the header and auth-config text. */
  const EmptyJson: string := "{}"

  /** `new Team()` given its key: all text empty. */
  function NewTeam(id: Id): (t: Team)
    ensures t.id == id
    ensures t.name == [] && t.description == [] && t.ownerId == []
  {
    Team(id, "", "", "")
  }

  /** `new TeamMember()` given its key: the role is the enum's code-0 member. */
  function NewTeamMember(id: Id): (m: TeamMember)
    ensures m.id == id && m.userId == []
    ensures EncodeRole(m.role) == 0
  {
    TeamMember(id, "", 0, Owner)
  }

  /** `new Collection()` given its key: personal, with all text empty. */
  function NewCollection(id: Id): (c: Collection)
    ensures c.id == id
    ensures c.name == [] && c.description == [] && c.ownerId == []
    ensures c.teamId.Null?
  {
    Collection(id, "", "", "", Null)
  }

  /** `new Endpoint()` given its key: all text empty, `httpMethod` (C# `Method`) is the
      enum's code-0 member. */
  function NewEndpoint(id: Id): (e: Endpoint)
    ensures e.id == id
    ensures e.name == [] && e.url == [] && e.description == [] && e.folderPath == []
    ensures EncodeMethod(e.httpMethod) == 0
  {
    Endpoint(id, "", "", GET, "", "", 0)
  }

  /** `new RequestTemplate()` given its key: headers and auth config are an empty
      JSON object, the body is empty, the auth kind is the enum's code-0 member. */
  function NewRequestTemplate(id: Id): (t: RequestTemplate)
    ensures t.id == id && t.name == []
    ensures t.headers == EmptyJson && t.authConfig == EmptyJson && t.body == []
    ensures EncodeAuthType(t.authType) == 0
  {
    RequestTemplate(id, "", EmptyJson, "", None, EmptyJson, 0)
  }

  /** `new ResponseHistory()` given its key; the clock reading `now` is the
      constructor's `DateTime.UtcNow`. */
  function NewResponseHistory(id: Id, now: DateTime): (h: ResponseHistory)
    ensures h.id == id && h.executedAt == now
    ensures h.headers == EmptyJson && h.body == [] && h.userId == []
    ensures h.statusCode == 0 && h.responseTimeMs == 0 && h.responseSizeBytes == 0
  {
    ResponseHistory(id, 0, EmptyJson, "", 0, 0, now, 0, "")
  }
}
