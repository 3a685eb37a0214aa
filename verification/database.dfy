/** The store: one table per entity set, the column bounds and constraints the
    schema declares, the errors a rejected write raises, and the navigation
    properties as queries over the tables. */
module Database {
  import opened Clr
  import opened Enums
  import opened Entities

  // Column bounds (`HasMaxLength`), in characters.
  const MaxNameLength: nat := 100
  const MaxDescriptionLength: nat := 500
  /** Length of an Identity user key; bounds both `OwnerId` and `UserId`. */
  const MaxUserIdLength: nat := 450
  const MaxUrlLength: nat := 2000
  const MaxFolderPathLength: nat := 500

  /** The bounded text columns, named for validation errors. */
  datatype Field = Name | Description | OwnerId | UserId | Url | FolderPath

  /** One bounded text column of a row: which field, the text written, its bound. */
  datatype Column = Column(field: Field, text: string, maxLength: nat)

  predicate Fits(c: Column) {
    |c.text| <= c.maxLength
  }

  predicate AllFit(cols: seq<Column>) {
    forall i :: 0 <= i < |cols| ==> Fits(cols[i])
  }

  /** The first column, in declaration order, whose text exceeds its bound. */
  function FirstTooLong(cols: seq<Column>): (r: Nullable<Column>)
    ensures r.Null? <==> AllFit(cols)
    ensures r.Value? ==> exists i :: 0 <= i < |cols| && cols[i] == r.value && !Fits(cols[i]) && AllFit(cols[..i])
  {
    if cols == [] then Null
    else if !Fits(cols[0]) then (assert AllFit(cols[..0]); Value(cols[0]))
    else
      var rest := FirstTooLong(cols[1..]);
      if rest.Value? then
        var i :| 0 <= i < |cols[1..]| && cols[1..][i] == rest.value && !Fits(cols[1..][i]) && AllFit(cols[1..][..i]);
        assert cols[..i + 1] == [cols[0]] + cols[1..][..i];
        rest
      else
        rest
  }

  // The bounded columns of each entity, as `ApplicationDbContext` declares them.

  function TeamColumns(t: Team): (cols: seq<Column>)
    ensures AllFit(cols) <==>
      |t.name| <= MaxNameLength && |t.description| <= MaxDescriptionLength && |t.ownerId| <= MaxUserIdLength
  {
    var cols := [Column(Name, t.name, MaxNameLength),
                Column(Description, t.description, MaxDescriptionLength),
                Column(OwnerId, t.ownerId, MaxUserIdLength)];
    assert AllFit(cols) <==> Fits(cols[0]) && Fits(cols[1]) && Fits(cols[2]);
    cols
  }

  function MemberColumns(m: TeamMember): (cols: seq<Column>)
    ensures AllFit(cols) <==> |m.userId| <= MaxUserIdLength
  {
    var cols := [Column(UserId, m.userId, MaxUserIdLength)];
    assert AllFit(cols) <==> Fits(cols[0]);
    cols
  }

  function CollectionColumns(c: Collection): (cols: seq<Column>)
    ensures AllFit(cols) <==>
      |c.name| <= MaxNameLength && |c.description| <= MaxDescriptionLength && |c.ownerId| <= MaxUserIdLength
  {
    var cols := [Column(Name, c.name, MaxNameLength),
                Column(Description, c.description, MaxDescriptionLength),
                Column(OwnerId, c.ownerId, MaxUserIdLength)];
    assert AllFit(cols) <==> Fits(cols[0]) && Fits(cols[1]) && Fits(cols[2]);
    cols
  }

  function EndpointColumns(e: Endpoint): (cols: seq<Column>)
    ensures AllFit(cols) <==>
      && |e.name| <= MaxNameLength && |e.url| <= MaxUrlLength
      && |e.description| <= MaxDescriptionLength && |e.folderPath| <= MaxFolderPathLength
  {
    var cols := [Column(Name, e.name, MaxNameLength),
                Column(Url, e.url, MaxUrlLength),
                Column(Description, e.description, MaxDescriptionLength),
                Column(FolderPath, e.folderPath, MaxFolderPathLength)];
    assert AllFit(cols) <==> Fits(cols[0]) && Fits(cols[1]) && Fits(cols[2]) && Fits(cols[3]);
    cols
  }

  /** Headers, Body and AuthConfig are unbounded `text` columns: only Name is checked. */
  function TemplateColumns(t: RequestTemplate): (cols: seq<Column>)
    ensures AllFit(cols) <==> |t.name| <= MaxNameLength
  {
    var cols := [Column(Name, t.name, MaxNameLength)];
    assert AllFit(cols) <==> Fits(cols[0]);
    cols
  }

  /** Headers and Body are unbounded `text` columns: only UserId is checked. */
  function HistoryColumns(h: ResponseHistory): (cols: seq<Column>)
    ensures AllFit(cols) <==> |h.userId| <= MaxUserIdLength
  {
    var cols := [Column(UserId, h.userId, MaxUserIdLength)];
    assert AllFit(cols) <==> Fits(cols[0]);
    cols
  }

  /** Why the database refuses a write. */
  datatype DbError =
    | ValueTooLong(field: Field, maxLength: nat)          // a value exceeds its column bound
    | DuplicateKey(id: Id)                                 // primary key already taken
    | DuplicateMembership(userId: string, teamId: Id)      // the (UserId, TeamId) unique index
    | MissingParent(parentId: Id)                          // a foreign key names no row
    | NotFound(id: Id)                                     // a delete matched no row

  datatype Result<T> = Ok(value: T) | Err(error: DbError)

  /** The six tables, each a map from key to row. */
  datatype Db = Db(
    teams: map<Id, Team>,
    members: map<Id, TeamMember>,
    collections: map<Id, Collection>,
    endpoints: map<Id, Endpoint>,
    templates: map<Id, RequestTemplate>,
    history: map<Id, ResponseHistory>)

  const EmptyDb: Db := Db(map[], map[], map[], map[], map[], map[])

  // The constraints of each table, given the keys of the table it references.
  // Every row is stored under its own `Id` (`HasKey(e => e.Id)`), its text fits
  // its column bounds, and its foreign key names an existing parent row.

  ghost predicate TeamsValid(teams: map<Id, Team>) {
    forall k :: k in teams ==> teams[k].id == k && AllFit(TeamColumns(teams[k]))
  }

  /** The unique index on (UserId, TeamId): a user joins a team at most once. */
  ghost predicate MembershipUnique(members: map<Id, TeamMember>) {
    forall a, b :: a in members && b in members && a != b ==>
      !(members[a].userId == members[b].userId && members[a].teamId == members[b].teamId)
  }

  ghost predicate MembersValid(members: map<Id, TeamMember>, teamIds: set<Id>) {
    && (forall k :: k in members ==>
          members[k].id == k && AllFit(MemberColumns(members[k])) && members[k].teamId in teamIds)
    && MembershipUnique(members)
  }

  /** A collection's team key may be null; when present it names a team. */
  ghost predicate CollectionsValid(collections: map<Id, Collection>, teamIds: set<Id>) {
    forall k :: k in collections ==>
      && collections[k].id == k && AllFit(CollectionColumns(collections[k]))
      && (collections[k].teamId.Value? ==> collections[k].teamId.value in teamIds)
  }

  ghost predicate EndpointsValid(endpoints: map<Id, Endpoint>, collectionIds: set<Id>) {
    forall k :: k in endpoints ==>
      endpoints[k].id == k && AllFit(EndpointColumns(endpoints[k])) && endpoints[k].collectionId in collectionIds
  }

  ghost predicate TemplatesValid(templates: map<Id, RequestTemplate>, endpointIds: set<Id>) {
    forall k :: k in templates ==>
      templates[k].id == k && AllFit(TemplateColumns(templates[k])) && templates[k].endpointId in endpointIds
  }

  ghost predicate HistoryValid(history: map<Id, ResponseHistory>, endpointIds: set<Id>) {
    forall k :: k in history ==>
      history[k].id == k && AllFit(HistoryColumns(history[k])) && history[k].endpointId in endpointIds
  }

  /** The constraints the schema declares, over the whole store. */
  ghost predicate Valid(db: Db): (ok: bool)
    ensures ok ==> forall t :: t !in db.teams ==> Members(db, t) == {} && TeamCollections(db, t) == {}
    ensures ok ==> forall c :: c !in db.collections ==> CollectionEndpoints(db, c) == {}
    ensures ok ==> forall e :: e !in db.endpoints ==> EndpointTemplates(db, e) == {} && EndpointHistory(db, e) == {}
  {
    && TeamsValid(db.teams)
    && MembersValid(db.members, db.teams.Keys)
    && CollectionsValid(db.collections, db.teams.Keys)
    && EndpointsValid(db.endpoints, db.collections.Keys)
    && TemplatesValid(db.templates, db.endpoints.Keys)
    && HistoryValid(db.history, db.endpoints.Keys)
  }

  // Navigation properties, derived from the foreign keys.

  /** `Team.Members`. */
  function Members(db: Db, t: Id): (r: set<Id>)
    ensures r <= db.members.Keys
    ensures forall k :: k in db.members ==> (k in r <==> db.members[k].teamId == t)
  {
    set k | k in db.members && db.members[k].teamId == t
  }

  /** `Team.Collections`. */
  function TeamCollections(db: Db, t: Id): (r: set<Id>)
    ensures r <= db.collections.Keys
    ensures forall k :: k in db.collections ==> (k in r <==> db.collections[k].teamId == Value(t))
  {
    set k | k in db.collections && db.collections[k].teamId == Value(t)
  }

  /** `Collection.Endpoints`. */
  function CollectionEndpoints(db: Db, c: Id): (r: set<Id>)
    ensures r <= db.endpoints.Keys
    ensures forall k :: k in db.endpoints ==> (k in r <==> db.endpoints[k].collectionId == c)
  {
    set k | k in db.endpoints && db.endpoints[k].collectionId == c
  }

  /** The templates of any endpoint in `es`. */
  function TemplatesUnder(db: Db, es: set<Id>): set<Id> {
    set k | k in db.templates && db.templates[k].endpointId in es
  }

  /** The response history rows of any endpoint in `es`. */
  function HistoryUnder(db: Db, es: set<Id>): set<Id> {
    set k | k in db.history && db.history[k].endpointId in es
  }

  /** `Endpoint.Templates`. */
  function EndpointTemplates(db: Db, e: Id): (r: set<Id>)
    ensures r <= db.templates.Keys
    ensures forall k :: k in db.templates ==> (k in r <==> db.templates[k].endpointId == e)
  {
    TemplatesUnder(db, {e})
  }

  /** `Endpoint.ResponseHistory`. */
  function EndpointHistory(db: Db, e: Id): (r: set<Id>)
    ensures r <= db.history.Keys
    ensures forall k :: k in db.history ==> (k in r <==> db.history[k].endpointId == e)
  {
    HistoryUnder(db, {e})
  }

  /** The table `m` without the rows keyed in `drop`. */
  function Without<V>(m: map<Id, V>, drop: set<Id>): (r: map<Id, V>)
    ensures r.Keys == m.Keys - drop
    ensures forall k :: k in r ==> r[k] == m[k]
  {
    map k | k in m && k !in drop :: m[k]
  }

  /** The empty store satisfies every constraint. */
  lemma EmptyDbValid()
    ensures Valid(EmptyDb)
  {
  }

  /** Freshly constructed rows respect every column bound. */
  lemma NewRowsFit(id: Id, now: DateTime)
    ensures AllFit(TeamColumns(NewTeam(id)))
    ensures AllFit(MemberColumns(NewTeamMember(id)))
    ensures AllFit(CollectionColumns(NewCollection(id)))
    ensures AllFit(EndpointColumns(NewEndpoint(id)))
    ensures AllFit(TemplateColumns(NewRequestTemplate(id)))
    ensures AllFit(HistoryColumns(NewResponseHistory(id, now)))
  {
  }

  /** `TeamMember.TeamId` is not nullable: a member is in exactly one team's `Members`. */
  lemma MemberInExactlyOneTeam(db: Db, k: Id)
    requires Valid(db) && k in db.members
    ensures db.members[k].teamId in db.teams
    ensures forall t :: k in Members(db, t) <==> t == db.members[k].teamId
  {
  }

  /** `Collection.TeamId` is nullable: a personal collection is in no team's
      `Collections`, a team collection in exactly its team's. */
  lemma CollectionInAtMostOneTeam(db: Db, k: Id)
    requires Valid(db) && k in db.collections
    ensures db.collections[k].teamId.Null? ==> forall t :: k !in TeamCollections(db, t)
    ensures db.collections[k].teamId.Value? ==>
      && db.collections[k].teamId.value in db.teams
      && forall t :: k in TeamCollections(db, t) <==> t == db.collections[k].teamId.value
  {
  }

  /** `Endpoint.CollectionId` is not nullable: an endpoint is in exactly one collection. */
  lemma EndpointInExactlyOneCollection(db: Db, k: Id)
    requires Valid(db) && k in db.endpoints
    ensures db.endpoints[k].collectionId in db.collections
    ensures forall c :: k in CollectionEndpoints(db, c) <==> c == db.endpoints[k].collectionId
  {
  }

  /** `RequestTemplate.EndpointId` is not nullable: a template is in exactly one endpoint. */
  lemma TemplateInExactlyOneEndpoint(db: Db, k: Id)
    requires Valid(db) && k in db.templates
    ensures db.templates[k].endpointId in db.endpoints
    ensures forall e :: k in EndpointTemplates(db, e) <==> e == db.templates[k].endpointId
  {
  }

  /** `ResponseHistory.EndpointId` is not nullable: a row is in exactly one endpoint. */
  lemma HistoryInExactlyOneEndpoint(db: Db, k: Id)
    requires Valid(db) && k in db.history
    ensures db.history[k].endpointId in db.endpoints
    ensures forall e :: k in EndpointHistory(db, e) <==> e == db.history[k].endpointId
  {
  }
}
