/** Validated inserts. A row is written only if every bounded column fits, its
    key is new, the unique index is respected and the referenced parent exists;
    otherwise the write is refused with the error naming the first violation,
    checked in that order. */
module Inserts {
  import opened Clr
  import opened Entities
  import opened Database

  /** `e` reports the first column of `cols`, in declaration order, that exceeds
      its bound. */
  ghost predicate ReportsFirstTooLong(e: DbError, cols: seq<Column>) {
    exists i :: 0 <= i < |cols| && !Fits(cols[i]) && AllFit(cols[..i])
      && e == ValueTooLong(cols[i].field, cols[i].maxLength)
  }

  /** At most one error reports the first over-long column: the length error of
      a row is determined by the row. */
  lemma FirstTooLongReportUnique(e1: DbError, e2: DbError, cols: seq<Column>)
    requires ReportsFirstTooLong(e1, cols) && ReportsFirstTooLong(e2, cols)
    ensures e1 == e2
  {
  }

  /** The error for the first over-long column, if any. */
  function LengthError(cols: seq<Column>): (r: Nullable<DbError>)
    ensures r.Null? <==> AllFit(cols)
    ensures r.Value? ==> ReportsFirstTooLong(r.value, cols)
  {
    var bad := FirstTooLong(cols);
    if bad.Value? then Value(ValueTooLong(bad.value.field, bad.value.maxLength)) else Null
  }

  /** An existing member already joins `m.userId` to `m.teamId`: exactly the case
      in which adding `m` under a fresh key would break the unique index. */
  predicate MembershipTaken(members: map<Id, TeamMember>, m: TeamMember): (taken: bool)
    ensures MembershipUnique(members) && m.id !in members ==>
      (taken <==> !MembershipUnique(members[m.id := m]))
  {
    var taken := exists k :: k in members && members[k].userId == m.userId && members[k].teamId == m.teamId;
    assert MembershipUnique(members) && m.id !in members ==>
      (taken <==> !MembershipUnique(members[m.id := m])) by {
      if MembershipUnique(members) && m.id !in members {
        var grown := members[m.id := m];
        if taken {
          var k :| k in members && members[k].userId == m.userId && members[k].teamId == m.teamId;
          assert k in grown && m.id in grown && k != m.id && grown[k] == members[k] && grown[m.id] == m;
        } else {
          forall a, b | a in grown && b in grown && a != b
            ensures !(grown[a].userId == grown[b].userId && grown[a].teamId == grown[b].teamId)
          {
            if a == m.id {
              assert b in members;
            } else if b == m.id {
              assert a in members;
            }
          }
        }
      }
    }
    taken
  }

  function InsertTeam(db: Db, t: Team): (r: Result<Db>)
    ensures r.Ok? <==> AllFit(TeamColumns(t)) && t.id !in db.teams
    ensures r.Ok? ==> r.value == db.(teams := db.teams[t.id := t])
    ensures r.Err? && !AllFit(TeamColumns(t)) ==> ReportsFirstTooLong(r.error, TeamColumns(t))
    ensures r.Err? && AllFit(TeamColumns(t)) ==> r.error == DuplicateKey(t.id)
    ensures AllFit(TeamColumns(t)) && t.id in db.teams ==> r == Err(DuplicateKey(t.id))
  {
    var tooLong := LengthError(TeamColumns(t));
    if tooLong.Value? then Err(tooLong.value)
    else if t.id in db.teams then Err(DuplicateKey(t.id))
    else Ok(db.(teams := db.teams[t.id := t]))
  }

  function InsertTeamMember(db: Db, m: TeamMember): (r: Result<Db>)
    ensures r.Ok? <==>
      && AllFit(MemberColumns(m)) && m.id !in db.members
      && !MembershipTaken(db.members, m) && m.teamId in db.teams
    ensures r.Ok? ==> r.value == db.(members := db.members[m.id := m])
    ensures r.Err? && !AllFit(MemberColumns(m)) ==> ReportsFirstTooLong(r.error, MemberColumns(m))
    ensures r.Err? && r.error.DuplicateMembership? ==>
      r.error == DuplicateMembership(m.userId, m.teamId) && MembershipTaken(db.members, m)
    ensures r.Err? && r.error.MissingParent? ==> r.error.parentId == m.teamId && m.teamId !in db.teams
    ensures r.Err? && r.error.DuplicateKey? ==> r.error.id == m.id && m.id in db.members
    ensures r.Err? && AllFit(MemberColumns(m)) ==>
      r.error == DuplicateKey(m.id) || r.error == DuplicateMembership(m.userId, m.teamId) || r.error == MissingParent(m.teamId)
    ensures AllFit(MemberColumns(m)) && m.id in db.members ==> r == Err(DuplicateKey(m.id))
    ensures AllFit(MemberColumns(m)) && m.id !in db.members && MembershipTaken(db.members, m) ==>
      r == Err(DuplicateMembership(m.userId, m.teamId))
  {
    var tooLong := LengthError(MemberColumns(m));
    if tooLong.Value? then Err(tooLong.value)
    else if m.id in db.members then Err(DuplicateKey(m.id))
    else if MembershipTaken(db.members, m) then Err(DuplicateMembership(m.userId, m.teamId))
    else if m.teamId !in db.teams then Err(MissingParent(m.teamId))
    else Ok(db.(members := db.members[m.id := m]))
  }

  function InsertCollection(db: Db, c: Collection): (r: Result<Db>)
    ensures r.Ok? <==>
      && AllFit(CollectionColumns(c)) && c.id !in db.collections
      && (c.teamId.Value? ==> c.teamId.value in db.teams)
    ensures r.Ok? ==> r.value == db.(collections := db.collections[c.id := c])
    ensures r.Err? && !AllFit(CollectionColumns(c)) ==> ReportsFirstTooLong(r.error, CollectionColumns(c))
    ensures r.Err? && r.error.MissingParent? ==>
      c.teamId == Value(r.error.parentId) && r.error.parentId !in db.teams
    ensures r.Err? && r.error.DuplicateKey? ==> r.error.id == c.id && c.id in db.collections
    ensures r.Err? && AllFit(CollectionColumns(c)) ==>
      r.error == DuplicateKey(c.id) || (c.teamId.Value? && r.error == MissingParent(c.teamId.value))
    ensures AllFit(CollectionColumns(c)) && c.id in db.collections ==> r == Err(DuplicateKey(c.id))
  {
    var tooLong := LengthError(CollectionColumns(c));
    if tooLong.Value? then Err(tooLong.value)
    else if c.id in db.collections then Err(DuplicateKey(c.id))
    else if c.teamId.Value? && c.teamId.value !in db.teams then Err(MissingParent(c.teamId.value))
    else Ok(db.(collections := db.collections[c.id := c]))
  }

  function InsertEndpoint(db: Db, e: Endpoint): (r: Result<Db>)
    ensures r.Ok? <==>
      AllFit(EndpointColumns(e)) && e.id !in db.endpoints && e.collectionId in db.collections
    ensures r.Ok? ==> r.value == db.(endpoints := db.endpoints[e.id := e])
    ensures r.Err? && !AllFit(EndpointColumns(e)) ==> ReportsFirstTooLong(r.error, EndpointColumns(e))
    ensures r.Err? && r.error.MissingParent? ==>
      r.error.parentId == e.collectionId && e.collectionId !in db.collections
    ensures r.Err? && r.error.DuplicateKey? ==> r.error.id == e.id && e.id in db.endpoints
    ensures r.Err? && AllFit(EndpointColumns(e)) ==>
      r.error == DuplicateKey(e.id) || r.error == MissingParent(e.collectionId)
    ensures AllFit(EndpointColumns(e)) && e.id in db.endpoints ==> r == Err(DuplicateKey(e.id))
  {
    var tooLong := LengthError(EndpointColumns(e));
    if tooLong.Value? then Err(tooLong.value)
    else if e.id in db.endpoints then Err(DuplicateKey(e.id))
    else if e.collectionId !in db.collections then Err(MissingParent(e.collectionId))
    else Ok(db.(endpoints := db.endpoints[e.id := e]))
  }

  /** Headers, Body and AuthConfig are accepted whatever they contain. */
  function InsertRequestTemplate(db: Db, t: RequestTemplate): (r: Result<Db>)
    ensures r.Ok? <==>
      AllFit(TemplateColumns(t)) && t.id !in db.templates && t.endpointId in db.endpoints
    ensures r.Ok? ==> r.value == db.(templates := db.templates[t.id := t])
    ensures r.Err? && !AllFit(TemplateColumns(t)) ==> ReportsFirstTooLong(r.error, TemplateColumns(t))
    ensures r.Err? && r.error.MissingParent? ==>
      r.error.parentId == t.endpointId && t.endpointId !in db.endpoints
    ensures r.Err? && r.error.DuplicateKey? ==> r.error.id == t.id && t.id in db.templates
    ensures r.Err? && AllFit(TemplateColumns(t)) ==>
      r.error == DuplicateKey(t.id) || r.error == MissingParent(t.endpointId)
    ensures AllFit(TemplateColumns(t)) && t.id in db.templates ==> r == Err(DuplicateKey(t.id))
  {
    var tooLong := LengthError(TemplateColumns(t));
    if tooLong.Value? then Err(tooLong.value)
    else if t.id in db.templates then Err(DuplicateKey(t.id))
    else if t.endpointId !in db.endpoints then Err(MissingParent(t.endpointId))
    else Ok(db.(templates := db.templates[t.id := t]))
  }

  /** Headers and Body are accepted whatever they contain. */
  function InsertResponseHistory(db: Db, h: ResponseHistory): (r: Result<Db>)
    ensures r.Ok? <==>
      AllFit(HistoryColumns(h)) && h.id !in db.history && h.endpointId in db.endpoints
    ensures r.Ok? ==> r.value == db.(history := db.history[h.id := h])
    ensures r.Err? && !AllFit(HistoryColumns(h)) ==> ReportsFirstTooLong(r.error, HistoryColumns(h))
    ensures r.Err? && r.error.MissingParent? ==>
      r.error.parentId == h.endpointId && h.endpointId !in db.endpoints
    ensures r.Err? && r.error.DuplicateKey? ==> r.error.id == h.id && h.id in db.history
    ensures r.Err? && AllFit(HistoryColumns(h)) ==>
      r.error == DuplicateKey(h.id) || r.error == MissingParent(h.endpointId)
    ensures AllFit(HistoryColumns(h)) && h.id in db.history ==> r == Err(DuplicateKey(h.id))
  {
    var tooLong := LengthError(HistoryColumns(h));
    if tooLong.Value? then Err(tooLong.value)
    else if h.id in db.history then Err(DuplicateKey(h.id))
    else if h.endpointId !in db.endpoints then Err(MissingParent(h.endpointId))
    else Ok(db.(history := db.history[h.id := h]))
  }

  // Each insert keeps the store valid.

  lemma InsertTeamPreservesValid(db: Db, t: Team)
    requires Valid(db) && InsertTeam(db, t).Ok?
    ensures Valid(InsertTeam(db, t).value)
  {
  }

  lemma InsertTeamMemberPreservesValid(db: Db, m: TeamMember)
    requires Valid(db) && InsertTeamMember(db, m).Ok?
    ensures Valid(InsertTeamMember(db, m).value)
  {
    var db' := InsertTeamMember(db, m).value;
    forall a, b | a in db'.members && b in db'.members && a != b
      ensures !(db'.members[a].userId == db'.members[b].userId && db'.members[a].teamId == db'.members[b].teamId)
    {
      if a == m.id || b == m.id {
        var other := if a == m.id then b else a;
        assert other in db.members;
        assert !(db.members[other].userId == m.userId && db.members[other].teamId == m.teamId);
      }
    }
  }

  lemma InsertCollectionPreservesValid(db: Db, c: Collection)
    requires Valid(db) && InsertCollection(db, c).Ok?
    ensures Valid(InsertCollection(db, c).value)
  {
  }

  lemma InsertEndpointPreservesValid(db: Db, e: Endpoint)
    requires Valid(db) && InsertEndpoint(db, e).Ok?
    ensures Valid(InsertEndpoint(db, e).value)
  {
  }

  lemma InsertRequestTemplatePreservesValid(db: Db, t: RequestTemplate)
    requires Valid(db) && InsertRequestTemplate(db, t).Ok?
    ensures Valid(InsertRequestTemplate(db, t).value)
  {
  }

  lemma InsertResponseHistoryPreservesValid(db: Db, h: ResponseHistory)
    requires Valid(db) && InsertResponseHistory(db, h).Ok?
    ensures Valid(InsertResponseHistory(db, h).value)
  {
  }

  /** The unique index refuses a second membership of the same user in the same
      team, whatever the new row's key and role. */
  lemma DuplicateMembershipRejected(db: Db, m: TeamMember, k: Id)
    requires k in db.members && db.members[k].userId == m.userId && db.members[k].teamId == m.teamId
    ensures InsertTeamMember(db, m).Err?
  {
  }

  /** The index is on the pair: a user already in other teams may still join `m.teamId`. */
  lemma SameUserOtherTeamAccepted(db: Db, m: TeamMember)
    requires AllFit(MemberColumns(m)) && m.id !in db.members && m.teamId in db.teams
    requires forall k :: k in db.members && db.members[k].userId == m.userId ==> db.members[k].teamId != m.teamId
    ensures InsertTeamMember(db, m).Ok?
  {
  }

  /** Headers, Body and AuthConfig are opaque text: whether a template is
      accepted does not depend on them, so neither malformed JSON nor any length
      is refused. */
  lemma TemplateTextUnchecked(db: Db, t: RequestTemplate, headers: string, body: string, authConfig: string)
    ensures InsertRequestTemplate(db, t.(headers := headers, body := body, authConfig := authConfig)).Ok?
        <==> InsertRequestTemplate(db, t).Ok?
  {
  }

  /** Response Headers and Body are opaque text: acceptance does not depend on them. */
  lemma HistoryTextUnchecked(db: Db, h: ResponseHistory, headers: string, body: string)
    ensures InsertResponseHistory(db, h.(headers := headers, body := body)).Ok?
        <==> InsertResponseHistory(db, h).Ok?
  {
  }

  /** A newly inserted team has no members and no collections. */
  lemma NewTeamHasNoChildren(db: Db, t: Team)
    requires Valid(db) && InsertTeam(db, t).Ok?
    ensures Members(InsertTeam(db, t).value, t.id) == {}
    ensures TeamCollections(InsertTeam(db, t).value, t.id) == {}
  {
  }

  /** A newly inserted collection has no endpoints. */
  lemma NewCollectionHasNoEndpoints(db: Db, c: Collection)
    requires Valid(db) && InsertCollection(db, c).Ok?
    ensures CollectionEndpoints(InsertCollection(db, c).value, c.id) == {}
  {
  }

  /** A newly inserted endpoint has no templates and no response history. */
  lemma NewEndpointHasNoChildren(db: Db, e: Endpoint)
    requires Valid(db) && InsertEndpoint(db, e).Ok?
    ensures EndpointTemplates(InsertEndpoint(db, e).value, e.id) == {}
    ensures EndpointHistory(InsertEndpoint(db, e).value, e.id) == {}
  {
  }
}
