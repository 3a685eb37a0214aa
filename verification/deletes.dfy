/** Deletes with the referential actions the schema declares, in the sense of
    ON DELETE CASCADE and ON DELETE SET NULL (subclause 11.8 of ISO/IEC 9075-2):
    - a Team takes its TeamMembers with it and turns its Collections personal;
    - a Collection takes its Endpoints with it;
    - an Endpoint takes its RequestTemplates and ResponseHistory with it.
    Each delete is atomic: the function returns the store after the whole
    propagation, or an error and no change. */
module Deletes {
  import opened Clr
  import opened Entities
  import opened Database

  /** The collections keyed in `owned`, made personal (ON DELETE SET NULL). */
  function Detach(cs: map<Id, Collection>, owned: set<Id>): (r: map<Id, Collection>)
    ensures r.Keys == cs.Keys
  {
    map k | k in cs :: if k in owned then cs[k].(teamId := Null) else cs[k]
  }

  // What each delete leaves behind, row by row.

  /** `after` is `before` once team `t` is deleted. */
  ghost predicate TeamDeleted(before: Db, t: Id, after: Db) {
    && after.teams.Keys == before.teams.Keys - {t}
    && (forall k :: k in after.teams ==> after.teams[k] == before.teams[k])
    && (forall k :: k in after.members <==> k in before.members && before.members[k].teamId != t)
    && (forall k :: k in after.members ==> after.members[k] == before.members[k])
    && after.collections.Keys == before.collections.Keys
    && (forall k :: k in before.collections ==>
          after.collections[k] ==
            if before.collections[k].teamId == Value(t) then before.collections[k].(teamId := Null)
            else before.collections[k])
    && after.endpoints == before.endpoints
    && after.templates == before.templates
    && after.history == before.history
  }

  /** `after` is `before` once collection `c` is deleted. */
  ghost predicate CollectionDeleted(before: Db, c: Id, after: Db) {
    && after.teams == before.teams
    && after.members == before.members
    && after.collections.Keys == before.collections.Keys - {c}
    && (forall k :: k in after.collections ==> after.collections[k] == before.collections[k])
    && (forall k :: k in after.endpoints <==> k in before.endpoints && before.endpoints[k].collectionId != c)
    && (forall k :: k in after.endpoints ==> after.endpoints[k] == before.endpoints[k])
    && (forall k :: k in after.templates <==>
          k in before.templates && before.templates[k].endpointId !in CollectionEndpoints(before, c))
    && (forall k :: k in after.templates ==> after.templates[k] == before.templates[k])
    && (forall k :: k in after.history <==>
          k in before.history && before.history[k].endpointId !in CollectionEndpoints(before, c))
    && (forall k :: k in after.history ==> after.history[k] == before.history[k])
  }

  /** `after` is `before` once endpoint `e` is deleted. */
  ghost predicate EndpointDeleted(before: Db, e: Id, after: Db) {
    && after.teams == before.teams
    && after.members == before.members
    && after.collections == before.collections
    && after.endpoints.Keys == before.endpoints.Keys - {e}
    && (forall k :: k in after.endpoints ==> after.endpoints[k] == before.endpoints[k])
    && (forall k :: k in after.templates <==> k in before.templates && before.templates[k].endpointId != e)
    && (forall k :: k in after.templates ==> after.templates[k] == before.templates[k])
    && (forall k :: k in after.history <==> k in before.history && before.history[k].endpointId != e)
    && (forall k :: k in after.history ==> after.history[k] == before.history[k])
  }

  function DeleteTeam(db: Db, t: Id): (r: Result<Db>)
    ensures r.Ok? <==> t in db.teams
    ensures r.Err? ==> r.error == NotFound(t)
    ensures r.Ok? ==> TeamDeleted(db, t, r.value)
  {
    if t !in db.teams then Err(NotFound(t))
    else Ok(db.(teams := db.teams - {t},
                members := Without(db.members, Members(db, t)),
                collections := Detach(db.collections, TeamCollections(db, t))))
  }

  function DeleteCollection(db: Db, c: Id): (r: Result<Db>)
    ensures r.Ok? <==> c in db.collections
    ensures r.Err? ==> r.error == NotFound(c)
    ensures r.Ok? ==> CollectionDeleted(db, c, r.value)
  {
    if c !in db.collections then Err(NotFound(c))
    else
      var es := CollectionEndpoints(db, c);
      Ok(db.(collections := db.collections - {c},
             endpoints := Without(db.endpoints, es),
             templates := Without(db.templates, TemplatesUnder(db, es)),
             history := Without(db.history, HistoryUnder(db, es))))
  }

  function DeleteEndpoint(db: Db, e: Id): (r: Result<Db>)
    ensures r.Ok? <==> e in db.endpoints
    ensures r.Err? ==> r.error == NotFound(e)
    ensures r.Ok? ==> EndpointDeleted(db, e, r.value)
  {
    if e !in db.endpoints then Err(NotFound(e))
    else Ok(db.(endpoints := db.endpoints - {e},
                templates := Without(db.templates, EndpointTemplates(db, e)),
                history := Without(db.history, EndpointHistory(db, e))))
  }

  // Rows nothing references: deleting them propagates nowhere.

  function DeleteTeamMember(db: Db, k: Id): (r: Result<Db>)
    ensures r.Ok? <==> k in db.members
    ensures r.Err? ==> r.error == NotFound(k)
    ensures r.Ok? ==> r.value.members.Keys == db.members.Keys - {k}
    ensures r.Ok? ==> forall j :: j in r.value.members ==> r.value.members[j] == db.members[j]
    ensures r.Ok? ==> r.value.(members := db.members) == db
  {
    if k !in db.members then Err(NotFound(k)) else Ok(db.(members := db.members - {k}))
  }

  function DeleteRequestTemplate(db: Db, k: Id): (r: Result<Db>)
    ensures r.Ok? <==> k in db.templates
    ensures r.Err? ==> r.error == NotFound(k)
    ensures r.Ok? ==> r.value.templates.Keys == db.templates.Keys - {k}
    ensures r.Ok? ==> forall j :: j in r.value.templates ==> r.value.templates[j] == db.templates[j]
    ensures r.Ok? ==> r.value.(templates := db.templates) == db
  {
    if k !in db.templates then Err(NotFound(k)) else Ok(db.(templates := db.templates - {k}))
  }

  function DeleteResponseHistory(db: Db, k: Id): (r: Result<Db>)
    ensures r.Ok? <==> k in db.history
    ensures r.Err? ==> r.error == NotFound(k)
    ensures r.Ok? ==> r.value.history.Keys == db.history.Keys - {k}
    ensures r.Ok? ==> forall j :: j in r.value.history ==> r.value.history[j] == db.history[j]
    ensures r.Ok? ==> r.value.(history := db.history) == db
  {
    if k !in db.history then Err(NotFound(k)) else Ok(db.(history := db.history - {k}))
  }

  // Each delete keeps the store valid: the referential actions leave no dangling key.

  lemma DeleteTeamPreservesValid(db: Db, t: Id)
    requires Valid(db) && t in db.teams
    ensures Valid(DeleteTeam(db, t).value)
  {
    var db' := DeleteTeam(db, t).value;
    assert TeamDeleted(db, t, db');
  }

  lemma DeleteCollectionPreservesValid(db: Db, c: Id)
    requires Valid(db) && c in db.collections
    ensures Valid(DeleteCollection(db, c).value)
  {
    var db' := DeleteCollection(db, c).value;
    assert CollectionDeleted(db, c, db');
  }

  lemma DeleteEndpointPreservesValid(db: Db, e: Id)
    requires Valid(db) && e in db.endpoints
    ensures Valid(DeleteEndpoint(db, e).value)
  {
    var db' := DeleteEndpoint(db, e).value;
    assert EndpointDeleted(db, e, db');
  }

  lemma DeleteTeamMemberPreservesValid(db: Db, k: Id)
    requires Valid(db) && k in db.members
    ensures Valid(DeleteTeamMember(db, k).value)
  {
  }

  lemma DeleteRequestTemplatePreservesValid(db: Db, k: Id)
    requires Valid(db) && k in db.templates
    ensures Valid(DeleteRequestTemplate(db, k).value)
  {
  }

  lemma DeleteResponseHistoryPreservesValid(db: Db, k: Id)
    requires Valid(db) && k in db.history
    ensures Valid(DeleteResponseHistory(db, k).value)
  {
  }

  /** After a team is deleted nothing refers to it any more; its collections
      survive as personal ones with their owner, text and endpoints intact. */
  lemma DeleteTeamDetachesCollections(db: Db, t: Id)
    requires Valid(db) && t in db.teams
    ensures Members(DeleteTeam(db, t).value, t) == {}
    ensures TeamCollections(DeleteTeam(db, t).value, t) == {}
    ensures forall c :: c in TeamCollections(db, t) ==>
      var after := DeleteTeam(db, t).value;
      && c in after.collections
      && after.collections[c].teamId.Null?
      && after.collections[c].ownerId == db.collections[c].ownerId
      && after.collections[c].name == db.collections[c].name
      && after.collections[c].description == db.collections[c].description
      && CollectionEndpoints(after, c) == CollectionEndpoints(db, c)
  {
    var after := DeleteTeam(db, t).value;
    assert TeamDeleted(db, t, after);
  }

  /** Deleting a collection removes its whole subtree: its endpoints, and every
      template and history row under them. */
  lemma DeleteCollectionRemovesSubtree(db: Db, c: Id)
    requires Valid(db) && c in db.collections
    ensures forall e :: e in CollectionEndpoints(db, c) ==>
      var after := DeleteCollection(db, c).value;
      e !in after.endpoints && EndpointTemplates(after, e) == {} && EndpointHistory(after, e) == {}
  {
    var after := DeleteCollection(db, c).value;
    assert CollectionDeleted(db, c, after);
    forall e | e in CollectionEndpoints(db, c)
      ensures e !in after.endpoints && EndpointTemplates(after, e) == {} && EndpointHistory(after, e) == {}
    {
      forall k | k in after.templates ensures after.templates[k].endpointId != e {
        assert db.templates[k].endpointId !in CollectionEndpoints(db, c);
      }
      forall k | k in after.history ensures after.history[k].endpointId != e {
        assert db.history[k].endpointId !in CollectionEndpoints(db, c);
      }
    }
  }

  /** Deleting a collection leaves every endpoint of other collections in place,
      with all its templates and history rows. */
  lemma DeleteCollectionKeepsOtherEndpoints(db: Db, c: Id)
    requires Valid(db) && c in db.collections
    ensures forall e :: e in db.endpoints && db.endpoints[e].collectionId != c ==>
      var after := DeleteCollection(db, c).value;
      && e in after.endpoints
      && EndpointTemplates(after, e) == EndpointTemplates(db, e)
      && EndpointHistory(after, e) == EndpointHistory(db, e)
  {
    var after := DeleteCollection(db, c).value;
    assert CollectionDeleted(db, c, after);
    forall e | e in db.endpoints && db.endpoints[e].collectionId != c
      ensures && e in after.endpoints
              && EndpointTemplates(after, e) == EndpointTemplates(db, e)
              && EndpointHistory(after, e) == EndpointHistory(db, e)
    {
      assert e !in CollectionEndpoints(db, c);
    }
  }
}
