/** The referential actions carried out one row at a time: each procedure
    visits the dependent rows in any order, applies to each the single-row
    operation (a delete, or setting the team key to null), and removes the
    parent row last. Each is proved to reach exactly the store the declarative
    delete of `Deletes` describes, so the order of visits does not matter and
    no partial state escapes. */
module Cascade {
  import opened Clr
  import opened Entities
  import opened Database
  import opened Deletes

  /** Removing two key sets one after the other removes their union. */
  lemma WithoutTwice<V>(m: map<Id, V>, a: set<Id>, b: set<Id>)
    ensures Without(Without(m, a), b) == Without(m, a + b)
  {
    assert Without(Without(m, a), b).Keys == Without(m, a + b).Keys;
  }

  /** Removing key sets that agree on the keys of `m` gives the same table. */
  lemma WithoutAgree<V>(m: map<Id, V>, a: set<Id>, b: set<Id>)
    requires forall k :: k in m ==> (k in a <==> k in b)
    ensures Without(m, a) == Without(m, b)
  {
    assert Without(m, a).Keys == Without(m, b).Keys;
  }

  /** Set the team key of collection `k` to null, leaving every other field and row. */
  function NullifyTeam(db: Db, k: Id): (r: Db)
    requires k in db.collections
    ensures r.collections.Keys == db.collections.Keys
    ensures r.collections[k].teamId.Null?
    ensures r.collections[k].(teamId := db.collections[k].teamId) == db.collections[k]
    ensures forall j :: j in db.collections && j != k ==> r.collections[j] == db.collections[j]
    ensures r.(collections := db.collections) == db
  {
    db.(collections := db.collections[k := db.collections[k].(teamId := Null)])
  }

  /** Delete the templates of endpoint `e` one at a time. */
  method DeleteTemplatesOneByOne(db: Db, e: Id) returns (cur: Db)
    ensures cur == db.(templates := Without(db.templates, EndpointTemplates(db, e)))
  {
    var templates := EndpointTemplates(db, e);
    cur := db;
    var pending := templates;
    while pending != {}
      invariant pending <= templates
      invariant cur == db.(templates := Without(db.templates, templates - pending))
      decreases pending
    {
      var k :| k in pending;
      cur := DeleteRequestTemplate(cur, k).value;
      WithoutTwice(db.templates, templates - pending, {k});
      assert templates - pending + {k} == templates - (pending - {k});
      pending := pending - {k};
    }
    assert templates - pending == templates;
  }

  /** Delete the response history rows of endpoint `e` one at a time. */
  method DeleteHistoryOneByOne(db: Db, e: Id) returns (cur: Db)
    ensures cur == db.(history := Without(db.history, EndpointHistory(db, e)))
  {
    var rows := EndpointHistory(db, e);
    cur := db;
    var pending := rows;
    while pending != {}
      invariant pending <= rows
      invariant cur == db.(history := Without(db.history, rows - pending))
      decreases pending
    {
      var k :| k in pending;
      cur := DeleteResponseHistory(cur, k).value;
      WithoutTwice(db.history, rows - pending, {k});
      assert rows - pending + {k} == rows - (pending - {k});
      pending := pending - {k};
    }
    assert rows - pending == rows;
  }

  method CascadeDeleteEndpoint(db: Db, e: Id) returns (r: Result<Db>)
    ensures r == DeleteEndpoint(db, e)
  {
    if e !in db.endpoints {
      return Err(NotFound(e));
    }
    var cur := DeleteTemplatesOneByOne(db, e);
    assert EndpointHistory(cur, e) == EndpointHistory(db, e);
    cur := DeleteHistoryOneByOne(cur, e);
    cur := cur.(endpoints := cur.endpoints - {e});
    assert cur == DeleteEndpoint(db, e).value;
    return Ok(cur);
  }

  method CascadeDeleteCollection(db: Db, c: Id) returns (r: Result<Db>)
    ensures r == DeleteCollection(db, c)
  {
    if c !in db.collections {
      return Err(NotFound(c));
    }
    var endpoints := CollectionEndpoints(db, c);
    var cur := db;
    var pending := endpoints;
    while pending != {}
      invariant pending <= endpoints
      invariant cur == db.(endpoints := Without(db.endpoints, endpoints - pending),
                           templates := Without(db.templates, TemplatesUnder(db, endpoints - pending)),
                           history := Without(db.history, HistoryUnder(db, endpoints - pending)))
      decreases pending
    {
      var e :| e in pending;
      var done := endpoints - pending;
      var step := CascadeDeleteEndpoint(cur, e);
      WithoutTwice(db.endpoints, done, {e});
      WithoutTwice(db.templates, TemplatesUnder(db, done), EndpointTemplates(cur, e));
      WithoutAgree(db.templates, TemplatesUnder(db, done) + EndpointTemplates(cur, e), TemplatesUnder(db, done + {e}));
      WithoutTwice(db.history, HistoryUnder(db, done), EndpointHistory(cur, e));
      WithoutAgree(db.history, HistoryUnder(db, done) + EndpointHistory(cur, e), HistoryUnder(db, done + {e}));
      assert done + {e} == endpoints - (pending - {e});
      cur := step.value;
      pending := pending - {e};
    }
    assert endpoints - pending == endpoints;
    cur := cur.(collections := cur.collections - {c});
    assert cur == DeleteCollection(db, c).value;
    return Ok(cur);
  }

  method CascadeDeleteTeam(db: Db, t: Id) returns (r: Result<Db>)
    ensures r == DeleteTeam(db, t)
  {
    if t !in db.teams {
      return Err(NotFound(t));
    }
    var members := Members(db, t);
    var cur := db;
    var pending := members;
    while pending != {}
      invariant pending <= members
      invariant cur == db.(members := Without(db.members, members - pending))
      decreases pending
    {
      var k :| k in pending;
      cur := DeleteTeamMember(cur, k).value;
      WithoutTwice(db.members, members - pending, {k});
      assert members - pending + {k} == members - (pending - {k});
      pending := pending - {k};
    }
    assert members - pending == members;
    var owned := TeamCollections(db, t);
    pending := owned;
    while pending != {}
      invariant pending <= owned
      invariant cur == db.(members := Without(db.members, members),
                           collections := Detach(db.collections, owned - pending))
      decreases pending
    {
      var k :| k in pending;
      var next := NullifyTeam(cur, k);
      assert next.collections == Detach(db.collections, owned - (pending - {k}));
      cur := next;
      pending := pending - {k};
    }
    assert owned - pending == owned;
    cur := cur.(teams := cur.teams - {t});
    assert cur == DeleteTeam(db, t).value;
    return Ok(cur);
  }
}
