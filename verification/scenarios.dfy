/** Concrete runs from the empty store: set-null on team deletion, the URL
    bound, the membership index, the stored HTTP method. */
module Scenarios {
  import opened Clr
  import opened Enums
  import opened Entities
  import opened Database
  import opened Inserts
  import opened Deletes

  /** Team 1 owned by "u1", then collection 1 in that team, then the team is
      deleted: the collection survives as a personal one owned by "u1". */
  lemma TeamDeletionKeepsCollection()
    ensures
      var team := NewTeam(1).(name := "T1", ownerId := "u1");
      var coll := NewCollection(1).(name := "C1", ownerId := "u1", teamId := Value(1));
      var s1 := InsertTeam(EmptyDb, team);
      s1.Ok? &&
      var s2 := InsertCollection(s1.value, coll);
      s2.Ok? &&
      var s3 := DeleteTeam(s2.value, 1);
      && s3.Ok?
      && 1 in s3.value.collections
      && s3.value.collections[1] == coll.(teamId := Null)
  {
  }

  /** A personal collection, then an endpoint whose URL is 2001 characters: the
      insert is refused naming the Url column, and the store is unchanged. */
  lemma OverlongUrlRejected()
    ensures
      var coll := NewCollection(2).(name := "C2", ownerId := "u2");
      var s1 := InsertCollection(EmptyDb, coll);
      s1.Ok? &&
      var ep := NewEndpoint(1).(name := "E1", url := seq(2001, _ => 'a'), collectionId := 2);
      InsertEndpoint(s1.value, ep) == Err(ValueTooLong(Url, MaxUrlLength))
  {
    var coll := NewCollection(2).(name := "C2", ownerId := "u2");
    assert AllFit(CollectionColumns(coll));
    var ep := NewEndpoint(1).(name := "E1", url := seq(2001, _ => 'a'), collectionId := 2);
    var cols := EndpointColumns(ep);
    assert Fits(cols[0]) && !Fits(cols[1]);
    assert cols[1..][0] == cols[1];
    assert FirstTooLong(cols) == Value(cols[1]);
  }

  /** One user in two teams is accepted; the same user in the same team twice is not. */
  lemma MembershipIndexIsPerTeam()
    ensures
      var s1 := InsertTeam(EmptyDb, NewTeam(1));
      s1.Ok? &&
      var s2 := InsertTeam(s1.value, NewTeam(2));
      s2.Ok? &&
      var s3 := InsertTeamMember(s2.value, NewTeamMember(1).(userId := "u", teamId := 1));
      s3.Ok? &&
      var s4 := InsertTeamMember(s3.value, NewTeamMember(2).(userId := "u", teamId := 2, role := Viewer));
      s4.Ok? &&
      InsertTeamMember(s4.value, NewTeamMember(3).(userId := "u", teamId := 1, role := Editor))
        == Err(DuplicateMembership("u", 1))
  {
    var s1 := InsertTeam(EmptyDb, NewTeam(1));
    assert AllFit(TeamColumns(NewTeam(1)));
    assert AllFit(TeamColumns(NewTeam(2)));
    var s2 := InsertTeam(s1.value, NewTeam(2));
    var m1 := NewTeamMember(1).(userId := "u", teamId := 1);
    var m2 := NewTeamMember(2).(userId := "u", teamId := 2, role := Viewer);
    var m3 := NewTeamMember(3).(userId := "u", teamId := 1, role := Editor);
    assert AllFit(MemberColumns(m1)) && AllFit(MemberColumns(m2)) && AllFit(MemberColumns(m3));
    var s3 := InsertTeamMember(s2.value, m1);
    assert s3.Ok?;
    var s4 := InsertTeamMember(s3.value, m2);
    assert !MembershipTaken(s3.value.members, m2);
    assert s4.Ok?;
    assert MembershipTaken(s4.value.members, m3) by {
      assert 1 in s4.value.members;
    }
  }

  /** An endpoint written with POST holds POST, whose column code is 1, and
      code 1 decodes to POST. */
  lemma PostReadsBackAsPost()
    ensures
      var s1 := InsertCollection(EmptyDb, NewCollection(1));
      s1.Ok? &&
      var s2 := InsertEndpoint(s1.value, NewEndpoint(1).(httpMethod := POST, collectionId := 1));
      && s2.Ok?
      && s2.value.endpoints[1].httpMethod == POST
      && EncodeMethod(s2.value.endpoints[1].httpMethod) == 1
      && DecodeMethod(1) == Value(POST)
  {
  }

  /** A team's owner need not be one of its members: a valid store holds a team
      owned by "u1" with no members at all. */
  lemma OwnerNeedNotBeMember()
    ensures
      var s1 := InsertTeam(EmptyDb, NewTeam(1).(name := "T1", ownerId := "u1"));
      && s1.Ok?
      && Valid(s1.value)
      && Members(s1.value, 1) == {}
  {
    EmptyDbValid();
    InsertTeamPreservesValid(EmptyDb, NewTeam(1).(name := "T1", ownerId := "u1"));
  }
}
