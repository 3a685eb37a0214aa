/** The three enums the schema persists as integers (`HasConversion<int>`), each
    with its fixed code table. The C# enums give every member an explicit code,
    so the table, not the declaration order, is the contract. */
module Enums {
  import opened Clr

  datatype HttpMethod = GET | POST | PUT | DELETE | PATCH | HEAD | OPTIONS

  datatype AuthType = None | BearerToken | BasicAuth | ApiKey

  datatype TeamRole = Owner | Editor | Viewer

  /** The integer stored for an HTTP method. */
  function EncodeMethod(m: HttpMethod): (code: int32)
    ensures 0 <= code <= 6
  {
    match m
    case GET => 0
    case POST => 1
    case PUT => 2
    case DELETE => 3
    case PATCH => 4
    case HEAD => 5
    case OPTIONS => 6
  }

  /** The method a stored integer names; `Null` for a code outside the table. */
  function DecodeMethod(code: int32): (r: Nullable<HttpMethod>)
    ensures r.Value? <==> 0 <= code <= 6
    ensures r.Value? ==> EncodeMethod(r.value) == code
  {
    if code == 0 then Value(GET)
    else if code == 1 then Value(POST)
    else if code == 2 then Value(PUT)
    else if code == 3 then Value(DELETE)
    else if code == 4 then Value(PATCH)
    else if code == 5 then Value(HEAD)
    else if code == 6 then Value(OPTIONS)
    else Null
  }

  /** Reading back a stored method yields the method that was written. */
  lemma MethodRoundTrip(m: HttpMethod)
    ensures DecodeMethod(EncodeMethod(m)) == Value(m)
  {
  }

  /** Distinct methods are stored as distinct integers. */
  lemma MethodEncodingInjective(m1: HttpMethod, m2: HttpMethod)
    ensures EncodeMethod(m1) == EncodeMethod(m2) ==> m1 == m2
  {
    MethodRoundTrip(m1);
    MethodRoundTrip(m2);
  }

  /** The codes in use are exactly the contiguous range 0..6. */
  lemma MethodCodesContiguous(code: int32)
    ensures (exists m :: EncodeMethod(m) == code) <==> 0 <= code <= 6
  {
    if 0 <= code <= 6 {
      assert EncodeMethod(DecodeMethod(code).value) == code;
    }
  }

  /** The integer stored for an authentication kind. */
  function EncodeAuthType(a: AuthType): (code: int32)
    ensures 0 <= code <= 3
  {
    match a
    case None => 0
    case BearerToken => 1
    case BasicAuth => 2
    case ApiKey => 3
  }

  /** The authentication kind a stored integer names; `Null` outside the table. */
  function DecodeAuthType(code: int32): (r: Nullable<AuthType>)
    ensures r.Value? <==> 0 <= code <= 3
    ensures r.Value? ==> EncodeAuthType(r.value) == code
  {
    if code == 0 then Value(None)
    else if code == 1 then Value(BearerToken)
    else if code == 2 then Value(BasicAuth)
    else if code == 3 then Value(ApiKey)
    else Null
  }

  /** Reading back a stored authentication kind yields the one written. */
  lemma AuthTypeRoundTrip(a: AuthType)
    ensures DecodeAuthType(EncodeAuthType(a)) == Value(a)
  {
  }

  /** Distinct authentication kinds are stored as distinct integers. */
  lemma AuthTypeEncodingInjective(a1: AuthType, a2: AuthType)
    ensures EncodeAuthType(a1) == EncodeAuthType(a2) ==> a1 == a2
  {
    AuthTypeRoundTrip(a1);
    AuthTypeRoundTrip(a2);
  }

  /** The integer stored for a team role. */
  function EncodeRole(role: TeamRole): (code: int32)
    ensures 0 <= code <= 2
  {
    match role
    case Owner => 0
    case Editor => 1
    case Viewer => 2
  }

  /** The role a stored integer names; `Null` outside the table. */
  function DecodeRole(code: int32): (r: Nullable<TeamRole>)
    ensures r.Value? <==> 0 <= code <= 2
    ensures r.Value? ==> EncodeRole(r.value) == code
  {
    if code == 0 then Value(Owner)
    else if code == 1 then Value(Editor)
    else if code == 2 then Value(Viewer)
    else Null
  }

  /** Reading back a stored role yields the role that was written. */
  lemma RoleRoundTrip(role: TeamRole)
    ensures DecodeRole(EncodeRole(role)) == Value(role)
  {
  }

  /** Distinct roles are stored as distinct integers. */
  lemma RoleEncodingInjective(r1: TeamRole, r2: TeamRole)
    ensures EncodeRole(r1) == EncodeRole(r2) ==> r1 == r2
  {
    RoleRoundTrip(r1);
    RoleRoundTrip(r2);
  }
}
