# API Testing Dashboard: relational model

This project models the data layer of the API Testing Dashboard. That layer is the
`ApplicationDbContext` schema together with the six entity records it maps:

- Team and TeamMember;
- Collection, Endpoint and RequestTemplate;
- ResponseHistory.

The schema is declarative Entity Framework configuration. It specifies:

- column length bounds;
- a primary key per table;
- foreign keys;
- one unique index, on (UserId, TeamId);
- what happens to dependent rows when a parent row is deleted.

The model states that contract as a sequential, atomic state machine over an
immutable store `Db`. The store holds one map from `Id` to row per entity set.

- `Clr`: the .NET primitives used by the records (`int`, `long`, `DateTime`, `int?`).
- `Enums`: `HttpMethod`, `AuthType` and `TeamRole`. Each enum has its fixed integer
  code table, an encoder and a partial decoder.
- `Entities`: the six records and what `new X()` initialises them to.
- `Database`: the store and the column bounds. `Valid` is the conjunction of the
  constraints the schema declares: the key matches the stored row, every text fits
  its bound, every foreign key resolves, and the membership index is unique.
  `Database` also holds the navigation properties (`Team.Members`,
  `Collection.Endpoints`, ...) as queries over the maps.
- `Inserts`: one validated insert per entity set. An insert refuses an over-long
  text, a taken key, a duplicate membership or a missing parent, and reports the
  first violation. Checks run in that order, the order in which PostgreSQL meets
  them: value coercion, then index insertion, then the foreign key. Among several
  over-long columns, the first in declaration order is reported.
- `Deletes`: deletes with the referential actions of subclause 11.8 of
  ISO/IEC 9075-2 (ON DELETE CASCADE and ON DELETE SET NULL):
  - deleting a Team deletes its members and turns its collections personal;
  - deleting a Collection deletes its endpoints;
  - deleting an Endpoint deletes its templates and response history.
- `Cascade`: the same deletes carried out one dependent row at a time, in any
  order, each proved to reach exactly the declarative result.
- `Scenarios`: concrete runs from the empty store.

A text bound counts characters, as PostgreSQL `varchar(n)` does. A Dafny `char` is
a Unicode scalar value, so `|s|` is that count.

Two points of the schema worth stating plainly:

- Nothing in the schema makes response history append-only. The model has no
  update operation at all, so no row is ever rewritten.
- `TeamRole` has no explicit `HasConversion<int>()`. Entity Framework's default
  mapping for an enum is still its integer value, so the role is modelled like the
  other two enums.

## Model

| member | source | states |
|---|---|---|
| Enums.EncodeMethod | ApiTestingDashboard.Core/Entities/Endpoint.cs:5-11 | every method is stored as a code in 0..6 |
| Enums.DecodeMethod | ApiTestingDashboard.Core/Entities/Endpoint.cs:3-12 | a stored integer names a method exactly when it lies in 0..6, and that method encodes back to it |
| Enums.MethodRoundTrip | ApiTestingDashboard.Infrastructure/Data/ApplicationDbContext.cs:99 | a method persisted as an integer reads back as the same method |
| Enums.MethodEncodingInjective | ApiTestingDashboard.Core/Entities/Endpoint.cs:3-12 | distinct methods get distinct codes |
| Enums.MethodCodesContiguous | ApiTestingDashboard.Core/Entities/Endpoint.cs:5-11 | the set of codes in use is exactly the range 0..6 |
| Enums.EncodeAuthType | ApiTestingDashboard.Core/Entities/RequestTemplate.cs:5-8 | every auth kind is stored as a code in 0..3 |
| Enums.DecodeAuthType | ApiTestingDashboard.Core/Entities/RequestTemplate.cs:3-9 | a stored integer names an auth kind exactly when it lies in 0..3, and that kind encodes back to it |
| Enums.AuthTypeRoundTrip | ApiTestingDashboard.Infrastructure/Data/ApplicationDbContext.cs:123 | an auth kind persisted as an integer reads back as the same kind |
| Enums.AuthTypeEncodingInjective | ApiTestingDashboard.Core/Entities/RequestTemplate.cs:5-8 | distinct auth kinds get distinct codes |
| Enums.EncodeRole | ApiTestingDashboard.Core/Entities/TeamMember.cs:5-7 | every role is stored as a code in 0..2 |
| Enums.DecodeRole | ApiTestingDashboard.Core/Entities/TeamMember.cs:3-8 | a stored integer names a role exactly when it lies in 0..2, and that role encodes back to it |
| Enums.RoleRoundTrip | ApiTestingDashboard.Core/Entities/TeamMember.cs:14 | a role persisted as an integer reads back as the same role |
| Enums.RoleEncodingInjective | ApiTestingDashboard.Core/Entities/TeamMember.cs:5-7 | distinct roles get distinct codes |
| Entities.NewTeam | ApiTestingDashboard.Core/Entities/Team.cs:7-9 | a new team has empty Name, Description and OwnerId |
| Entities.NewTeamMember | ApiTestingDashboard.Core/Entities/TeamMember.cs:12-14 | a new member has an empty UserId, and its Role is the code-0 role (Owner), since the property has no initializer |
| Entities.NewCollection | ApiTestingDashboard.Core/Entities/Collection.cs:5-8 | a new collection has empty text and a null TeamId, so it is personal |
| Entities.NewEndpoint | ApiTestingDashboard.Core/Entities/Endpoint.cs:16-20 | a new endpoint has empty Name, Url, Description and FolderPath, and its Method is the code-0 method (GET) |
| Entities.NewRequestTemplate | ApiTestingDashboard.Core/Entities/RequestTemplate.cs:13-17 | a new template has Headers and AuthConfig "{}", an empty Body and Name, and the code-0 auth kind (None) |
| Entities.NewResponseHistory | ApiTestingDashboard.Core/Entities/ResponseHistory.cs:5-12 | a new history row has Headers "{}", an empty Body and UserId, zero numbers, and ExecutedAt equal to the clock reading it was created with |
| Database.TeamColumns | ApiTestingDashboard.Infrastructure/Data/ApplicationDbContext.cs:44-46 | a team's bounded columns all fit exactly when Name ≤ 100, Description ≤ 500 and OwnerId ≤ 450 characters |
| Database.MemberColumns | ApiTestingDashboard.Infrastructure/Data/ApplicationDbContext.cs:55 | a member's bounded column fits exactly when UserId ≤ 450 characters |
| Database.CollectionColumns | ApiTestingDashboard.Infrastructure/Data/ApplicationDbContext.cs:73-75 | a collection's bounded columns all fit exactly when Name ≤ 100, Description ≤ 500 and OwnerId ≤ 450 characters |
| Database.EndpointColumns | ApiTestingDashboard.Infrastructure/Data/ApplicationDbContext.cs:93-96 | an endpoint's bounded columns all fit exactly when Name ≤ 100, Url ≤ 2000, Description ≤ 500 and FolderPath ≤ 500 characters |
| Database.TemplateColumns | ApiTestingDashboard.Infrastructure/Data/ApplicationDbContext.cs:117 | a template's bounded column fits exactly when Name ≤ 100 characters; Headers, Body and AuthConfig are unbounded |
| Database.HistoryColumns | ApiTestingDashboard.Infrastructure/Data/ApplicationDbContext.cs:142 | a history row's bounded column fits exactly when UserId ≤ 450 characters; Headers and Body are unbounded |
| Database.Valid | ApiTestingDashboard.Infrastructure/Data/ApplicationDbContext.cs:39-155 | in a store that meets every constraint, a team that is not stored has no members or collections, a collection that is not stored has no endpoints, and an endpoint that is not stored has no templates or history rows |
| Database.Members | ApiTestingDashboard.Core/Entities/Team.cs:12 | a team's Members are exactly the stored members whose TeamId is that team |
| Database.TeamCollections | ApiTestingDashboard.Core/Entities/Team.cs:13 | a team's Collections are exactly the stored collections whose TeamId is non-null and names that team |
| Database.CollectionEndpoints | ApiTestingDashboard.Core/Entities/Collection.cs:12 | a collection's Endpoints are exactly the stored endpoints whose CollectionId is that collection |
| Database.EndpointTemplates | ApiTestingDashboard.Core/Entities/Endpoint.cs:25 | an endpoint's Templates are exactly the stored templates whose EndpointId is that endpoint |
| Database.EndpointHistory | ApiTestingDashboard.Core/Entities/Endpoint.cs:26 | an endpoint's ResponseHistory is exactly the stored history rows whose EndpointId is that endpoint |
| Database.FirstTooLong | ApiTestingDashboard.Infrastructure/Data/ApplicationDbContext.cs:93-96 | finds no column exactly when every bounded column fits; otherwise it finds the first column, in declaration order, that is over its bound |
| Database.NewRowsFit | ApiTestingDashboard.Infrastructure/Data/ApplicationDbContext.cs:39-155 | every freshly constructed row respects every column bound |
| Database.MemberInExactlyOneTeam | ApiTestingDashboard.Core/Entities/TeamMember.cs:13 | in a valid store a member's team exists, and the member is in that team's Members and in no other team's |
| Database.CollectionInAtMostOneTeam | ApiTestingDashboard.Core/Entities/Collection.cs:8 | a personal collection is in no team's Collections; a team collection's team exists and it is in exactly that team's Collections |
| Database.EndpointInExactlyOneCollection | ApiTestingDashboard.Core/Entities/Endpoint.cs:21 | an endpoint's collection exists, and the endpoint is in exactly that collection's Endpoints |
| Database.TemplateInExactlyOneEndpoint | ApiTestingDashboard.Core/Entities/RequestTemplate.cs:18 | a template's endpoint exists, and the template is in exactly that endpoint's Templates |
| Database.HistoryInExactlyOneEndpoint | ApiTestingDashboard.Core/Entities/ResponseHistory.cs:11 | a history row's endpoint exists, and the row is in exactly that endpoint's ResponseHistory |
| Inserts.MembershipTaken | ApiTestingDashboard.Infrastructure/Data/ApplicationDbContext.cs:63-64 | for a store whose index is unique and a fresh key, the pair (UserId, TeamId) is taken exactly when adding the member would break the uniqueness of the index |
| Inserts.FirstTooLongReportUnique | ApiTestingDashboard.Infrastructure/Data/ApplicationDbContext.cs:93-96 | at most one error reports the first over-long column of a row, so the length error an insert reports is determined by the row |
| Inserts.InsertTeam | ApiTestingDashboard.Infrastructure/Data/ApplicationDbContext.cs:41-50 | a team is added, with nothing else changed, exactly when Name ≤ 100, Description ≤ 500, OwnerId ≤ 450 and its key is new; otherwise an over-long row reports its first over-long column, and a row that fits reports the taken key |
| Inserts.InsertTeamMember | ApiTestingDashboard.Infrastructure/Data/ApplicationDbContext.cs:52-65 | a member is added exactly when UserId ≤ 450, its key is new, no member already joins that user to that team, and the team exists; a refusal reports the first broken rule in that order: the over-long column, then the taken key, then the duplicate pair, then the missing team |
| Inserts.InsertCollection | ApiTestingDashboard.Infrastructure/Data/ApplicationDbContext.cs:70-85 | a collection is added exactly when its text fits, its key is new, and a non-null TeamId names an existing team; a null TeamId needs no team; a refusal reports the first over-long column, else the taken key, else the missing team |
| Inserts.InsertEndpoint | ApiTestingDashboard.Infrastructure/Data/ApplicationDbContext.cs:90-109 | an endpoint is added exactly when Name ≤ 100, Url ≤ 2000, Description ≤ 500, FolderPath ≤ 500, its key is new, and its collection exists; a refusal reports the first over-long column in that order, else the taken key, else the missing collection |
| Inserts.InsertRequestTemplate | ApiTestingDashboard.Infrastructure/Data/ApplicationDbContext.cs:114-132 | a template is added exactly when Name ≤ 100, its key is new, and its endpoint exists; a refusal reports the over-long Name, else the taken key, else the missing endpoint |
| Inserts.InsertResponseHistory | ApiTestingDashboard.Infrastructure/Data/ApplicationDbContext.cs:137-154 | a history row is added exactly when UserId ≤ 450, its key is new, and its endpoint exists; a refusal reports the over-long UserId, else the taken key, else the missing endpoint |
| Inserts.InsertTeamPreservesValid | ApiTestingDashboard.Infrastructure/Data/ApplicationDbContext.cs:43-46 | an accepted team insert keeps every schema constraint |
| Inserts.InsertTeamMemberPreservesValid | ApiTestingDashboard.Infrastructure/Data/ApplicationDbContext.cs:58-64 | an accepted member insert keeps referential integrity and the uniqueness of (UserId, TeamId) |
| Inserts.InsertCollectionPreservesValid | ApiTestingDashboard.Infrastructure/Data/ApplicationDbContext.cs:78-80 | an accepted collection insert keeps every schema constraint |
| Inserts.InsertEndpointPreservesValid | ApiTestingDashboard.Infrastructure/Data/ApplicationDbContext.cs:102-104 | an accepted endpoint insert keeps every schema constraint |
| Inserts.InsertRequestTemplatePreservesValid | ApiTestingDashboard.Infrastructure/Data/ApplicationDbContext.cs:126-128 | an accepted template insert keeps every schema constraint |
| Inserts.InsertResponseHistoryPreservesValid | ApiTestingDashboard.Infrastructure/Data/ApplicationDbContext.cs:145-147 | an accepted history insert keeps every schema constraint |
| Inserts.DuplicateMembershipRejected | ApiTestingDashboard.Infrastructure/Data/ApplicationDbContext.cs:63-64 | a second membership of the same user in the same team is refused |
| Inserts.SameUserOtherTeamAccepted | ApiTestingDashboard.Infrastructure/Data/ApplicationDbContext.cs:64 | the index is on the pair: a user who is only in other teams may join this one |
| Inserts.TemplateTextUnchecked | ApiTestingDashboard.Infrastructure/Data/ApplicationDbContext.cs:118-120 | whether a template is accepted does not depend on its Headers, Body or AuthConfig text |
| Inserts.HistoryTextUnchecked | ApiTestingDashboard.Infrastructure/Data/ApplicationDbContext.cs:140-141 | whether a history row is accepted does not depend on its Headers or Body text |
| Inserts.NewTeamHasNoChildren | ApiTestingDashboard.Core/Entities/Team.cs:12-13 | right after insertion into a valid store, a team's Members and Collections are empty |
| Inserts.NewCollectionHasNoEndpoints | ApiTestingDashboard.Core/Entities/Collection.cs:12 | right after insertion into a valid store, a collection's Endpoints are empty |
| Inserts.NewEndpointHasNoChildren | ApiTestingDashboard.Core/Entities/Endpoint.cs:25-26 | right after insertion into a valid store, an endpoint's Templates and ResponseHistory are empty |
| Deletes.DeleteTeam | ApiTestingDashboard.Infrastructure/Data/ApplicationDbContext.cs:52-81 | deleting an existing team removes exactly the members whose TeamId is that team, sets TeamId to null on exactly its collections with every other field kept, and leaves every other row unchanged; deleting a missing team is an error |
| Deletes.DeleteCollection | ApiTestingDashboard.Infrastructure/Data/ApplicationDbContext.cs:102-105 | deleting an existing collection removes exactly its endpoints and the templates and history rows under them, and leaves every other row unchanged |
| Deletes.DeleteEndpoint | ApiTestingDashboard.Infrastructure/Data/ApplicationDbContext.cs:126-148 | deleting an existing endpoint removes exactly its templates and history rows, and leaves every other row unchanged |
| Deletes.DeleteTeamMember | ApiTestingDashboard.Infrastructure/Data/ApplicationDbContext.cs:54 | deleting a member removes only that row |
| Deletes.DeleteRequestTemplate | ApiTestingDashboard.Infrastructure/Data/ApplicationDbContext.cs:116 | deleting a template removes only that row |
| Deletes.DeleteResponseHistory | ApiTestingDashboard.Infrastructure/Data/ApplicationDbContext.cs:139 | deleting a history row removes only that row |
| Deletes.DeleteTeamPreservesValid | ApiTestingDashboard.Infrastructure/Data/ApplicationDbContext.cs:52-81 | after a team delete, no member and no collection refers to a missing team |
| Deletes.DeleteCollectionPreservesValid | ApiTestingDashboard.Infrastructure/Data/ApplicationDbContext.cs:101-148 | after a collection delete, no endpoint, template or history row dangles |
| Deletes.DeleteEndpointPreservesValid | ApiTestingDashboard.Infrastructure/Data/ApplicationDbContext.cs:126-148 | after an endpoint delete, no template or history row dangles |
| Deletes.DeleteTeamMemberPreservesValid | ApiTestingDashboard.Infrastructure/Data/ApplicationDbContext.cs:54-64 | deleting a member keeps every schema constraint, the membership index included |
| Deletes.DeleteRequestTemplatePreservesValid | ApiTestingDashboard.Infrastructure/Data/ApplicationDbContext.cs:116-129 | deleting a template keeps every schema constraint |
| Deletes.DeleteResponseHistoryPreservesValid | ApiTestingDashboard.Infrastructure/Data/ApplicationDbContext.cs:139-148 | deleting a history row keeps every schema constraint |
| Deletes.DeleteTeamDetachesCollections | ApiTestingDashboard.Infrastructure/Data/ApplicationDbContext.cs:77-81 | after a team delete the team has no members or collections; each former team collection survives as a personal one with its OwnerId, Name, Description and Endpoints intact |
| Deletes.DeleteCollectionRemovesSubtree | ApiTestingDashboard.Infrastructure/Data/ApplicationDbContext.cs:102-148 | after a collection delete, each of its endpoints is gone, and no template or history row is left under it |
| Deletes.DeleteCollectionKeepsOtherEndpoints | ApiTestingDashboard.Infrastructure/Data/ApplicationDbContext.cs:102-105 | after a collection delete, every endpoint of another collection is still stored, with the same Templates and ResponseHistory |
| Cascade.NullifyTeam | ApiTestingDashboard.Infrastructure/Data/ApplicationDbContext.cs:81 | the single-row SET NULL step changes one collection's TeamId to null and nothing else |
| Cascade.DeleteTemplatesOneByOne | ApiTestingDashboard.Infrastructure/Data/ApplicationDbContext.cs:126-129 | deleting an endpoint's templates one at a time removes exactly its Templates and changes no other table |
| Cascade.DeleteHistoryOneByOne | ApiTestingDashboard.Infrastructure/Data/ApplicationDbContext.cs:145-148 | deleting an endpoint's history rows one at a time removes exactly its ResponseHistory and changes no other table |
| Cascade.CascadeDeleteEndpoint | ApiTestingDashboard.Infrastructure/Data/ApplicationDbContext.cs:126-148 | deleting templates and history rows one at a time, then the endpoint, gives exactly the declarative endpoint delete |
| Cascade.CascadeDeleteCollection | ApiTestingDashboard.Infrastructure/Data/ApplicationDbContext.cs:102-105 | cascading into each endpoint in turn, then deleting the collection, gives exactly the declarative collection delete |
| Cascade.CascadeDeleteTeam | ApiTestingDashboard.Infrastructure/Data/ApplicationDbContext.cs:52-81 | deleting each member and nulling each collection's team in turn, then deleting the team, gives exactly the declarative team delete |
| Scenarios.TeamDeletionKeepsCollection | ApiTestingDashboard.Infrastructure/Data/ApplicationDbContext.cs:81 | team T1, then collection C1 in T1, then deleting T1, leaves C1 with a null TeamId and otherwise as written |
| Scenarios.OverlongUrlRejected | ApiTestingDashboard.Infrastructure/Data/ApplicationDbContext.cs:94 | an endpoint with a 2001-character URL is refused with a length error on Url |
| Scenarios.MembershipIndexIsPerTeam | ApiTestingDashboard.Infrastructure/Data/ApplicationDbContext.cs:64 | one user joins two teams, and joining the first team again is refused |
| Scenarios.PostReadsBackAsPost | ApiTestingDashboard.Infrastructure/Data/ApplicationDbContext.cs:99 | an endpoint written with POST is accepted and holds POST, whose column code is 1; code 1 decodes to POST |
| Scenarios.OwnerNeedNotBeMember | ApiTestingDashboard.Core/Entities/Team.cs:9 | a valid store may hold a team whose owner is none of its members |

## Left out

- Key generation. The database assigns `Id` through an identity column. Here the
  caller supplies the key, and an insert with a taken key is refused.
- Updates. The schema declares no update rule of its own. Changing a row's text or
  foreign key after insertion is not modelled, so the model has no update path and
  response history is never rewritten.
- Enums.DecodeMethod, Enums.DecodeAuthType and Enums.DecodeRole are partial.
  A C# enum can hold an undefined integer. Entity Framework would read a stored 42
  back as such an unnamed `HttpMethod`; the model's enums hold only the named
  members, so 42 decodes to `Null`.
- Non-unique indexes (OwnerId, TeamId, CollectionId, EndpointId, ExecutedAt,
  UserId). They change performance only.
- Concurrency and transactions. Every operation is sequential and atomic. The
  unique index under concurrent inserts is the database engine's concern.
- The clock. `ExecutedAt = DateTime.UtcNow` becomes the parameter `now` of
  `NewResponseHistory`.
- Identity tables (`IdentityDbContext`), and the `BaseEntity` members other than
  `Id`. These belong to a foreign library, and `BaseEntity` is not part of this
  model.
- JSON contents of Headers, Body and AuthConfig. The source treats them as opaque
  text, and so does the model.
- Entity Framework change tracking and navigation loading. Navigations are queries
  over the maps.
- `Program.cs` and `TestController.cs`: service registration, middleware, the
  connection string, and the health, table-count and user-info endpoints. These
  are I/O around the framework, with no logic over the data model.
- String width. `string` is a sequence of Unicode scalar values. The UTF-16
  encoding of .NET strings is not modelled.
- NOT NULL. `IsRequired()` (ApplicationDbContext.cs lines 44, 46, 55, 73, 75, 93,
  94, 117 and 142) makes a column NOT NULL, and the database refuses a null there.
  Strings in the model are never null, so that refusal cannot arise and is not
  modelled. An empty `Name` or `OwnerId` is accepted, as the database accepts it.
- Inserts.InsertTeam: does not model PostgreSQL's `varchar(n)` coercion, which
  accepts an over-long value whose excess characters are all spaces and stores it
  cut to `n` characters. The model refuses such a value. Neither is the refusal of
  U+0000 in Name, Description or OwnerId; the model accepts it. The `field` of
  `ValueTooLong` is the model's own: PostgreSQL's error 22001 ("value too long for
  type character varying(n)") carries only the bound `n`, so Name and Description
  are told apart only by their bounds.
- Inserts.InsertTeamMember, Inserts.InsertCollection, Inserts.InsertEndpoint,
  Inserts.InsertRequestTemplate and Inserts.InsertResponseHistory: as for teams, the
  `field` of `ValueTooLong` is the model's own, since PostgreSQL reports only the
  bound. An endpoint whose Description and FolderPath are both over-long gets
  `ValueTooLong(Description, 500)` in the model, while the database's error names
  neither column. Which column's bound the database reports depends on the column
  order of the INSERT that Entity Framework emits; the model takes declaration order.
- Inserts.InsertTeamMember, Inserts.InsertCollection and Inserts.InsertEndpoint: the
  same `varchar(n)` trailing-space truncation is not modelled. Neither is
  PostgreSQL's refusal of the character U+0000 in any text value; the model
  accepts it.
- Inserts.InsertRequestTemplate: the Name column's trailing-space truncation is not
  modelled. Neither is the refusal of U+0000 in Name, Headers, Body or AuthConfig.
- Inserts.InsertResponseHistory: three PostgreSQL coercions are not modelled:
  - the UserId column's trailing-space truncation;
  - the refusal of U+0000 in UserId, Headers or Body;
  - the rounding of `ExecutedAt`, because `timestamptz` keeps microseconds.

  The model stores `executedAt` to the 100-nanosecond tick.
- Inserts.InsertResponseHistory: the Npgsql provider (`UseNpgsql`, Program.cs line
  22) refuses to write a `DateTime` whose `Kind` is not UTC into a `timestamptz`
  column. `Clr.DateTime` is a tick count and keeps no `Kind`, so this refusal is
  not modelled: every `executedAt` is treated as UTC, which `DateTime.UtcNow` gives.
- Inserts.TemplateTextUnchecked: holds for the schema as declared, which puts no
  check on these columns. The database engine still refuses U+0000 in `text`, and
  that refusal is not modelled.
- Inserts.HistoryTextUnchecked: holds for the schema as declared. The engine's
  refusal of U+0000 in `text` is not modelled.
