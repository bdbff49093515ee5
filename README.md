# TaskForge core, modelled in Dafny

TaskForge is a multi-tenant task tracker: users register and log in, create organizations
(with owner, admin, manager and member roles), create projects inside them, and move tasks
across a Kanban board of "todo", "in_progress" and "done" columns, with comments on tasks.
The backend is an axum/sqlx REST API over PostgreSQL; the frontend is a Leptos single-page app.

This project models:

- **Backend.**
  - The error taxonomy and how it renders as HTTP (`errors.dfy`).
  - The role names (`roles.dfy`) and the entities, requests and response types (`models.dfy`).
  - Password hashing and the JWT primitives, as opaque function values (`credentials.dfy`).
  - The bearer-token middleware and the `AuthUser` extractor (`middleware.dfy`).
  - Every handler of the auth, organization, project and task APIs (`auth_handlers.dfy`,
    `organization_handlers.dfy`, `project_handlers.dfy`, `task_handlers.dfy`). They run over an
    in-memory store of six tables (`store.dfy`), a class whose sequence fields the write
    handlers replace.
  - The store keeps the schema's key and uniqueness constraints as an invariant (`Db.Valid`).
    Every write handler preserves it and states each table's new contents.
  - Each SQL `ORDER BY` is a sort by a two-part key (`sorting.dfy`), proved ordered and a
    permutation.
- **Frontend.**
  - The account service and its token storage (`auth_service.dfy`).
  - The authentication and organization contexts (`auth_context.dfy`,
    `organization_context.dfy`).
  - The two slug generators (`slugs.dfy`).
  - The organization and project list pages' forms (`forms.dfy`).
  - The organization detail page (`organization_detail.dfy`).
  - The project page's Kanban board (`project_board.dfy`).
  - Reactive signals become class fields, and every network response is a parameter of the
    method that awaits it.

Identifiers are 128-bit uuids written as 32 hex digits (`uuids.dfy`). Timestamps are
integers. Fresh ids and the current time are passed in by the caller. Text is `seq<char>`,
with the character classes the code relies on restricted to ASCII (`text.dfy`).

Four places where the intent and the code differ. The model follows the code in all four:

- Registration and login match e-mail addresses exactly. There is no case folding.
- `update_task` sets `completed_at` when a task moves to "done", but never clears it. A task
  moved back to "todo" keeps its completion time (`TaskHandlers.ReopenedTaskStaysCompleted`).
- Non-members should see 404 Not Found for anything nested under an organization, as if it did
  not exist. Several handlers answer 403 Authorization instead. Listing projects
  (backend/src/api/projects.rs:114), updating a project (projects.rs:201), creating or listing
  tasks (backend/src/api/tasks.rs:43, :122), updating a task (tasks.rs:211), and creating or
  listing comments (tasks.rs:337, :391) do this. The `Authorization` ensures of
  `ProjectHandlers.GetOrganizationProjects`, `ProjectHandlers.UpdateProject`,
  `TaskHandlers.CreateTask`, `TaskHandlers.GetProjectTasks`, `TaskHandlers.UpdateTask`,
  `TaskHandlers.CreateComment` and `TaskHandlers.GetTaskComments` state it. Reading or
  deleting a single project or task does answer 404.
- An organization slug should be one or more letters, digits or hyphens. The character check
  (backend/src/api/organizations.rs:56) is an `all` over the characters, so it also accepts
  the empty slug (`OrganizationHandlers.EmptySlugPassesCharacterCheck`).

## Model

| member | source | states |
|---|---|---|
| Roles.AsStr | backend/src/models/mod.rs:116-124 | each role prints as one of "owner", "admin", "manager", "member", made of lower-case letters only |
| Roles.FromStr | backend/src/models/mod.rs:126-135 | parses exactly the lower-cased four names, and the parsed role prints as the lower-cased input |
| Roles.RoundTrip | backend/src/models/mod.rs:116-135 | every role parses back from `as_str` |
| Roles.Display | backend/src/models/mod.rs:137-143 | the printed role parses back to the same role |
| Roles.FromStrIgnoresCase | backend/src/models/mod.rs:126-135 | parsing ignores letter case |
| Roles.UpperCaseParses | backend/src/models/mod.rs:126-135 | "OWNER" parses to Owner |
| Roles.NearMissRejected | backend/src/models/mod.rs:126-135 | "owners" does not parse |
| Errors.IntoResponse | backend/src/utils/error.rs:49-87 | body is one "error" entry; client errors map to 400/401/403/404/409 and carry their own message; database, internal and external errors map to 500/500/502 with a fixed text |
| Errors.ServerDetailHidden | backend/src/utils/error.rs:52-77 | the response to a server-side error does not depend on its detail message |
| Errors.FromAnyhow | backend/src/utils/error.rs:89-93 | a foreign error becomes Internal: a 500 with "Internal server error" whose display text carries the original |
| Errors.Display | backend/src/utils/error.rs:9-43 | every variant's text ends with its own message after a fixed prefix; `Database` prints "Database error" |
| Models.UserResponseHidesSecrets | backend/src/models/mod.rs:153-176 | the user response never depends on the password hash or the last-login time, and keeps id, email and creation time |
| Models.ResponsesLoseNothing | backend/src/models/mod.rs:223-340 | the project, task and comment responses are one-to-one with their rows |
| Models.ToUserResponse | backend/src/models/mod.rs:163-176 | the user response; characterised by `UserResponseHidesSecrets` |
| Models.ToProjectResponse | backend/src/models/mod.rs:236-253 | the project response; characterised by `ResponsesLoseNothing` |
| Models.ToTaskResponse | backend/src/models/mod.rs:292-311 | the task response; characterised by `ResponsesLoseNothing` |
| Models.ToCommentResponse | backend/src/models/mod.rs:327-338 | the comment response; characterised by `ResponsesLoseNothing` |
| Uuids.Parse | backend/src/api/organizations.rs:52-53 | parsing succeeds exactly for 32 hex digits, or for 36 characters with hyphens at 8, 13, 18 and 23 and hex digits in both cases elsewhere; each parsed nibble is the value of its digit |
| Uuids.ToStringOfParse | backend/src/api/organizations.rs:52-53 | a lower-case string that parses is printed back exactly: the hyphenated form by `to_string`, the 32-digit form by the digit encoding |
| Uuids.PrintedAt | backend/src/api/organizations.rs:52-53 | each position of a parsed lower-case hyphenated string is printed back unchanged |
| Uuids.HexCharOfValue | backend/src/api/organizations.rs:52-53 | a digit other than 'A' to 'F' is the character printed for its value |
| Uuids.Decode | backend/src/api/organizations.rs:52-53 | a digit string decodes iff every character is a hex digit in either case, to the value of each digit |
| Uuids.DecodeEncode | backend/src/api/organizations.rs:52-53 | decoding printed digits gives the digits back |
| Uuids.ParseToString | backend/src/api/organizations.rs:52-53 | parsing a uuid's printed form gives back that uuid |
| Uuids.ToStringInjective | frontend/src/pages/project_detail.rs:104 | different uuids print differently, so comparing printed ids compares ids |
| Uuids.ToString | frontend/src/pages/project_detail.rs:104 | 36 characters: the 32 lower-case hex digits of the uuid in order, with hyphens at 8, 13, 18 and 23 |
| Text.Lower | frontend/src/pages/organizations.rs:23 | lower-casing keeps the length and maps each character |
| Text.LowerIdempotent | frontend/src/pages/organizations.rs:23 | lower-casing twice is lower-casing once |
| Text.Trim | frontend/src/pages/organization_detail.rs:151 | the result is a contiguous piece of the input with only whitespace before and after it, and it neither starts nor ends with whitespace |
| Text.TrimStart | frontend/src/pages/organization_detail.rs:151 | the result is a suffix of the input, everything dropped is whitespace, and it does not start with whitespace |
| Text.TrimEnd | frontend/src/pages/organization_detail.rs:151 | the result is a prefix of the input, everything dropped is whitespace, and it does not end with whitespace |
| Text.CoreOfSlices | frontend/src/pages/organization_detail.rs:151 | a whitespace-only prefix dropped, then a whitespace-only suffix dropped, leaves a contiguous core of the input with whitespace on both sides |
| Text.TrimUntouched | frontend/src/pages/organization_detail.rs:151 | a string without whitespace at its ends is its own trim |
| Text.Split | frontend/src/pages/organizations.rs:25 | at least one piece, none containing the separator, and joining them back gives the input |
| Text.SplitJoin | frontend/src/pages/organizations.rs:25-28 | splitting a join of separator-free pieces gives the pieces back |
| Seqs.Filter | frontend/src/pages/project_detail.rs:117-127 | the kept elements satisfy the test, come from the input, and every passing input element is kept |
| Seqs.FilterConcat | frontend/src/pages/project_detail.rs:117-127 | filtering keeps relative order: it distributes over concatenation |
| Seqs.FilterCounts | frontend/src/pages/project_detail.rs:117-127 | a kept element occurs as often as in the input, a dropped one not at all |
| Seqs.FirstIndex | frontend/src/components/organization_context.rs:74 | the index of the first element passing the test, or none when none passes |
| Seqs.FindIndex | frontend/src/components/organization_context.rs:74 | the scanning loop returns exactly the first matching index |
| Seqs.MappedListed | backend/src/api/projects.rs:118-137 | a reordering of mapped rows contains the image of each row, only those, and as many |
| Seqs.ReplaceFirst | frontend/src/pages/project_detail.rs:103-107 | replacing the first match keeps the length |
| Seqs.ReplaceFirstAt | frontend/src/pages/project_detail.rs:103-107 | when index i holds the first match, replacing the first match rewrites index i and nothing else |
| Seqs.ReplaceFirstNoMatch | frontend/src/pages/project_detail.rs:103-107 | when nothing matches, the list is left as it is |
| Sorting.SortBy | backend/src/api/tasks.rs:133 | the result is ordered by the two-part key and is a permutation of the input |
| Store.FindBy | backend/src/api/auth.rs:52-57 | a lookup by key returns a row with that key, or none when no row has it |
| Store.FindByUnique | backend/src/api/auth.rs:52-57 | under a uniqueness constraint, a lookup by a row's key returns that row |
| Store.MembershipOf | backend/src/api/organizations.rs:179-187 | a found membership is a stored row for that organization and user, and none is found iff no such row exists |
| Store.Db.Valid | backend/src/api/organizations.rs:62-103 | the store's constraints: ids unique in every table, unique e-mails, organization slugs, per-organization project slugs and (organization, user) memberships, and every membership names a stored organization; preserved by every handler |
| Store.ReplaceAtKey | backend/src/api/tasks.rs:228-241 | under a uniqueness constraint, rewriting the row found at one index rewrites exactly the rows with that key |
| Store.Db.SetUsers | backend/src/api/auth.rs:69 | a write to the users table that keeps ids and e-mails unique leaves the store valid and the other tables as they were |
| Store.Db.SetOrganizations | backend/src/api/organizations.rs:79 | a write to the organizations table that keeps ids and slugs unique and every membership's organization present leaves the store valid and the other tables as they were |
| Store.Db.SetMembers | backend/src/api/organizations.rs:94 | a write to the memberships that keeps ids and (organization, user) pairs unique and points at existing organizations leaves the store valid and the other tables as they were |
| Store.Db.SetProjects | backend/src/api/projects.rs:68 | a write to the projects table that keeps ids and per-organization slugs unique leaves the store valid and the other tables as they were |
| Store.Db.SetTasks | backend/src/api/tasks.rs:69 | a write to the tasks table that keeps ids unique leaves the store valid and the other tables as they were |
| Store.Db.SetComments | backend/src/api/tasks.rs:343 | a write to the comments table that keeps ids unique leaves the store valid and the other tables as they were |
| Store.RemoveBy | backend/src/api/projects.rs:262-273 | a delete by key removes exactly the rows with that key and keeps uniqueness |
| Store.ProjectAccessChain | backend/src/api/projects.rs:150-156 | the caller reaches a project with a role iff the project exists and the caller is a member of its organization with that role |
| Store.TaskAccessChain | backend/src/api/tasks.rs:193-199 | the caller reaches a task iff the task's project's organization has the caller as a member |
| Store.ProjectAccess | backend/src/api/projects.rs:150-156 | a role is found only through a stored project with that id and a membership of the caller in its organization, and none for an unknown project |
| Store.TaskAccess | backend/src/api/tasks.rs:193-199 | a role is found only through a stored task with that id and the caller's access to its project, and none for an unknown task |
| Credentials.HashPassword | backend/src/utils/auth.rs:13-22 | a failure is Internal; with a sound hasher the produced hash verifies the password |
| Credentials.VerifyPassword | backend/src/utils/auth.rs:24-34 | an unparsable hash is an Internal error, not a mismatch |
| Credentials.TokenClaims | backend/src/utils/auth.rs:45-58 | the subject parses back to the user id; iat is now and exp is now plus the expiration |
| Credentials.GenerateToken | backend/src/utils/auth.rs:45-62 | encoding failures are Internal |
| Credentials.ValidateToken | backend/src/utils/auth.rs:65-75 | every decoding failure is an Authentication error |
| Credentials.GeneratedTokenValidates | backend/src/utils/auth.rs:101-113 | a generated token validates, with the same secret before expiry, to the user's id and email |
| Credentials.ExtractTokenFromHeader | backend/src/utils/auth.rs:78-87 | succeeds iff the header starts with "Bearer ", and then returns exactly the rest |
| Credentials.ExtractAfterBearer | backend/src/utils/auth.rs:78-87 | whatever follows the prefix comes back, the empty token included |
| Credentials.ExtractRejects | backend/src/utils/auth.rs:115-124 | "InvalidFormat" and a lower-case "bearer" are refused |
| Middleware.HeaderToStr | backend/src/middleware/auth.rs:20-23 | a header is text iff all its bytes are visible ASCII or tab, and then its characters are those bytes |
| Middleware.Authenticate | backend/src/middleware/auth.rs:14-44 | every rejection is a 401; missing or non-text headers, a wrong prefix and a bad token are told apart; success yields the token's subject |
| Middleware.AuthMiddleware | backend/src/middleware/auth.rs:14-50 | on success the subject is stored and the handler runs; otherwise the request is rejected and nothing is stored |
| Middleware.ExtractAuthUser | backend/src/middleware/auth.rs:60-76 | the extractor yields the stored subject unchanged, or 401 "User ID not found in request" |
| Middleware.IssuedTokenAuthenticates | backend/src/middleware/auth.rs:14-76 | a bearer header with a freshly generated token authenticates as that user's id |
| Slugs.SlugChar | frontend/src/pages/organizations.rs:24 | every character becomes a letter, a digit or '-' |
| Slugs.Hyphenate | frontend/src/pages/organizations.rs:24 | keeps the length and maps each character |
| Slugs.NonEmpty | frontend/src/pages/organizations.rs:26 | keeps exactly the non-empty pieces |
| Slugs.OrganizationSlugWellFormed | frontend/src/pages/organizations.rs:22-28 | a generated slug is lower case, made of letters, digits and single inner hyphens |
| Slugs.OrganizationSlugIdempotent | frontend/src/pages/organizations.rs:22-28 | generating a slug from a generated slug changes nothing |
| Slugs.WellFormedFixed | frontend/src/pages/organizations.rs:22-28 | a well-formed slug is its own generated slug |
| Slugs.OrganizationSlug | frontend/src/pages/organizations.rs:22-28 | lower-case, non-slug characters to '-', split at '-', empty pieces dropped, joined with '-'; its properties are the three lemmas above |
| Slugs.SpacesToHyphens | frontend/src/pages/projects.rs:53 | keeps the length, turns each space into '-' and keeps every other character |
| Slugs.ProjectAutoSlug | frontend/src/pages/projects.rs:48-59 | no slug for an empty name; otherwise only lower-case letters, digits and '-', never longer than the name |
| Slugs.ProjectAutoSlugFixed | frontend/src/pages/projects.rs:48-59 | a non-empty name made only of lower-case letters, digits and '-' is its own auto-slug |
| Slugs.ProjectAutoSlugIdempotent | frontend/src/pages/projects.rs:48-59 | auto-slugging a non-empty auto-slug gives it back unchanged |
| Seqs.FilterAll | frontend/src/pages/projects.rs:54 | a filter that every element passes keeps the sequence as it is |
| Slugs.ProjectSlugKeepsRuns | frontend/src/pages/projects.rs:48-59 | the project generator keeps runs of hyphens: "a  b" gives "a--b" |
| Slugs.OrganizationSlugCollapsesRuns | frontend/src/pages/organizations.rs:22-28 | the organization generator collapses them: "a  b" gives "a-b" |
| OrganizationHandlers.ParseCaller | backend/src/api/organizations.rs:52-53 | a malformed caller id is a 500 "Invalid user ID", otherwise the parsed id |
| OrganizationHandlers.CheckNewOrganization | backend/src/api/organizations.rs:55-74 | accepted iff the slug has only letters, digits and '-' and is unused; the character check comes first, then the Conflict |
| OrganizationHandlers.NewOrganization | backend/src/api/organizations.rs:77-89 | the inserted row: the request's name, slug and description, no logo or website, active, both timestamps now; stated through `CreateOrganization` |
| OrganizationHandlers.ToOrganizationResponse | backend/src/api/organizations.rs:153-165 | the response copies every organization field and carries the caller's role; stated through `GetMyOrganizations` and `GetOrganization` |
| OrganizationHandlers.EmptySlugPassesCharacterCheck | backend/src/api/organizations.rs:55-60 | the empty slug passes the character check |
| OrganizationHandlers.CreateOrganization | backend/src/api/organizations.rs:47-117 | inserts the organization with table defaults and an "owner" membership for the caller and answers 201 Created with the owner's view of the new organization, or changes nothing on any refusal |
| OrganizationHandlers.JoinMineExact | backend/src/api/organizations.rs:139-146 | a row is in the join iff the organization is active and the caller has a membership with that role |
| OrganizationHandlers.JoinMine | backend/src/api/organizations.rs:139-146 | the join of active organizations with the caller's memberships; characterised by `JoinMineExact` |
| OrganizationHandlers.MyOrganizationsExact | backend/src/api/organizations.rs:139-146 | the listing is exactly the caller's active organizations with the caller's role, newest first |
| OrganizationHandlers.GetMyOrganizations | backend/src/api/organizations.rs:120-168 | a malformed caller id is a 500; otherwise one response per listed row, in order, each the row's organization with every field copied and the caller's role |
| OrganizationHandlers.GetOrganization | backend/src/api/organizations.rs:171-214 | a non-member gets the no-access NotFound; a member of an organization with no active row gets "Organization not found"; success iff a member and the organization is active, and the response is that stored organization with every field copied and the caller's role |
| OrganizationHandlers.JoinMembersExact | backend/src/api/organizations.rs:252-261 | a row is in the join iff it pairs a membership of the organization with its user |
| OrganizationHandlers.JoinMembers | backend/src/api/organizations.rs:252-261 | the join of the organization's memberships with their users; characterised by `JoinMembersExact` |
| OrganizationHandlers.ToMemberResponse | backend/src/api/organizations.rs:268-279 | one joined row as a response: membership id, user id, e-mail, names, role and join time; characterised by `MembersListedExact` |
| OrganizationHandlers.GetOrganizationMembers | backend/src/api/organizations.rs:217-282 | a non-member gets NotFound; otherwise the join, earliest joined first |
| OrganizationHandlers.MembersListedExact | backend/src/api/organizations.rs:252-279 | the listed members are exactly the organization's memberships joined with their users |
| ProjectHandlers.Caller | backend/src/api/projects.rs:21-22 | a malformed caller id is a 401 "Invalid user ID", otherwise the parsed id |
| ProjectHandlers.SlugTaken | backend/src/api/projects.rs:43-60 | the slug check finds a project iff one in the same organization has that slug |
| ProjectHandlers.CheckNewProject | backend/src/api/projects.rs:24-60 | a non-member is refused with Authorization before the slug is looked at; a member is refused with Conflict iff the organization already has the slug |
| ProjectHandlers.InsertKeepsProjectKeys | backend/src/api/projects.rs:65-85 | inserting a row with a fresh id and an unused slug keeps the id and the per-organization slug unique |
| ProjectHandlers.CreateProject | backend/src/api/projects.rs:15-90 | non-members are refused; a slug already used in the organization is a Conflict; otherwise the project is inserted and 201 returned; nothing else changes |
| ProjectHandlers.NewProjectDefaults | backend/src/api/projects.rs:62-78 | the inserted project has the caller as creator, and "planning" and "#3B82F6" for a missing status or colour |
| ProjectHandlers.NewProject | backend/src/api/projects.rs:62-78 | the inserted project row; characterised by `NewProjectDefaults` |
| ProjectHandlers.ProjectsOf | backend/src/api/projects.rs:120-126 | exactly the organization's projects |
| ProjectHandlers.GetOrganizationProjects | backend/src/api/projects.rs:92-139 | members only; every project of the organization, nothing else, newest first |
| ProjectHandlers.SortedNewestFirst | backend/src/api/projects.rs:125 | sorted by the key means creation times descend |
| ProjectHandlers.GetProject | backend/src/api/projects.rs:141-171 | NotFound iff the caller does not reach the project; otherwise that project's response |
| ProjectHandlers.ProjectUpdateCoalesces | backend/src/api/projects.rs:206-220 | each given field, the optional description and colour included, replaces the stored one exactly; a missing field keeps the stored value; updated_at is now; an empty request changes only updated_at |
| ProjectHandlers.ApplyProjectUpdate | backend/src/api/projects.rs:206-218 | the `COALESCE` update of one project row; characterised by `ProjectUpdateCoalesces` |
| ProjectHandlers.UpdateOnlyProject | backend/src/api/projects.rs:204-218 | with unique ids, rewriting the row found for the id is the `UPDATE ... WHERE id = $1`: that row changes and no other |
| ProjectHandlers.StoreProjectUpdate | backend/src/api/projects.rs:204-220 | for an existing id, exactly the rows with that id are patched, the returned row is the patched stored project, and the store stays valid with the other tables unchanged |
| ProjectHandlers.UpdateProject | backend/src/api/projects.rs:173-234 | any member of the project's organization updates it in place; others get Authorization and nothing changes |
| ProjectHandlers.DeleteProject | backend/src/api/projects.rs:236-280 | owners and admins remove the project (204); other members get Authorization; outsiders get NotFound |
| ProjectHandlers.DeleteProjectOutcome | backend/src/api/projects.rs:262-279 | the delete is allowed iff the role is owner or admin |
| ProjectHandlers.DeleteRemovesExactlyOne | backend/src/api/projects.rs:262-273 | after a delete the project is gone and every other project remains |
| TaskHandlers.MaxPosition | backend/src/api/tasks.rs:52-57 | none iff the status group is empty; otherwise the largest position in the group |
| TaskHandlers.NextPosition | backend/src/api/tasks.rs:52-64 | above every position in the group, and 0 for an empty group |
| TaskHandlers.ThreeCreatesCount | backend/src/api/tasks.rs:52-64 | three creates in an empty group get positions 0, 1 and 2 |
| TaskHandlers.CreateTask | backend/src/api/tasks.rs:15-93 | project access required; the task goes at the next position of its status group and 201 is returned; nothing else changes |
| TaskHandlers.NewTaskDefaults | backend/src/api/tasks.rs:66-84 | a new task has "todo" and "medium" by default, the caller as creator, and no completion time |
| TaskHandlers.NewTask | backend/src/api/tasks.rs:66-84 | the inserted task row; characterised by `NewTaskDefaults` |
| TaskHandlers.TasksOf | backend/src/api/tasks.rs:128-134 | exactly the project's tasks |
| TaskHandlers.SortedBoard | backend/src/api/tasks.rs:133 | sorted by the key means by position, then creation time |
| TaskHandlers.GetProjectTasks | backend/src/api/tasks.rs:95-147 | members only; every task of the project, nothing else, by position then creation time |
| TaskHandlers.GetTask | backend/src/api/tasks.rs:149-180 | NotFound iff the caller does not reach the task; otherwise that task's response |
| TaskHandlers.CompletedAt | backend/src/api/tasks.rs:214-237 | "done" stamps now; any other update keeps the stored value, so a completion time is never cleared |
| TaskHandlers.TaskUpdateCoalesces | backend/src/api/tasks.rs:226-239 | each given field, the optional description, assignee and due date included, replaces the stored one exactly; a missing field keeps the stored value; updated_at is now |
| TaskHandlers.ApplyTaskUpdate | backend/src/api/tasks.rs:226-241 | the `COALESCE` update of one task row; characterised by `TaskUpdateCoalesces` and `CompletedAt` |
| TaskHandlers.ReopenedTaskStaysCompleted | backend/src/api/tasks.rs:214-237 | a task marked done and then moved back keeps its completion time |
| TaskHandlers.UpdateOnlyTask | backend/src/api/tasks.rs:224-241 | with unique ids, rewriting the row found for the id is the `UPDATE ... WHERE id = $1`: that row changes and no other |
| TaskHandlers.StoreTaskUpdate | backend/src/api/tasks.rs:224-243 | for an existing id, exactly the rows with that id are patched, the returned row is the patched stored task, and the store stays valid with the other tables unchanged |
| TaskHandlers.UpdateTask | backend/src/api/tasks.rs:182-262 | any member of the task's organization patches it in place; others get Authorization and nothing changes |
| TaskHandlers.DeleteTask | backend/src/api/tasks.rs:264-306 | any member removes the task (204) without a role check; others get NotFound |
| TaskHandlers.CreateComment | backend/src/api/tasks.rs:308-361 | task access required; the comment is stored with the caller as author and 201 is returned |
| TaskHandlers.CommentsOf | backend/src/api/tasks.rs:396-401 | exactly the task's comments |
| TaskHandlers.SortedOldestFirst | backend/src/api/tasks.rs:400 | sorted by the key means creation times ascend |
| TaskHandlers.GetTaskComments | backend/src/api/tasks.rs:363-415 | members only; every comment of the task, nothing else, oldest first |
| AuthHandlers.ValidEmailShape | backend/src/api/auth.rs:19 | an accepted address is a non-empty local part, one '@', and a non-empty host |
| AuthHandlers.EmailExamples | backend/src/api/auth.rs:19 | "" and "alice" are not addresses |
| AuthHandlers.IsValidEmail | backend/src/api/auth.rs:19 | the address rule; its shape is stated by `ValidEmailShape` and its refusals by `EmailExamples` |
| AuthHandlers.ValidationFailures | backend/src/api/auth.rs:17-34 | no failures iff the email is valid and any checked password has at least 8 characters; the email's message comes first |
| AuthHandlers.Validate | backend/src/api/auth.rs:47-49 | a Validation error iff some field fails |
| AuthHandlers.NewUser | backend/src/api/auth.rs:66-80 | the inserted row keeps the hash, never the password, and is active, unverified and without a login; stated through `Register` and `RegisteredHashChecksPassword` |
| AuthHandlers.Register | backend/src/api/auth.rs:43-99 | validation, then Conflict on a used email, then the hash; a hashing error is returned as it is and nothing is stored; the user row is added iff hashing succeeds; a token error after the insert is returned as it is; success returns 201, the user and a token |
| AuthHandlers.RegisteredHashChecksPassword | backend/src/api/auth.rs:63-80 | the stored hash verifies the registered password and, with a sound hasher, no other |
| AuthHandlers.CheckLogin | backend/src/api/auth.rs:105-126 | validation first; an unknown email and a wrong password both give "Invalid credentials"; an inactive account gives "Account is deactivated" |
| AuthHandlers.LoginDecisions | backend/src/api/auth.rs:105-126 | an active user with the right password is accepted, with a wrong one refused, and an inactive one refused even with the right password |
| AuthHandlers.StampLastLogin | backend/src/api/auth.rs:128-134 | every row with the id gets the login time, and only its last-login field changes; other rows stay as they are |
| AuthHandlers.StampOnlyUser | backend/src/api/auth.rs:128-134 | with unique ids and e-mails, stamping the row found for the user is the whole update, and both stay unique |
| AuthHandlers.Login | backend/src/api/auth.rs:100-150 | on success only that user's last-login time changes, and the token is issued; on refusal nothing changes |
| AuthHandlers.Me | backend/src/api/auth.rs:152-170 | the caller's own user response, or NotFound "User not found" |
| AuthService.FullName | frontend/src/services/auth.rs:17-24 | "first last", either name alone, or the email |
| AuthService.FullNameNonEmpty | frontend/src/services/auth.rs:17-24 | never empty for a non-empty email and non-empty names |
| AuthService.StoreOnSuccess | frontend/src/services/auth.rs:64-69 | a successful response stores its token; a failure leaves storage alone |
| AuthService.Register | frontend/src/services/auth.rs:51-70 | returns the response and stores the token on success only |
| AuthService.Login | frontend/src/services/auth.rs:73-82 | returns the response and stores the token on success only |
| AuthService.Logout | frontend/src/services/auth.rs:85-87 | the token is removed and the client is not authenticated |
| AuthContextState.AuthContext.LoadUser | frontend/src/components/auth_context.rs:27-49 | without a token nothing changes; a fetched user is set; a failure clears the user, records the message and drops the token |
| AuthContextState.AuthContext.Login | frontend/src/components/auth_context.rs:52-71 | success sets the user and stores the token; failure records and returns the message |
| AuthContextState.AuthContext.Register | frontend/src/components/auth_context.rs:74-99 | as login |
| AuthContextState.AuthContext.Logout | frontend/src/components/auth_context.rs:102-106 | token, user and error all cleared |
| OrganizationContextState.OrganizationContext.LoadOrganizations | frontend/src/components/organization_context.rs:16-34 | the list is replaced; the first becomes current only when none was; a failure keeps the list and records the prefixed message |
| OrganizationContextState.OrganizationContext.CreateOrganization | frontend/src/components/organization_context.rs:36-66 | success appends the organization and makes it current; failure records and returns the prefixed message |
| OrganizationContextState.OrganizationContext.SetCurrentOrganization | frontend/src/components/organization_context.rs:68-70 | the given organization becomes current |
| OrganizationContextState.OrganizationContext.SetCurrentOrganizationById | frontend/src/components/organization_context.rs:72-77 | the first organization with that id becomes current; an unknown id changes nothing |
| ProjectBoard.Column | frontend/src/pages/project_detail.rs:117-127 | a column holds exactly the tasks with its status |
| ProjectBoard.ColumnKeepsOrder | frontend/src/pages/project_detail.rs:117-127 | columns keep list order: the column of a concatenation is the concatenation of columns |
| ProjectBoard.ColumnCounts | frontend/src/pages/project_detail.rs:117-127 | the three columns together hold every task with a board status, and all tasks iff every status is one of the three |
| ProjectBoard.Transitions | frontend/src/pages/project_detail.rs:193-310 | a column never offers its own status, offers only board statuses, and todo and in_progress offer done |
| ProjectBoard.TransitionGraph | frontend/src/pages/project_detail.rs:193-310 | every column reaches every other in at most two clicks, the second from in_progress; done offers only in_progress |
| ProjectBoard.PriorityColour | frontend/src/pages/project_detail.rs:177-182 | red, yellow and green borders for high, medium and low, and gray otherwise |
| ProjectBoard.Board.LoadTasks | frontend/src/pages/project_detail.rs:28-46 | only for a non-empty project id: the list or the prefixed error, and loading ends; only the list, loading and error may change |
| ProjectBoard.Board.HandleCreate | frontend/src/pages/project_detail.rs:48-87 | an empty title is refused before any request; the request is a "todo" task; success appends and resets the form; failure shows the prefixed error; a refusal or a failure changes only the create error, and loading and the load error never change |
| ProjectBoard.Board.HandleStatusChange | frontend/src/pages/project_detail.rs:89-115 | sends only the new status; success replaces the first task with that id; failure changes nothing; only the task list may change |
| ProjectBoard.StatusChangeTouchesOne | frontend/src/pages/project_detail.rs:103-107 | after a status change only the first matching entry differs; length and order are kept |
| Forms.OptionalText | frontend/src/pages/organizations.rs:57-61 | an empty description is sent as none |
| Forms.OrganizationFormError | frontend/src/pages/organizations.rs:41-55 | name, slug, then slug characters are checked in that order; accepted iff all pass |
| Forms.GeneratedSlugAccepted | frontend/src/pages/organizations.rs:17-55 | a non-empty generated slug always passes the form's checks |
| Forms.OrganizationsPage.HandleNameChange | frontend/src/pages/organizations.rs:17-31 | the name is set, and the slug becomes the generated, well-formed slug |
| Forms.OrganizationsPage.HandleCreate | frontend/src/pages/organizations.rs:33-77 | a refused form sends nothing; otherwise the context creates; success clears the form, closes the modal and makes the new organization current; failure shows the context's message, which the context also holds, and keeps the fields, the modal and the current organization; a refusal leaves the context untouched |
| Forms.ProjectFormError | frontend/src/pages/projects.rs:66-74 | the name is checked before the slug; accepted iff both are non-empty |
| Forms.ProjectsPage.LoadProjects | frontend/src/pages/projects.rs:27-45 | only for a non-empty organization id: the list or the prefixed error, and loading ends; only the list, loading and error may change |
| Forms.ProjectsPage.SetName | frontend/src/pages/projects.rs:48-59 | a non-empty name rewrites the slug with the auto-slug; an empty one leaves it; only the name and slug may change |
| Forms.ProjectsPage.HandleCreate | frontend/src/pages/projects.rs:61-107 | a refused form sends nothing; the request carries the chosen status and colour; success appends and resets to "planning" and "#3B82F6"; failure shows the prefixed error; a refusal or a failure changes only the create error, and loading and the load error never change |
| OrganizationDetail.RoleBadge | frontend/src/pages/organization_detail.rs:99 | the caller's role, or "member" |
| OrganizationDetail.DisplayName | frontend/src/pages/organization_detail.rs:146-154 | the email when both names are missing; otherwise the trim of first name, one space and last name, a missing name counting as empty |
| OrganizationDetail.DisplayNameOfCleanNames | frontend/src/pages/organization_detail.rs:146-154 | with clean names, "first last" or the one name given |
| OrganizationDetail.Initial | frontend/src/pages/organization_detail.rs:161 | the upper-cased first character, or '?' for an empty name |
| OrganizationDetail.OrganizationDetailPage.Load | frontend/src/pages/organization_detail.rs:23-48 | nothing for a route id that is not a uuid; members are requested only after the organization loads; each failure has its prefixed message; loading ends |
| OrganizationDetail.OrganizationDetailPage.MemberCount | frontend/src/pages/organization_detail.rs:137 | the member counter is the number of loaded members |

## Left out

- Database failures are not modelled. The `DatabaseError` and `Database` paths of every handler cannot happen here, because the in-memory store never fails. Their rendering is modelled, in `Errors.IntoResponse`.
- Foreign keys other than a membership's organization are not modelled, and neither are cascades. `Store.Db.Valid` keeps the unique keys and requires every membership row to name a stored organization. Deleting a project leaves its tasks in the store, and deleting a task leaves its comments.
- Concurrency is not modelled. Each handler runs atomically, so the window between a uniqueness check and its insert cannot be exploited here.
- TaskHandlers.NextPosition: the 32-bit integer overflow of `max_pos + 1` is not modelled; positions are unbounded integers.
- Uuids.Parse: only the hyphenated and the 32-digit forms are accepted. The braced and `urn:uuid:` forms are left out.
- Text.IsAlphanumeric, Text.Lower, Text.Trim and Text.ToUpperChar are restricted to ASCII. Unicode letters, case mappings and whitespace are left out.
- AuthHandlers.IsValidEmail approximates the validator crate's email rule with an ASCII-only local part and dot-separated host labels. It does not model internationalised domains or IP-literal hosts.
- AuthHandlers.Validate joins the failed fields' messages with newlines. The validator crate's exact error text is left out; the variant, and which fields fail, are modelled.
- Argon2 hashing and JWT signing are opaque function values. Their cryptography is left out. What the source's tests assert about them is stated as the `SoundHasher` and `SoundCodec` hypotheses of the lemmas that need it.
- The random salt, fresh database ids and `NOW()` are parameters. The token expiration and secret come from configuration and are parameters too.
- The `OrganizationResponse` conversion in `backend/src/models/mod.rs` is not used by the handlers, which build their own response with the caller's role. Only the handlers' version is modelled.
- Routing and the server set-up in `backend/src/main.rs` are not part of this model, including which handlers are mounted and which routes sit behind the middleware. As written, the `route_layer` at `backend/src/main.rs:83-86` is added after every route, so it also covers the register and login routes.
- The project and task handlers take their caller through `Extension<AuthUser>` (`backend/src/api/projects.rs:17`, `backend/src/api/tasks.rs:17`). The middleware stores the subject as a `String` (`backend/src/middleware/auth.rs:47`), so that extractor would find no `AuthUser` and axum would answer 500 before the handler body runs. These routes are not mounted in `backend/src/main.rs`. The model starts at the handler bodies and takes the caller as the `AuthUser` extractor (`Middleware.ExtractAuthUser`) yields it.
- The frontend's HTTP client, `localStorage` access and the `spawn_local` scheduling are not modelled. Each awaited response is a parameter, and local storage is the single token slot of `AuthService.TokenStorage`.
- View markup, CSS classes other than the priority border, and event plumbing are left out.
- ProjectBoard.Board.HandleStatusChange: a failed update is only logged by the source. The log line is left out, and the model leaves the state unchanged.
- Errors.IntoResponse: the `tracing::error!` lines written for server-side errors (`backend/src/utils/error.rs:53-75`) are left out. Only the response is modelled.
- Forms.ProjectsPage.LoadProjects, Forms.ProjectsPage.HandleCreate, ProjectBoard.Board.LoadTasks and ProjectBoard.Board.HandleCreate: the `log::info!` and `log::error!` lines are left out. The state changes beside them are modelled.
