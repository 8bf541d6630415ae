# TaskMate front end: a Dafny model of its core

TaskMate is a to-do web application. This project models the logic of its
React front end and proves properties of that model:

- **the dashboard's visible task list** (`Dashboard`): the tasks that pass
  the case-insensitive text search, the status filter (all, active,
  completed) and the category filter, ordered by the chosen task property
  and direction. The filter keeps the input order. `View` is specified by
  its multiset of elements, by being ordered under the comparator, and by
  keeping tasks that compare equal in their filtered order; these three
  determine it (`Dashboard.ViewUnique`). The comparator is proved to be a
  total preorder, and the insertion sort to return an ordered permutation
  that is stable (`Dashboard.SortStable`). A descending view is the
  ascending view reversed whenever the key tells the shown tasks apart.
- **the authentication service** (`AuthService`): `login`, `logout` and
  `getProfile` write the browser's `localStorage`, modelled as a class
  holding a string-keyed map. `isAuthenticated` and `getUser` read it.
  Each write is a method proved against a function of the storage before
  it. Those functions state what a later read returns and that no other key
  changes.
- **the session provider** (`AuthContext`): the `isAuthenticated` and `user`
  state cells as a class. Its methods are `login`, `signup`, `verifyEmail`,
  `logout` and the profile-reconciling effect. Each asynchronous operation
  is one method that receives the reply its request settled with. Lemmas
  compare the cells after each operation with what a provider mounted
  afresh on the same storage would read.
- **the email-verification page** (`VerifyEmail`): its status machine
  (idle, loading, success, error) and the message it shows.
- **the header initials** (`DashboardLayout.GetInitials`): the first letters
  of the first and last words of the trimmed name. This includes the
  exception the code throws for a name made only of whitespace.
- **the task dialog** (`TaskDialog`): the form's initial values, per-field
  edits, re-rendering with a new task, and the submit that calls the task
  store and then closes the dialog. The task store is not part of this
  model. The calls the dialog makes to it are recorded as a sequence of
  actions. The form is initialised from the task of the first render only,
  which the dashboard's single dialog does not expect (see "Findings").

The JavaScript string operations these rely on are modelled in `JsString`:
- lower- and upper-casing;
- `includes`;
- `localeCompare`;
- `trim`, with the ECMAScript whitespace set;
- `split` on one character, keeping empty pieces.

Task records and their enumerations are in `TaskTypes`.

Behaviour of the code worth knowing, which the model follows:
- A rejected profile request resets both state cells
  (`src/store/AuthContext.tsx:28-31`) but leaves the stored token, so a
  reload restores an authenticated session
  (`AuthContext.RejectedProfileNotPersisted`).
- A successful profile reply is stored whatever its `data` is: `null` is
  stored as the JSON text `null`, which reads back as no user, and a reply
  without `data` stores the text "undefined", which `getUser` cannot parse
  (`AuthContext.MissingProfileBreaksRemount`).
- The sort option "status" names no property of a task, so it leaves the
  filtered order unchanged (`Dashboard.ViewNonFieldKey`). It does not sort
  by completion.
- Priorities sort by their names, so ascending order is high, low, medium
  (`Dashboard.PrioritySortsByName`).

## Model

| member | source | states |
|---|---|---|
| `JsString.ToLower` | src/pages/dashboard/index.tsx:24-25 | lower-casing keeps the length and maps each character on its own |
| `JsString.ToUpper` | src/components/layout/DashboardLayout.tsx:16-17 | upper-casing keeps the length and maps each character on its own |
| `JsString.ToLowerIdempotent` | src/pages/dashboard/index.tsx:24-25 | lower-casing twice is lower-casing once |
| `JsString.Includes` | src/pages/dashboard/index.tsx:24-25 | the empty string occurs in every string; a string that occurs is no longer than the text |
| `JsString.IncludesIff` | src/pages/dashboard/index.tsx:24-25 | `includes` holds exactly when the query occurs at some index of the text |
| `JsString.LocaleCompare` | src/pages/dashboard/index.tsx:38 | the comparison is -1, 0 or 1, and 0 exactly for equal strings |
| `JsString.LocaleCompareAntisymmetric` | src/pages/dashboard/index.tsx:38 | swapping the operands negates the comparison |
| `JsString.LocaleCompareTransitive` | src/pages/dashboard/index.tsx:38 | "not after" is transitive, so the order is total |
| `JsString.LeadingSpec` | src/components/layout/DashboardLayout.tsx:15 | the leading-whitespace count covers only whitespace and stops at the first non-whitespace character |
| `JsString.TrailingSpec` | src/components/layout/DashboardLayout.tsx:15 | the trailing-whitespace count covers only whitespace and stops at the last non-whitespace character |
| `JsString.Trim` | src/components/layout/DashboardLayout.tsx:15 | `trim()`: the text between the leading and the trailing whitespace; its meaning is stated by `TrimSpec`, `TrimBetween`, `TrimEmpty` and `TrimIgnoresPadding` |
| `JsString.TrimSpec` | src/components/layout/DashboardLayout.tsx:15 | the trimmed string is the input minus a whitespace prefix and a whitespace suffix, and starts and ends with non-whitespace |
| `JsString.TrimBetween` | src/components/layout/DashboardLayout.tsx:15 | trimming keeps exactly the text between the leading and the trailing whitespace |
| `JsString.TrimEmpty` | src/components/layout/DashboardLayout.tsx:15 | trimming gives the empty string exactly for all-whitespace input |
| `JsString.TrimIgnoresPadding` | src/components/layout/DashboardLayout.tsx:15 | whitespace added on either side does not change the trimmed string |
| `JsString.Split` | src/components/layout/DashboardLayout.tsx:15 | at least one piece; no piece contains the separator |
| `JsString.JoinSplit` | src/components/layout/DashboardLayout.tsx:15 | joining the pieces with the separator gives back the input |
| `JsString.SplitSingle` | src/components/layout/DashboardLayout.tsx:16 | there is one piece exactly when the separator does not occur, and it is then the whole input |
| `JsString.SplitFirst` | src/components/TaskDialog.tsx:20 | the first piece is the prefix up to the first separator |
| `JsString.SplitLast` | src/components/layout/DashboardLayout.tsx:17 | the last piece is the suffix after the last separator |
| `TaskTypes.PriorityName` | src/types/task.ts:1 | each priority is its string literal at run time; `PriorityNameInjective` states that the literals differ |
| `TaskTypes.CategoryName` | src/types/task.ts:2 | no category's literal is the empty string, which the category filter reads as "all" |
| `TaskTypes.PriorityNameInjective` | src/types/task.ts:1 | distinct priorities have distinct literals |
| `TaskTypes.CategoryNameInjective` | src/types/task.ts:2 | distinct categories have distinct literals |
| `Dashboard.Filter` | src/pages/dashboard/index.tsx:22-31 | the tasks that pass the three filters, in input order; its meaning is stated by `FilterCounts`, `FilterAppend` and `FilterSingle` |
| `Dashboard.MatchesSearch` | src/pages/dashboard/index.tsx:24-25 | the lower-cased search occurs in the lower-cased title or description |
| `Dashboard.MatchesStatus` | src/pages/dashboard/index.tsx:26-27 | "all" passes every task; otherwise "completed" passes completed tasks and "active" the others |
| `Dashboard.MatchesCategory` | src/pages/dashboard/index.tsx:28 | the empty selection passes every task; otherwise the task's category literal must equal it |
| `Dashboard.Keep` | src/pages/dashboard/index.tsx:30 | a task is kept when it passes all three filters |
| `Dashboard.FilterCounts` | src/pages/dashboard/index.tsx:22-31 | each task occurs as often as in the input if it passes all three filters, and not at all otherwise |
| `Dashboard.FilterAppend` | src/pages/dashboard/index.tsx:22-31 | filtering a concatenation concatenates the filtered parts, so the filter keeps the input order |
| `Dashboard.FilterSingle` | src/pages/dashboard/index.tsx:22-31 | a single task is kept exactly when it passes the filters |
| `Dashboard.Lookup` | src/pages/dashboard/index.tsx:33-34 | `task[key]` is a string for the string properties, a boolean for `completed`, and neither for any other key |
| `Dashboard.Modifier` | src/pages/dashboard/index.tsx:35 | 1 for ascending and -1 for descending |
| `Dashboard.Compare` | src/pages/dashboard/index.tsx:32-44 | the comparator returns -1, 0 or 1 |
| `Dashboard.DescendingNegatesAscending` | src/pages/dashboard/index.tsx:35 | the descending comparison is the ascending one negated |
| `Dashboard.BooleanKeyOrder` | src/pages/dashboard/index.tsx:40-41 | by `completed`, ascending order puts false before true, and equal flags compare equal |
| `Dashboard.StringKeyEqual` | src/pages/dashboard/index.tsx:37-38 | by a string property, two tasks compare equal exactly when the property is equal |
| `Dashboard.NonFieldKeyComparesEqual` | src/pages/dashboard/index.tsx:43 | a key that is not a task property makes every pair compare equal |
| `Dashboard.PrioritySortsByName` | src/pages/dashboard/index.tsx:37-38 | ascending by priority puts high before low before medium |
| `Dashboard.CompareAntisymmetric` | src/pages/dashboard/index.tsx:32-44 | swapping two tasks negates the comparison |
| `Dashboard.CompareTransitive` | src/pages/dashboard/index.tsx:32-44 | the comparator's "not after" is transitive |
| `Dashboard.Insert` | src/pages/dashboard/index.tsx:32 | insertion adds exactly the new task to the multiset |
| `Dashboard.Sort` | src/pages/dashboard/index.tsx:32-44 | the sort's result is a permutation of its input; ordered and stable by `SortSorted` and `SortStable` |
| `Dashboard.InsertSorted` | src/pages/dashboard/index.tsx:32-44 | inserting into an ordered list keeps it ordered |
| `Dashboard.SortSorted` | src/pages/dashboard/index.tsx:32-44 | the sort's result is ordered by the comparator |
| `Dashboard.SortAllEqual` | src/pages/dashboard/index.tsx:32-44 | when every pair compares equal the sort keeps the input order |
| `Dashboard.InsertTies` | src/pages/dashboard/index.tsx:32-44 | an inserted task goes in front of the tasks that compare equal with it |
| `Dashboard.SortStable` | src/pages/dashboard/index.tsx:32-44 | the sort is stable: for every task, the tasks that compare equal with it come out in their input order |
| `Dashboard.SortedTiesUnique` | src/pages/dashboard/index.tsx:32-44 | two ordered lists that list the tasks comparing equal with every task alike are equal |
| `Dashboard.SortedUnique` | src/pages/dashboard/index.tsx:32-44 | two ordered permutations of the same tasks are equal when the key tells them apart |
| `Dashboard.ReverseSorted` | src/pages/dashboard/index.tsx:35 | an ascending list reversed is descending |
| `Dashboard.DescendingIsReversedAscending` | src/pages/dashboard/index.tsx:35 | when the key tells the tasks apart, sorting descending gives the ascending order reversed |
| `Dashboard.View` | src/pages/dashboard/index.tsx:22-44 | the visible list holds exactly the tasks that pass the filters, as often as in the input, ordered by the chosen key and direction, with tasks that compare equal in their filtered order |
| `Dashboard.ViewUnique` | src/pages/dashboard/index.tsx:22-44 | any ordered list that keeps equal-comparing tasks in their filtered order is the view, so `View`'s contract determines what the page shows |
| `Dashboard.ViewMembers` | src/pages/dashboard/index.tsx:22-31 | a task is shown exactly when it is in the list and passes the filters |
| `Dashboard.ViewNonFieldKey` | src/pages/dashboard/index.tsx:43 | sorting by "status", or any other non-property, shows the filtered tasks in their original order |
| `Dashboard.FilterIgnoresOrder` | src/pages/dashboard/index.tsx:22-31 | filtering does not depend on the sort key or direction |
| `Dashboard.ViewDescendingReversed` | src/pages/dashboard/index.tsx:35 | when the key tells the shown tasks apart, the descending view is the ascending view reversed |
| `Dashboard.EmptySearchMatchesAll` | src/pages/dashboard/index.tsx:24-25 | the empty search matches every task |
| `Dashboard.SearchIgnoresCase` | src/pages/dashboard/index.tsx:24-25 | the case of the search text and of the task's text does not change the match |
| `Dashboard.SearchIsSubstring` | src/pages/dashboard/index.tsx:24-25 | a task matches exactly when the lower-cased search occurs in its lower-cased title or description |
| `Dashboard.StatusFilterCases` | src/pages/dashboard/index.tsx:26-27 | "all" passes every task, "completed" the completed ones, "active" the others |
| `Dashboard.CategoryFilterExact` | src/pages/dashboard/index.tsx:28 | no category passes every task; a category passes exactly its own tasks |
| `Dashboard.CompletedFilterExample` | src/pages/dashboard/index.tsx:26-27 | filtering by "completed" keeps only the completed task of a pair |
| `DashboardLayout.GetInitials` | src/components/layout/DashboardLayout.tsx:13-18 | it throws exactly for a non-empty name made only of whitespace |
| `DashboardLayout.InitialsOf` | src/components/layout/DashboardLayout.tsx:15-17 | the initials of an already trimmed name: the first word's first letter, then the last word's when there are several words; reading a letter of an empty word throws |
| `DashboardLayout.InitialsOfWords` | src/components/layout/DashboardLayout.tsx:17 | for a trimmed name with a space, the initials are its first letter and the letter after its last space, upper-cased |
| `DashboardLayout.InitialsOneWord` | src/components/layout/DashboardLayout.tsx:16 | a trimmed name without a space gives its first letter upper-cased |
| `DashboardLayout.InitialsSeveralWords` | src/components/layout/DashboardLayout.tsx:17 | a trimmed name with a space gives its first letter and the letter after its last space, upper-cased |
| `DashboardLayout.InitialsIgnorePadding` | src/components/layout/DashboardLayout.tsx:15 | whitespace around a non-empty name does not change the initials |
| `DashboardLayout.InitialsLength` | src/components/layout/DashboardLayout.tsx:13-18 | the initials are empty only for the empty name, and never longer than two characters |
| `AuthService.IsAuthenticated` | src/services/auth.ts:74-76 | authenticated exactly when a token is stored and is not the empty string |
| `AuthService.GetUser` | src/services/auth.ts:78-81 | no user for a missing or empty entry or the JSON `null`, the stored user for a user's JSON, and a parse error for other text |
| `AuthService.AfterLogin` | src/services/auth.ts:49-57 | after a successful login with data the stored token is the reply's token, the stored user reads back as the returned user, and the session is authenticated exactly when the token is non-empty; otherwise storage is unchanged; other keys never change |
| `AuthService.AfterLogout` | src/services/auth.ts:59-61 | after logout neither key is stored, so no session and no user are read; other keys never change |
| `AuthService.AfterProfile` | src/services/auth.ts:65-72 | a successful reply's data is stored: a user reads back as that user, `null` as no user, and missing data as a parse error; the token and the authentication state never change |
| `AuthService.Login` | src/services/auth.ts:49-57 | passes the reply on and updates the storage as `AfterLogin` says |
| `AuthService.Logout` | src/services/auth.ts:59-61 | updates the storage as `AfterLogout` says |
| `AuthService.GetProfile` | src/services/auth.ts:65-72 | passes the reply on and updates the storage as `AfterProfile` says |
| `AuthService.LogoutIdempotent` | src/services/auth.ts:59-61 | logging out twice is logging out once |
| `AuthService.LogoutUndoesLogin` | src/services/auth.ts:49-61 | a login followed by logout leaves the storage as logout alone |
| `AuthService.EmptyTokenIsAbsent` | src/services/auth.ts:74-76 | an empty stored token reads as no token |
| `AuthContext.Outcome` | src/store/AuthContext.tsx:45-57 | the operation returns exactly on a successful reply; otherwise it throws the reply's description or passes the rejection on |
| `AuthContext.AuthProvider.constructor` | src/store/AuthContext.tsx:15-17 | both cells start as read from storage |
| `AuthContext.AuthProvider.ProfileEffectFires` | src/store/AuthContext.tsx:20 | the profile effect requests the profile only when authenticated and without a user |
| `AuthContext.AuthProvider.ReconcileProfile` | src/store/AuthContext.tsx:19-33 | the effect acts only when authenticated without a user; then a success with a user sets it, a success without one or an unsuccessful reply leaves the cells, and a rejection resets both cells; storage changes as `getProfile` changes it |
| `AuthContext.AuthProvider.Login` | src/store/AuthContext.tsx:35-43 | success authenticates with the returned user; failure throws the description and a rejection propagates, both leaving the cells unchanged; success with `null` or no data sets the flag and then throws the matching TypeError |
| `AuthContext.AuthProvider.Signup` | src/store/AuthContext.tsx:45-50 | returns exactly on success; touches no cell and no storage |
| `AuthContext.AuthProvider.VerifyEmail` | src/store/AuthContext.tsx:52-57 | returns exactly on success; touches no cell and no storage |
| `AuthContext.AuthProvider.Logout` | src/store/AuthContext.tsx:59-63 | clears both storage keys and both cells |
| `AuthContext.LoginPersists` | src/store/AuthContext.tsx:35-43 | after a successful login with a non-empty token, a fresh provider restores the same session |
| `AuthContext.EmptyTokenLoginNotPersisted` | src/store/AuthContext.tsx:35-43 | after a successful login with an empty token, a fresh provider starts signed out |
| `AuthContext.LogoutPersists` | src/store/AuthContext.tsx:59-63 | after logout, a fresh provider starts signed out with no user |
| `AuthContext.ProfilePersists` | src/store/AuthContext.tsx:19-27 | after a successful profile fetch that returns a user, a fresh provider restores the session with that user |
| `AuthContext.RejectedProfileNotPersisted` | src/store/AuthContext.tsx:28-31 | a rejected profile fetch leaves storage as it was, so a fresh provider starts authenticated again |
| `AuthContext.MissingProfileBreaksRemount` | src/services/auth.ts:68-69 | a successful profile reply without data stores text that makes a later `getUser` throw |
| `VerifyEmail.RejectionMessage` | src/pages/auth/verify-email.tsx:29-32 | an `Error`'s message, or the fallback text for any other rejection |
| `VerifyEmail.VerifyEmailPage.constructor` | src/pages/auth/verify-email.tsx:8-9 | the page starts idle with an empty message |
| `VerifyEmail.VerifyEmailPage.Start` | src/pages/auth/verify-email.tsx:11-19 | a request is sent exactly when the token is present and non-empty, and the page is then loading; otherwise the page shows the missing-token error |
| `VerifyEmail.VerifyEmailPage.Settle` | src/pages/auth/verify-email.tsx:20-32 | in any status, success shows the verified message; an unsuccessful reply shows its description; a rejection shows its message or the fallback, with error status |
| `TaskDialog.DatePart` | src/components/TaskDialog.tsx:20 | the date part is the prefix of the due date before its first 'T' |
| `TaskDialog.DatePartIdempotent` | src/components/TaskDialog.tsx:20 | cutting the time off a date part changes nothing |
| `TaskDialog.InitialForm` | src/components/TaskDialog.tsx:17-23 | for a task, its values with the date part of its due date; for none, a blank form in category work and priority medium |
| `TaskDialog.InitialFormDate` | src/components/TaskDialog.tsx:20 | a task due at an ISO timestamp (a date, `T`, a time) opens with the bare date |
| `TaskDialog.Apply` | src/components/TaskDialog.tsx:54-101 | an edit sets its own field and leaves every other field as it was |
| `TaskDialog.EditsCommute` | src/components/TaskDialog.tsx:54-101 | edits of different fields can be made in either order |
| `TaskDialog.LastEditWins` | src/components/TaskDialog.tsx:54-101 | of two edits of the same field, the later one wins |
| `TaskDialog.SubmitActions` | src/components/TaskDialog.tsx:25-38 | editing sends an update of that task and no addition; adding sends a not-completed task and no update; both then close the dialog |
| `TaskDialog.Submittable` | src/components/TaskDialog.tsx:56-77 | the browser submits only when the two `required` inputs, title and due date, are filled in |
| `TaskDialog.TaskDialogState.constructor` | src/components/TaskDialog.tsx:17-23 | on mounting, the form starts as `InitialForm` of the first render's task and nothing has been sent |
| `TaskDialog.TaskDialogState.Rerender` | src/pages/dashboard/index.tsx:215-221 | a render with a new `task` prop changes the prop only; the form and the calls sent stay as they were |
| `TaskDialog.TaskDialogState.Remount` | src/components/TaskDialog.tsx:17-23 | a fresh mount for a task starts the form again as `InitialForm` of that task |
| `TaskDialog.TaskDialogState.Edit` | src/components/TaskDialog.tsx:54-101 | the form becomes `Apply` of the edit |
| `TaskDialog.TaskDialogState.Submit` | src/components/TaskDialog.tsx:25-38 | the submit is handled exactly when title and due date are filled in, and then appends the submit's calls |
| `TaskDialog.TaskDialogState.Cancel` | src/components/TaskDialog.tsx:113 | cancelling only asks to close the dialog |
| `TaskDialog.EditAfterPropChange` | src/pages/dashboard/index.tsx:215-221 | opening the mounted dialog on a task and filling in title and date sends an update carrying the blank form's description, category and priority, not the task's |
| `TaskDialog.EditAfterRemount` | src/components/TaskDialog.tsx:17-38 | the same steps on a freshly mounted dialog send an update that keeps the task's description, category and priority |

## Left out

- Locale-aware collation: `localeCompare` is modelled as lexicographic order on character codes, which is a total order. Real collation can order letters of different case differently.
- Unicode case mapping: `toLowerCase` and `toUpperCase` map ASCII letters only.
- UTF-16: strings are sequences of characters, so `word[0]` of a character outside the Basic Multilingual Plane is a whole character here, not half of a surrogate pair.
- JSON: `JSON.stringify` and `JSON.parse` are taken as inverse to each other on users and on `null`. The model treats every other stored text as text that `JSON.parse` rejects, although JSON of other values, such as a number, would parse. The JSON text itself is not modelled.
- The HTTP client, the endpoints and promise scheduling: every request's reply is an input value. Effects re-running, interleaved requests and state updates arriving after unmount are not modelled.
- AuthContext.AuthProvider.constructor: requires a readable stored user. Mounting with stored text that is not JSON throws during rendering, and that case is not modelled.
- TaskDialog.TaskDialogState.constructor: models the first mount only. Later renders of the same mounted dialog are `Rerender`, which keeps the form.
- React's effect scheduling: each run of the profile effect and of the verification page's effect is one call of the method that models it. The verification effect running again when the query string changes is not modelled.
- `window.location.href = '/login'` in `logout`, and page navigation: redirects are not modelled.
- `src/store/TaskContext.tsx` is not part of this model. `addTask` and `updateTask` are recorded as outgoing actions. `deleteTask` and `toggleTaskComplete` are only passed to the task component.
- `src/services/todos.ts`: thin wrappers over the HTTP client. Only the task record shape is used.
- `src/pages/auth/login.tsx`: the call site expects a boolean from `login`, which returns nothing or throws. The call site is not modelled.
- `user` cell: `setUser(undefined)` for a profile reply without data is modelled as no user, the same as `null`; both read as no user in every check the code makes.
- `src/pages/auth/signup.tsx`: its submit handler only logs.
- `src/components/Task.tsx` and `src/App.tsx`: presentation, routing and theming.
- TaskDialog.TaskDialogState.Submit: the browser's `required` check is modelled as "non-empty". The date input's own validation of the date format is not modelled.

## Findings

| source | as written | input that shows it | evidently intended | confidence | as-written member | corrected member |
|---|---|---|---|---|---|---|
| src/pages/dashboard/index.tsx:215-221 | the dashboard keeps one dialog mounted and only changes its `task` prop, while the form state is initialised from the prop of the first render only (`src/components/TaskDialog.tsx:17-23`) | the page first renders with no task being edited; the user then edits a task with a non-empty description, fills in title and due date, and submits | editing starts from the task's own values, as a dialog remounted per task (for example with a `key`) would | not executed; follows from `useState` ignoring its initializer after the first render | `TaskDialog.EditAfterPropChange` | `TaskDialog.EditAfterRemount` |
