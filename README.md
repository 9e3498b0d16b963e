# Family organiser: dashboard filter, event forms and user table

This project models the decision logic of a small family-events application in Dafny and proves
properties of it. It covers three parts.

- **The dashboard** (`Home`). The event list is filtered by a search term and a date. The search is
  an ASCII-case-insensitive substring match on the title or the location. The date filter compares
  the part of the stored date before `'T'`. Deleting an event drops every event with that id from
  the list. The page picks one of its screens: loading, error, "no events yet", "no events found",
  or the cards.
- **The add-event and edit-event pages** (`EventForm`, `AddEvent`, `EditEvent`). The form record
  changes one field at a time. Submission has two guards, tried in order: missing user details,
  then `startTime >= endTime` under string order. After that the request body is built: the form
  plus `username`, `userfamily` and `userrole` for an add, and the form alone for an edit. A failed
  request shows the server's message or a fixed fallback. The edit page also loads an event into
  the form.
- **The user table** (`UserStore`). A data-access object over an embedded document store, with
  `create`, `lookup`, `getUserById`, `getAllUsersInFamily`, `getAllUsers`, `updateUser` and
  `deleteUser`.

The page components become classes whose fields are the component's state (`events`, `loading`,
`error`, `searchTerm`, `filterDate`, `formData`, `isSubmitting`). Their handlers become methods
that update those fields in the order the handlers do. The user table is a class holding the
record sequence. Its mutators are methods proved against pure functions (`AfterCreate`,
`AfterUpdateUser`, `AfterDeleteUser`), and its queries are functions over the records.

Some JavaScript behaviours are written out explicitly:
- "Falsy" means `null` or `""`.
- `a >= b` on strings is the negation of lexicographic `<`, and it is false when either field is
  `undefined`.
- `x?.y || fallback` falls back when the message is absent or empty.
- `split('T')[0]` is the prefix before the first `'T'`.

The document store scans its records in the order of its `_id` index. The model therefore keeps
the records sorted by `_id` (the `IdOrdered` invariant). "The first match" of a query is the
matching record with the least `_id`. An update or a remove without options touches only that
first match. The store refuses an insert whose `_id` is already taken, and refuses an update that
would change a record's `_id`.

The files are:
- `common.dfy`: option, reply and error-message helpers, a generic filter and subsequences.
- `text.dfy`: ASCII case, substring search, `BeforeT`, string order and clock times.
- `events.dfy`: the event record.
- `home.dfy`: the dashboard.
- `event_form.dfy`: what the two form pages share.
- `add_event.dfy` and `edit_event.dfy`: the two form pages.
- `user_store.dfy`: the user table.

## Model

| member | source | states |
|---|---|---|
| Common.ShownError | frontend/src/pages/AddEvent.jsx:68-70 | The server's message is shown when it is present and non-empty; otherwise the fallback is shown. A non-empty fallback never yields an empty error. |
| Text.Lower | frontend/src/pages/Home.jsx:72-73 | Lower-casing keeps the length, maps every ASCII capital to its small letter and leaves every other character alone. |
| Text.LowerForgetsCase | frontend/src/pages/Home.jsx:72-73 | Lower-casing gives the same string whether it starts from the term, its upper-cased form or its lower-cased form. |
| Text.Contains | frontend/src/pages/Home.jsx:72-73 | `includes` holds exactly when the needle occurs at some position of the text. |
| Text.BeforeT | frontend/src/pages/Home.jsx:75 | `split('T')[0]` is a prefix without `'T'`, and it stops exactly at the first `'T'` or at the end. |
| Text.StrLess | frontend/src/pages/AddEvent.jsx:45 | String `<` is lexicographic; when one string is a prefix of the other, the shorter comes first and only it. |
| Text.StrLessIrreflexive | frontend/src/pages/AddEvent.jsx:45 | No string is less than itself. |
| Text.StrLessTransitive | frontend/src/pages/AddEvent.jsx:45 | String `<` is transitive. |
| Text.StrLessTotal | frontend/src/pages/AddEvent.jsx:45 | Of two different strings one is less than the other. |
| Text.StrLessAsymmetric | frontend/src/pages/AddEvent.jsx:45 | Two strings are never each less than the other. |
| Text.ClockTimeOrder | frontend/src/pages/AddEvent.jsx:45 | For two `HH:MM` times, string `<` holds exactly when the first is earlier in the day. |
| Common.Filter | frontend/src/pages/Home.jsx:70 | `.filter` keeps exactly the elements that satisfy the predicate and never lengthens the list. |
| Home.MatchesNeedle | frontend/src/pages/Home.jsx:71-73 | An empty needle matches every event, and a match needs a title or location at least as long as the needle. |
| Home.MatchesDate | frontend/src/pages/Home.jsx:74-76 | An empty date filter matches every event; a non-empty one matches only when it is a prefix of the stored date and holds no `'T'`. |
| Home.FilteredEvents | frontend/src/pages/Home.jsx:70-78 | An event is shown iff it is in the list, its lower-cased title or location contains the lower-cased term, and the date filter is empty or equals the event's date before `'T'`. |
| Home.FilteredIsOrderedSubsequence | frontend/src/pages/Home.jsx:70 | The shown events are an order-preserving subsequence of the list, and each matching event keeps all of its copies. |
| Home.EmptyFiltersShowAll | frontend/src/pages/Home.jsx:71-76 | With an empty term and an empty date filter the whole list is shown, in order. |
| Home.SearchIgnoresCase | frontend/src/pages/Home.jsx:72-73 | Two search terms that differ only in the ASCII case of their letters show the same events. |
| Home.PlainDatePassesItsOwnFilter | frontend/src/pages/Home.jsx:74-77 | An event shown by the search whose stored date has no time part is still shown when the date filter is set to that date. |
| Home.DateFilterNarrows | frontend/src/pages/Home.jsx:74-77 | With a date filter the shown events are a subsequence of those shown by the search alone, so none is added. |
| Home.WithoutEvent | frontend/src/pages/Home.jsx:62 | The list after a delete holds exactly the events whose id differs from the deleted one. |
| Home.WithoutEventRemovesExactlyThatId | frontend/src/pages/Home.jsx:62 | After a delete no event with that id remains, every other event keeps its multiplicity, and the order is kept. |
| Home.ScreenOf | frontend/src/pages/Home.jsx:80-125 | The loading text comes first, then a non-empty error. Then "no events yet" is shown iff the list is empty, "no events found" iff the list is non-empty and the filter keeps nothing, and otherwise the cards of exactly the filtered events. |
| Home.HomePage.constructor | frontend/src/pages/Home.jsx:13-20 | The page starts loading, with no events, no error and empty filters. |
| Home.HomePage.FetchEvents | frontend/src/pages/Home.jsx:22-47 | Without a token or family id nothing changes. Otherwise loading ends, either with the fetched events and no error, or with the old events and the server message or "Failed to load events.". |
| Home.HomePage.HandleDelete | frontend/src/pages/Home.jsx:49-67 | An unconfirmed delete sends nothing and leaves the list unchanged. A confirmed one sends the id and identity, and the list loses that id only when the request succeeds. |
| Home.HomePage.SetSearchTerm | frontend/src/pages/Home.jsx:99 | The search box sets the term. |
| Home.HomePage.SetFilterDate | frontend/src/pages/Home.jsx:107 | The date input sets the date filter. |
| EventForm.EmptyForm | frontend/src/pages/AddEvent.jsx:14-21 | The form starts with exactly the six input fields, each an empty string. |
| EventForm.ChangeField | frontend/src/pages/AddEvent.jsx:23-28 | The named field takes the new value and every other field keeps its value. No field is dropped. |
| EventForm.EndNotAfterStart | frontend/src/pages/AddEvent.jsx:45 | `startTime >= endTime` is false when either field is absent. With both present it holds iff the end equals the start or sorts before it. |
| EventForm.SubmitRejection | frontend/src/pages/AddEvent.jsx:39-49 | Missing user details reject with their message, whatever the times. Otherwise `startTime >= endTime` rejects with the time message. Otherwise nothing rejects. Each case holds in both directions. |
| EventForm.EqualTimesRejected | frontend/src/pages/AddEvent.jsx:45-49 | Equal start and end times are rejected. |
| EventForm.ClockTimesAccepted | frontend/src/pages/AddEvent.jsx:45-49 | For `HH:MM` times the time guard passes exactly when the start is earlier in the day than the end. |
| EventForm.NewEventBody | frontend/src/pages/AddEvent.jsx:54-59 | The add body holds the form's fields plus `username`, `userfamily` and `userrole`. The identity fields carry the given values, and every other form field is unchanged. |
| EventForm.NewEventBodyKeepsForm | frontend/src/pages/AddEvent.jsx:54-59 | For a form of input fields, every field reaches the body unchanged and exactly the three identity keys are added. |
| EventForm.FormBody | frontend/src/pages/EditEvent.jsx:88-90 | The update body has exactly the form's keys, each with the form's value. |
| EventForm.UpdateBodyOmitsIdentity | frontend/src/pages/EditEvent.jsx:70-90 | The update body carries no identity field, although the handler reads the username and family. |
| EventForm.LoadedForm | frontend/src/pages/EditEvent.jsx:33-47 | After loading, the six fields come from the event, and the date is its ISO rendering cut before `'T'`. |
| AddEvent.AddEventPage.constructor | frontend/src/pages/AddEvent.jsx:11-21 | No error, not submitting, and the empty form. |
| AddEvent.AddEventPage.HandleChange | frontend/src/pages/AddEvent.jsx:23-28 | `formData` becomes `ChangeField` of the old form. |
| AddEvent.AddEventPage.HandleSubmit | frontend/src/pages/AddEvent.jsx:30-73 | A rejection shows its message, sends no request and ends submitting. Otherwise the add body is sent. Success navigates home with the error cleared. Failure shows the server message or the fallback and ends submitting. |
| EditEvent.EditEventPage.constructor | frontend/src/pages/EditEvent.jsx:11-23 | No error, not submitting, loading, and the empty form. |
| EditEvent.EditEventPage.LoadEvent | frontend/src/pages/EditEvent.jsx:25-56 | Without a token nothing changes. Otherwise loading ends, either with the form loaded from the event or with "Failed to load event details." and the form unchanged. |
| EditEvent.EditEventPage.HandleChange | frontend/src/pages/EditEvent.jsx:58-63 | `formData` becomes `ChangeField` of the old form. |
| EditEvent.EditEventPage.HandleSubmit | frontend/src/pages/EditEvent.jsx:65-105 | The same guards in the same order. An accepted form sends the event id with the form as the body. Success navigates home; failure shows the server message or the fallback and ends submitting. |
| UserStore.Find | backend/models/userModel.js:49 | `find` returns exactly the stored records that match the query, never more than there are. |
| UserStore.FindHead | backend/models/userModel.js:58 | The head of a `find` result is the first matching record in scan order. |
| UserStore.UserQueryMatches | backend/models/userModel.js:49 | A record matches the lookup query iff both its `username` and its `familyId` equal the arguments. |
| UserStore.Lookup | backend/models/userModel.js:46-61 | A read error is passed on. The result is null iff no record matches both fields. Otherwise it is the first record that matches both. |
| UserStore.LookupReturnsLeastId | backend/models/userModel.js:49-58 | In a well-formed store, the record returned has the least `_id` of all the matches. |
| UserStore.GetUserById | backend/models/userModel.js:63-75 | A read error gives "no user". A result is a stored record with that `_id`. A record exists whenever the `_id` is in use. |
| UserStore.GetUserByIdFindsTheRecord | backend/models/userModel.js:63-75 | In a well-formed store, looking up a record's `_id` returns that very record. |
| UserStore.GetAllUsersInFamily | backend/models/userModel.js:77-88 | A read error is passed on. Otherwise the result is exactly the records whose `familyId` equals the argument, in scan order. |
| UserStore.GetAllUsers | backend/models/userModel.js:90-105 | One entry per record, in order. Each entry has the record's keys without `password`, with the record's values. |
| UserStore.GetAllUsersKeepsHashAndSalt | backend/models/userModel.js:96-100 | No entry has a `password`, and a stored `hash` and `salt` are passed through. |
| UserStore.FirstMatch | backend/models/userModel.js:109 | There is no index iff nothing matches; otherwise the index is that of the first match. |
| UserStore.UpdateFirst | backend/models/userModel.js:109 | Only the first match is merged with the changes, the length is kept, and the count is 1 iff something matched. |
| UserStore.IdQueryMatches | backend/models/userModel.js:64 | The `{ _id: id }` query matches exactly the records carrying that `_id`. |
| UserStore.AfterUpdateUser | backend/models/userModel.js:107-118 | A change of a matched record's `_id` is refused. Otherwise the count is 1 iff the `_id` is in use, and records with another `_id` are untouched. |
| UserStore.UpdateUserSetsFields | backend/models/userModel.js:109-113 | In a well-formed store, the record with that `_id` gets the supplied fields merged in, every other record is unchanged, and the store stays well-formed. |
| UserStore.RemoveFirst | backend/models/userModel.js:122 | At most one record goes, and it is the first match. The count is 1 iff something matched. |
| UserStore.AfterDeleteUser | backend/models/userModel.js:120-131 | One record is removed iff some record's `user` field equals the argument, and then it is the first such record and every other record stays in order. Otherwise the store is unchanged. A record without a `user` field is never removed, whatever its `username`. |
| UserStore.RemoveKeepsIdOrder | backend/models/userModel.js:122 | Removing any one record keeps the store well-formed. |
| UserStore.DeleteUserKeepsIdOrder | backend/models/userModel.js:120-131 | A delete keeps the store well-formed. |
| UserStore.WithId | backend/models/userModel.js:31-33 | The inserted record has exactly the new user's fields plus `_id`, with the new user's values. Its `_id` is the generated one unless the new user brought one. |
| UserStore.InsertById | backend/models/userModel.js:33 | The insert adds exactly the new record to the store's multiset. |
| UserStore.InsertByIdKeepsIdOrder | backend/models/userModel.js:33 | Inserting a record whose `_id` is free keeps the store well-formed. |
| UserStore.AfterCreate | backend/models/userModel.js:29-42 | The insert is refused iff the new user brings an `_id` that is taken. No field such as `username` or `familyId` is checked. Otherwise the store gains exactly the new record, which is the new user plus an `_id` and nothing else. |
| UserStore.DuplicateUserAccepted | backend/models/userModel.js:29-61 | A second user with an existing (username, familyId) pair is accepted and both records stay. `lookup` then returns whichever of the two has the smaller `_id`. |
| UserStore.UserDAO.constructor | backend/models/userModel.js:11-14 | An in-memory store starts empty and well-formed. |
| UserStore.UserDAO.Create | backend/models/userModel.js:29-42 | The records become those of `AfterCreate`, or stay unchanged on error, and the callback gets the record or the error. |
| UserStore.UserDAO.UpdateUser | backend/models/userModel.js:107-118 | The records become those of `AfterUpdateUser` and the promise resolves with the count, or rejects and leaves them as they were. The store stays well-formed. |
| UserStore.UserDAO.DeleteUser | backend/models/userModel.js:120-131 | The records become those of `AfterDeleteUser`, the promise resolves with the count, and the store stays well-formed. |

## Left out

- HTTP requests are not modelled. Each reply is a parameter (`Reply`): the fetched data, or a failure with the server's optional message.
- Navigation, `window.confirm`, `alert` and the JSX markup are not modelled. A confirmation is a boolean parameter, navigation is a boolean result, and only the choice of screen is modelled.
- `localStorage` and the token hook are not modelled. The stored username, family id, role and token are optional string parameters.
- `new Date(...).toISOString()` depends on the time zone and is not modelled. Its result is a parameter, absent when the stored date is invalid and the call throws. `toDateString()` for the cards is not modelled.
- `toLowerCase` is modelled for ASCII only. Other characters are left unchanged.
- String order is lexicographic on characters. JavaScript compares UTF-16 code units, which differs only outside the Basic Multilingual Plane.
- `Home.HomePage.FetchEvents`: does not model the `loading` flag set to true during the request, because no one can observe it between two steps of the model.
- The dashboard filter assumes the stored title, date and location are strings. A stored event missing one of them would make the JavaScript filter throw; this is not modelled.
- The edit form also copies `participants`, `eventType` and `description` from the fetched event. The form inputs never set them, and the event record here does not carry them, so the loaded form holds only the six input fields.
- The store's persistence, `autoload`, the file path and `init()` are not modelled. The `init()` count check only logs.
- Store errors are modelled only for reads (a `readFails` parameter) and for the store's own refusals (a taken `_id`, a changed `_id`). Write errors from the disk are not modelled.
- Store queries are plain equality filters. Dotted field paths, `$`-prefixed operators and nested documents are not modelled.
- `UserStore.UserDAO.Create`: requires a generated `_id` that is not in use, because the store draws a fresh random id. The random draw itself is not modelled.
- `UserStore.AfterCreate`: requires a generated `_id` that is not in use, for the same reason.
- Password hashing, the JWT strategy, key generation, the seed script, the routes and the event store are not part of this model. None of them is among the core files.
- `getAllUsers` withholds only `password`. A stored `hash` and `salt` are passed through, and the model follows the code in this (see `UserStore.GetAllUsersKeepsHashAndSalt`).
