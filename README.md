# Todo service, modelled in Dafny

A model of a small HTTP service that keeps users and their todo lists in
memory. A global collection of users grows by registration, which refuses a
missing name or username and a username already taken. Every todo route
first passes an identification gate: it looks up the user whose username
equals the `username` request header and answers "user not found" when
there is none. The route then works on that user's own list: list it,
append a todo, replace the title and deadline of the first todo with a given
id, mark that todo done, or drop every todo with the id.

Layout:

- `outcomes.dfy` (module `Outcomes`): optional request fields, the four
  failures with their HTTP status and error text, and the `Result` of a route.
- `todos.dfy` (module `Todos`): the todo record as a value, the scans the
  handlers run over a list (`find`, `findIndex`, `filter` by id) as recursive
  functions, the lists that update, mark-done and delete leave behind, and the
  lemmas about them.
- `users.dfy` (module `Users`): the user as a class whose `todos` field the
  routes change in place, the username lookup and the distinct-usernames
  invariant.
- `service.dfy` (module `Service`): the `Store` class holding the users; the
  gate is a function, each route a method whose contract gives the answer
  and the whole new state, including that every other user's list is
  unchanged and that a failed request changes nothing.
- `walkthrough.dfy` (module `Walkthrough`): two client methods that use only
  the route contracts, and the lemmas and functions those contracts mention,
  to follow these request sequences: a missing field,
  then a duplicate registration; a todo id owned by another user; update,
  then delete.

## Model

| member | source | states |
|---|---|---|
| Outcomes.Status | src/index.js:22-24 | every failure has a 4xx status; it is 404 exactly for an unknown user or an unknown todo (403 missing fields and 400 username taken at src/index.js:39-50) |
| Outcomes.Message | src/index.js:39-50 | every failure carries a non-empty error text |
| Outcomes.FailuresDistinguishable | src/index.js:22-24 | two different failures differ in status or in error text (the two 404s at src/index.js:22-24 and 114-116 differ in text) |
| Todos.Edited | src/index.js:122-126 | the edited todo keeps its id, done flag and creation time, and takes the new title and the deadline stored as given |
| Todos.WithoutMultiplicity | src/index.js:175 | after filtering, each todo without the id occurs exactly as often as before and no todo with the id remains |
| Todos.Find | src/index.js:111 | `find` by id gives nothing exactly when no todo has the id; otherwise it gives a todo of the list that has the id |
| Todos.FindIndex | src/index.js:120 | `findIndex` by id gives -1 exactly when no todo has the id; otherwise it gives an index in range whose todo has the id, with no earlier todo having it |
| Todos.FindAgrees | src/index.js:111-120 | `find` and `findIndex` on the same list and id pick the same todo, so the handlers' two scans agree |
| Todos.FindIndexSameIds | src/index.js:120 | two lists with the same ids at every position give the same `findIndex` answer |
| Todos.Without | src/index.js:175 | the filtered list is no longer than the old one and holds exactly the old todos whose id differs from the deleted one |
| Todos.WithoutAppend | src/index.js:175 | filtering distributes over concatenation, so the todos that stay keep their order |
| Todos.WithoutAbsent | src/index.js:175 | filtering out an id that is not in the list gives back the same list |
| Todos.WithoutLength | src/index.js:175 | filtering removes exactly as many todos as carry the id |
| Todos.CountUnique | src/index.js:166-175 | in a list with unique ids, an id that is present is carried by exactly one todo |
| Todos.DeleteShrinksByOne | src/index.js:166-175 | deleting an id that is present from a list with unique ids shortens it by exactly one |
| Todos.WithoutKeepsUnique | src/index.js:175 | deleting keeps the ids of a list unique |
| Todos.Updated | src/index.js:111-126 | update keeps the length and every todo but the first with the id; that one keeps its id, done flag and creation time and takes the new title and the deadline as given; an absent id leaves the list as it was |
| Todos.Completed | src/index.js:139-153 | mark-done keeps the length and every todo but the first with the id; that one only has `done` set; an absent id leaves the list as it was |
| Todos.SameIds | src/index.js:120-126 | update and mark-done change no id: unique ids stay unique and `findIndex` still finds every id at the same place |
| Todos.CompletedIdempotent | src/index.js:148-153 | marking a todo done a second time changes nothing more |
| Todos.UpdatedIdempotent | src/index.js:120-126 | repeating an update with the same title and deadline changes nothing more |
| Users.User.constructor | src/index.js:54-59 | a new user has the given id, name and username and an empty todo list |
| Users.FindUser | src/index.js:19 | the username lookup finds nobody exactly when no user has the username in the header; otherwise it finds a stored user who has it |
| Users.FindUserUnique | src/index.js:19 | with distinct usernames, looking up a user's username finds that user |
| Users.AppendKeepsDistinct | src/index.js:44-62 | appending a user whose username nobody holds keeps usernames pairwise distinct |
| Service.Store.constructor | src/index.js:11 | the service starts with no users, and the invariant holds |
| Service.Store.Gate | src/index.js:13-31 | the gate lets through only a stored user whose username equals the header; it answers user-not-found exactly when no user has that username |
| Service.Store.GateFindsHolder | src/index.js:16-27 | under the invariant, the gate lets through exactly the one user who holds the username |
| Service.Store.Register | src/index.js:33-66 | a missing or empty name or username fails (403) and a username in use fails (400), both with no change; otherwise exactly one new user is appended with the given name and username, the fresh id and no todos, and every existing user stays, in order and untouched; distinct usernames are preserved |
| Service.Store.ListTodos | src/index.js:68-74 | an unknown header fails (404); otherwise the answer is the acting user's todos in insertion order |
| Service.Store.CreateTodo | src/index.js:76-97 | an unknown header fails (404) and changes nothing; otherwise exactly one open todo with the fresh id, the title, the parsed deadline and the clock reading is appended to the acting user's list, ids stay unique when the fresh id is new, and no other user's list changes |
| Service.Store.UpdateTodo | src/index.js:99-129 | an unknown header or an id absent from the acting user's own list fails (404) and changes nothing; otherwise that user's list becomes the updated list, the answer is the edited todo, and no other user's list changes |
| Service.Store.CompleteTodo | src/index.js:131-156 | an unknown header or an absent id fails (404) and changes nothing; otherwise that user's list becomes the list with the first matching todo marked done, the answer is that todo, and no other user's list changes |
| Service.Store.DeleteTodo | src/index.js:158-178 | an unknown header or an absent id fails (404) and changes nothing; otherwise that user's list becomes the old list without the todos that have the id, and no other user's list changes |

## Left out

- The web framework: app setup, `cors`, JSON body parsing, routing, the middleware chaining and the module export (src/index.js:1-9, 180). Each route is a method of `Store`; each todo route calls the gate first, and registration is not gated.
- Wire output: the JSON bodies and the success statuses (201, 200, 204) are not modelled. The failures are tags, and `Outcomes.Status` and `Outcomes.Message` give their status and error text.
- Id generation with `uuidv4()` is a foreign call. Each fresh id is a parameter. Nothing requires it to be new. `CreateTodo` promises unique todo ids only when the fresh id is new to the list.
- The clock and date parsing (`new Date()`, `new Date(deadline)`). The clock reading is a parameter. A parsed deadline is kept opaque as `Parsed(text)`. A deadline stored by update is `Raw(value)`, because update does not re-parse it.
- JavaScript values other than strings in request fields, loose `==` and truthiness. A field is `Option<string>`: absent, or a string. "Falsy" means absent or the empty string. A number, `false` or `null` in the body is not modelled.
- Aliasing of todo objects. Handlers never change a todo in place. They build a new todo with the spread operator, so todos are values.
- Concurrency between requests. The source does not address it, and each route runs as one atomic step.
