# Task store of API-LocalStorage

A model of the in-memory task store behind the Express routes in `server.js`.
The store is the module-level array `tarefas` of records `{ id, texto }`.
It has four operations, one per route on `/tarefas`:

- list (GET) answers with the array as it is;
- create (POST) refuses a missing or empty `texto` with 400 "Texto da tarefa é obrigatório", and otherwise appends `{ id, texto }` and answers 201 with it;
- update (PUT `/:id`) answers 404 "Tarefa não encontrada" when no record has the id, and otherwise overwrites the text of the first matching record when a non-empty `texto` is given and answers 200 with that record;
- delete (DELETE `/:id`) answers 404 when no record has the id, and otherwise replaces the array by the records whose id differs and answers 204.

`tasks.dfy` (module `Tasks`) holds the record type and the pure lookups the handlers use: `find` as `FindFirst` and `filter` as `RemoveId`, with lemmas about them.
`store.dfy` (module `Server`) holds the class `TaskStore`, whose field `tarefas` is the array and whose methods are the four handlers.
Each handler returns a `Response`, a status code and a body.
`Server.Lifecycle` is a client that creates, lists, renames and deletes one task using only the contracts.

The code does not make ids unique: a new id is whatever `Date.now()` returns.
The model therefore proves "all ids are distinct" only under a fresh-id hypothesis on create.
Delete and update keep that property whenever it holds.
The routes are on `/tarefas` and the error messages are in Portuguese.
`find` returns the first matching record.

## Model

| member | source | states |
|---|---|---|
| Tasks.Truthy | server.js:37 | the `!texto` test of create, which update repeats as `if(texto)`: a missing field or the empty string is falsy, any other string is truthy |
| Tasks.FindFirst | server.js:59 | `find` by id: none exactly when no record has the id; otherwise a position holding the id with no earlier position holding it (first match) |
| Tasks.CountId | server.js:96 | the number of records carrying the id is at most the length, and is zero exactly when no record carries it |
| Tasks.CountIdMultiplicity | server.js:96 | the count of records carrying the id equals the multiplicity of that id in the multiset of all ids |
| Tasks.RemoveId | server.js:96 | `filter` by id: the result is no longer than the input and no kept record carries the id |
| Tasks.RemoveIdMembers | server.js:96 | a record is in the filtered array iff it was in the input and its id differs |
| Tasks.RemoveIdLength | server.js:96 | filtering shortens the array by exactly the number of records carrying the id |
| Tasks.RemoveIdAbsent | server.js:96 | filtering an id no record carries leaves the array unchanged |
| Tasks.RemoveIdAppend | server.js:96 | filtering distributes over concatenation, so kept records keep their relative order |
| Tasks.RemoveIdKeepsDistinct | server.js:96 | filtering preserves "all ids distinct" |
| Tasks.CountIdDistinct | server.js:96 | with distinct ids a present id is carried by exactly one record, so delete shortens the array by one |
| Tasks.RemoveIdSingle | server.js:96 | when only position k carries the id, filtering removes exactly that position and keeps the rest in order |
| Tasks.RemoveIdDistinct | server.js:87-96 | with distinct ids, filtering a present id removes exactly the record `find` returns and nothing else |
| Tasks.AppendFreshKeepsDistinct | server.js:43-46 | appending a record whose id is not yet present keeps all ids distinct |
| Server.TaskStore.constructor | server.js:22 | the store starts as an empty array with every text non-empty |
| Server.TaskStore.List | server.js:27-29 | answers 200 with the array exactly as stored, in insertion order, and changes nothing |
| Server.TaskStore.Create | server.js:32-49 | falsy text: 400 with the required-text message and no change; otherwise 201 with `{id, texto}`, exactly that record appended at the end and every earlier record unchanged; a fresh id keeps ids distinct; texts stay non-empty |
| Server.TaskStore.Update | server.js:52-79 | unknown id: 404 and no change; otherwise only the text of the first matching record changes, to the new text if truthy and to nothing new if not, its id and all other records stay, and the answer is 200 with that record; ids, length and distinctness are preserved |
| Server.TaskStore.Delete | server.js:82-100 | unknown id: 404 and no change; otherwise 204 and the array becomes the filtered copy: no record has the id, the others stay in order, the length drops by the number of matches, and with distinct ids exactly the found record is removed |

## Left out

- Express app creation, the `cors()` and `express.json()` middleware, `app.listen` and the startup log (server.js:1-19, 103-105): framework and I/O plumbing.
- JSON serialisation and the transmission of status codes: a handler returns a `Response` value instead.
- `Date.now()` (server.js:43) is a clock read: the new id is the `newId` parameter of `Create`, so millisecond collisions appear only as a non-fresh `newId`.
- `parseInt` of the path (server.js:54, 84): the id is an `int` parameter; a non-numeric path gives `NaN`, which matches no record and so takes the 404 branch the model already has.
- JavaScript truthiness beyond "absent or empty string": `texto` is an `Option<string>`, so a body whose `texto` is a number, boolean or object is not modelled.
- Object identity: `find` returns the record object itself and the handler mutates it; the model returns its position and replaces the record at that position, which is the same observable array since no other reference to the record outlives a request.
- The no-op self-assignment `index.texto = index.texto` (server.js:74) is not written out; its effect, an unchanged record, is what `Update` states.
- Server.TaskStore.Create: the store methods require the object invariant `Valid()` (every text non-empty), which the code never checks but which holds from the empty start since only truthy texts are ever stored.
- Concurrency: handlers run one at a time to completion, so each method is one atomic step.
