# Customer admin screen: state model

This project models the client-side state of a single-page admin screen for
"clientes" (customers): a table of customer records backed by a REST resource
`/clientes`, and one modal form that is used both to create a customer and to edit
one. The whole screen is a single React component. Its state is four cells:

- `data`, the customer list;
- `open`, whether the modal is visible;
- `modalData`, the record the form is seeded with;
- `editMode`, whether the form creates or updates.

The handlers change those cells after each user action and each server reply.

The model has these parts:

- `Strings` (`trim.dfy`) is JavaScript's `String.prototype.trim`. It uses the
  exact white-space and line-terminator set of ECMA-262, sections 12.2 and 12.3.
  `Trim` is characterised by its decomposition: white space, then a trimmed core,
  then white space. It is proved idempotent.
- `Records` (`records.dfy`) holds records as JSON objects (`map<string, Value>`).
  `IdOf` is `record.id`, where `None` stands for `undefined`. `TrimRecord` is the
  `Object.entries`/`map`/`Object.fromEntries` normalisation done on an edit click.
  `FormComplete` is what the form's rules let through to the submit handler:
  the seven fields, none null, every string one non-empty, and `email` a string.
  A field seeded from a record may be a number and still pass its `required` rule.
- `ClienteList` (`cliente_list.dfy`) has the list rebuilds `filter` (`RemoveById`)
  and `map` (`ReplaceById`). It proves lemmas on order, length, multiplicity,
  idempotence and identifier uniqueness, and one about appending.
- `Adapter` (`adapter.dfy`) holds the requests the screen issues and the outcomes
  the network can return. The network itself is not modelled. Each handler takes
  its outcome as an argument and returns the request it issued.
- `Modal` (`modal.dfy`) is the form/modal state machine (closed, create form, edit
  form) as a pure transition function. It has lemmas over runs of events.
- `ClientesApp` (`app.dfy`) is the component as a class `App` with the four state
  cells and one method per handler. `Valid()` is the invariant the handlers keep
  on the three modal cells: edit mode implies the modal is open, outside edit mode
  nothing is seeded, and the seeded strings are trimmed. `Mode()` reads the machine
  state back from the cells, and each UI handler is proved to move it exactly as
  `Modal.NextMode` says.

Points of the code's behaviour that are easy to get wrong:

- After an edit, the list entries are matched against `modalData.id`, the id of
  the *seeded* record read before the request. They are not matched against the
  id of the record the server returns.
- The "add" button only sets `open`. From an open edit form it therefore stays in
  edit mode. It opens the create form only when the modal is closed.
- A create that succeeds closes the modal. It does not clear `editMode` or
  `modalData`. This is harmless, because the create path is only taken outside
  edit mode, where `Valid()` already has `modalData` empty.
- The list read on mount does not check the response status. Any body that parses
  replaces the list.

## Model

| member | source | states |
|---|---|---|
| `Strings.TrimStart` | src/App.js:91 | the leading-white-space step of `trim`: the result is the longest suffix not starting with white space, and everything dropped is white space |
| `Strings.TrimEnd` | src/App.js:91 | the trailing step: the result is the longest prefix not ending with white space, and everything dropped is white space |
| `Strings.Trim` | src/App.js:91 | `value.trim()` returns a string with no leading or trailing white space, and the input is white space + result + white space |
| `Strings.TrimDecomposition` | src/App.js:91 | trimming white space + a trimmed core + white space gives exactly that core, so `Trim` is uniquely determined |
| `Strings.TrimFixedPoint` | src/App.js:91 | a string is unchanged by trim if and only if it has no leading or trailing white space |
| `Strings.TrimIdempotent` | src/App.js:91 | trimming again changes nothing |
| `Strings.TrimAcme` | src/App.js:91 | `"  Acme  "` is seeded into the form as `"Acme"` |
| `Records.TrimValue` | src/App.js:91 | `typeof value === 'string' ? value.trim() : value` keeps the kind of the value, leaves non-strings unchanged, and maps a string to its `Trim`, which is trimmed and no longer |
| `Records.TrimRecord` | src/App.js:90-92 | the edit-click copy has the same keys, every string value is its trim (so has no leading or trailing white space), and every other value, such as a numeric `id`, is unchanged |
| `Records.TrimRecordIdempotent` | src/App.js:90-92 | trimming an already trimmed record again changes nothing |
| `Records.TrimRecordFixedPoint` | src/App.js:90-92 | trimming leaves a record alone if and only if all its strings are already trimmed |
| `ClienteList.RemoveById` | src/App.js:82 | `filter(cliente => cliente.id !== id)` keeps only elements of the list, none with the id, and every element without the id |
| `ClienteList.RemoveByIdConcat` | src/App.js:82 | the filter distributes over concatenation, so survivors keep their relative order |
| `ClienteList.RemoveByIdLength` | src/App.js:82 | the list shrinks by exactly the number of entries with the id |
| `ClienteList.RemoveByIdMultiset` | src/App.js:82 | every record with the id loses all its copies, and every other record keeps its multiplicity |
| `ClienteList.RemoveByIdNoMatch` | src/App.js:82 | deleting an id that no entry has leaves the list unchanged |
| `ClienteList.RemoveByIdIdempotent` | src/App.js:82 | deleting the same id twice equals deleting it once |
| `ClienteList.RemoveByIdCommutes` | src/App.js:82 | deletes of two ids commute |
| `ClienteList.RemoveByIdKeepsUnique` | src/App.js:82 | a delete keeps unique identifiers unique |
| `ClienteList.UniqueIdsCountAtMostOne` | src/App.js:82 | with unique identifiers at most one entry has a given id, and exactly one if any entry has it |
| `ClienteList.ReplaceById` | src/App.js:63 | `map(cliente => cliente.id === id ? updated : cliente)` keeps the length and each position: matching entries become the returned record, all others are unchanged |
| `ClienteList.ReplaceByIdConcat` | src/App.js:63 | the replacement distributes over concatenation, so no entry moves |
| `ClienteList.ReplaceByIdNoMatch` | src/App.js:52-63 | an update of an id that no entry has leaves the list unchanged |
| `ClienteList.ReplaceByIdIdempotent` | src/App.js:63 | applying the same update twice equals applying it once |
| `ClienteList.ReplaceByIdKeepsIds` | src/App.js:63 | when the returned record keeps the id, every position keeps its identifier and unique identifiers stay unique |
| `ClienteList.AppendUniqueIds` | src/App.js:39 | appending the created record keeps identifiers unique if and only if its id is new to the list |
| `Modal.NextMode` | src/App.js:88-119 | one step of the modal machine keeps every edit-form seed trimmed; its transitions are "add" (`setOpen(true)`, line 174), the edit click (93-95), cancel (99-101) and submit, which closes on success (create at line 40, edit at 64-66) and otherwise leaves the state alone |
| `Modal.CancelCloses` | src/App.js:98-102 | after any history, cancel leaves the modal closed |
| `Modal.FailedSubmitsKeepMode` | src/App.js:68-74 | any number of failed submits leave the modal state as it was |
| `Modal.RunKeepsSeedTrimmed` | src/App.js:88-95 | along every run of events, the edit form's seed stays trimmed |
| `Modal.EditFormComesFromClick` | src/App.js:88-95 | an edit form reached by a run is the starting form or was opened by an edit click, and its seed is that record trimmed |
| `ClientesApp.App.Mode` | src/App.js:9-12 | under the invariant, `open`, `editMode` and `modalData` are determined by the modal state, and an edit seed is trimmed |
| `ClientesApp.App.constructor` | src/App.js:9-12 | the initial state is an empty list, a closed modal, no edit mode and an empty seeded record, and the invariant holds |
| `ClientesApp.App.FetchClientes` | src/App.js:18-26 | issues a GET; a parsed body replaces the list whatever the status; a thrown error keeps it; nothing else changes |
| `ClientesApp.App.HandleCreateCliente` | src/App.js:28-49 | issues a POST of the form values; on success the returned record is appended at the end and the modal closes; a non-ok status or an exception changes nothing; mode and seed are never touched |
| `ClientesApp.App.HandleEditCliente` | src/App.js:51-75 | issues a PUT for the seeded id; on success every entry with that id becomes the returned record and seed, edit mode and visibility are reset; on failure the state is unchanged |
| `ClientesApp.App.HandleDeleteCliente` | src/App.js:77-86 | issues a DELETE; whenever the request returns, with any status, every entry with the id is removed; only an exception keeps the list; nothing else changes |
| `ClientesApp.App.HandleEditClick` | src/App.js:88-96 | seeds the trimmed record, sets edit mode and opens the modal, moving the machine to the edit form; the list is untouched |
| `ClientesApp.App.HandleModalCancel` | src/App.js:98-102 | from any state, clears the seed, leaves edit mode and closes, without touching the list |
| `ClientesApp.App.AddClick` | src/App.js:174 | sets only `open`, which moves the machine from closed to the create form and leaves an open form as it is |
| `ClientesApp.App.OnFinish` | src/App.js:112-119 | dispatches to an update of the seeded id exactly in edit mode and to a create otherwise; the list, requests and machine step follow; a failure leaves every cell unchanged; the invariant is kept |
| `ClientesApp.Scenario` | src/App.js:18-86 | for any record with id 1, any completed form and any server record with id 2: loading the first, creating from the form and then deleting id 1 leaves exactly the created record, with the modal closed |

## Left out

- The requests themselves are not modelled: `fetch`, the HTTP methods and headers,
  `JSON.stringify`, `response.json()` and the fixed URL `http://localhost:3001/clientes`.
  Each handler returns an abstract `Request` and takes the reply as an outcome
  argument. A body that does not parse counts as a thrown error.
- Asynchrony is not modelled. Each handler runs atomically and in sequence, so
  these are outside the model: the ordering of `await`s, handlers that close over
  a stale `data`, and replies that arrive after the modal has closed.
- The form library's validation is reduced to the precondition `FormComplete`:
  exactly the seven fields, none null, strings non-empty, `email` a string. The
  syntax check of the `email` rule is not modelled, because its definition lives
  in the form library.
- `form.resetFields` and `form.setFieldsValue` are not modelled. They copy the
  seeded record into the widget, and their state belongs to the form library.
- `message.success`, `message.error`, `console.error`, the table rendering, the
  layout and the inert "Desconectar" button are UI side effects with no state in
  the model.
- Record values are JSON primitives only: strings, integers, booleans and null.
  Nested objects or arrays (compared by reference under `===`), fractional
  numbers and `NaN` are not represented.
- The key order of `Object.entries` is not kept, because a record is a map.
- Strings are sequences of Unicode scalar values, not UTF-16 code units, so lone
  surrogates cannot occur. Trim's white-space set contains only BMP characters,
  so trimming is unaffected.
- A list read whose body is not a JSON array is not modelled. The body is always
  a sequence of records.
