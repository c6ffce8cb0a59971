# Item edit dialog: validator and dialog state machine

This project models the core of a small Yew CRUD application: the edit dialog
for an `Item` record (`id`, `nome`, `descricao`, `relatorio`).

- `items.dfy`, module `Items` (from `src/item.rs`): the record types, the form
  validator and the process-wide id counter. `ItemFormData::validate` is a
  method that pushes each failure onto an `errors` list, one field after the
  other, as the source's closures do. It is proved against a declarative
  reference: `Accepts` (all three rules hold) and `Failures` (the broken rules
  in field order). The lemmas about that reference say the failure list names
  exactly the broken rules, each once, in the order nome, descricao,
  relatorio, and is empty exactly when the form is accepted.
- `dialog.dfy`, module `Dialog` (from `src/modal.rs`): the `Modal` component
  as a class. Its fields are the draft buffer (`nome`, `descricao`,
  `relatorio`), the source `item`, `visible` and `error`. `create`, `update`
  and `change` are methods that assign those fields. Each `emit` on
  `on_close` or `on_save` is appended to an `events` log, and each event names
  the callback it went to. The object invariant `Valid()` says that a stored
  error list is non-empty and in field order, that every close event carries
  `true`, and that every save event carries fields that pass validation. The
  title rule and the failure-to-message mapping from `view` are functions.
  Module `DialogClient` drives the dialog through typical sequences (a
  rejected save, typing, an accepted save, closing, new props) using only the
  contracts.

Rust `String`s are modelled as their UTF-8 bytes (`seq<Byte>`), because the
length rules use `String::len`, which counts bytes. The title and the error
messages are display text and are plain Dafny strings.

## Behaviour worth noting

- `create` starts the draft as three empty strings. It does not copy them
  from the item (src/modal.rs:47-49). Only `change` seeds the draft from the
  item.
- A successful `Save` does not clear `error`: the reset is commented out
  (src/modal.rs:100). An error list from an earlier rejected save stays in
  place after a successful save.
- The length rules count UTF-8 bytes, not characters (src/item.rs:63, 71,
  79). This follows from modelling a `String` as `Bytes`; for example a nome
  made of the one character "é" (two bytes) is accepted, and a descricao
  "x" (one byte) is rejected (`DialogClient.RejectedSave`).
- `change` does not replace `on_close` or `on_save` (src/modal.rs:113-122).
  Events keep going to the callbacks given at `create`.

## Model

| member | source | states |
|---|---|---|
| `Items.Validate` | src/item.rs:34-60 | The result is `Ok` exactly when nome and descricao are longer than 1 byte and relatorio is shorter than 244 bytes. On `Ok` the validated fields are the input strings verbatim. On `Err` the list is the reference failure list `Failures` |
| `Items.FailuresCharacterised` | src/item.rs:35-57 | A tag is in the failure list iff the form breaks that tag's rule. The list is strictly in field order nome, descricao, relatorio, so no tag appears twice. The list is empty iff the form is accepted, and it has at most three entries |
| `Items.FailuresByField` | src/item.rs:37-53 | The failure list is the nome failure (if any), then the descricao failure (if any), then the relatorio failure (if any): the order of the three pushes |
| `Items.ValidateNome` | src/item.rs:62-68 | Returns the string unchanged iff it is longer than 1 byte, otherwise `InvalidNome` |
| `Items.ValidateDescricao` | src/item.rs:70-76 | Returns the string unchanged iff it is longer than 1 byte, otherwise `InvalidDescricao` |
| `Items.ValidateRelatorio` | src/item.rs:78-84 | Returns the string unchanged iff it is shorter than 244 bytes, otherwise `InvalidRelatorio` |
| `Items.Boundaries` | src/item.rs:62-84 | A 1-byte nome or descricao is reported and a 2-byte one is not. A 243-byte relatorio is not reported and a 244-byte one is |
| `Items.NomeCountsBytes` | src/item.rs:63 | An example of the byte-length rule: the two UTF-8 bytes of "é" pass and a single byte fails |
| `Items.ValidateTwice` | src/item.rs:34-60 | Validating the same form data twice gives equal results |
| `Items.FromTuple` | src/item.rs:87-99 | Tuple components 0, 1 and 2 become nome, descricao and relatorio |
| `Items.FromTupleRoundTrip` | src/item.rs:87-99 | The tuple conversion is a bijection: converting back to a tuple gives the original in both directions |
| `Items.IdCounter.constructor` | src/item.rs:104 | The counter starts at 1 with no id handed out |
| `Items.IdCounter.GenerateId` | src/item.rs:103-106 | Returns the current counter and advances it by one. The first id is 1, and each id is larger than every id handed out before |
| `Items.IssuedIdsDistinct` | src/item.rs:103-106 | Every id handed out is non-zero, and the ids are strictly increasing, so none repeats |
| `Dialog.Modal.Create` | src/modal.rs:44-56 | The item and visibility come from the props. The draft is three empty strings, there is no error, the callbacks are the props' callbacks, and nothing has been emitted |
| `Dialog.Modal.Update` | src/modal.rs:58-111 | `HideModal` sets `visible` to false and emits one close event carrying `true`; nothing else changes. Each `Set*` message replaces only its own draft field and emits nothing. `Save` of a valid draft sets `visible` to false and emits one save event with the item's id and the draft's fields, keeping the draft, item and error. `Save` of an invalid draft stores the validator's failure list as the error, changes nothing else and emits nothing. The invariant is preserved in every case |
| `Dialog.Modal.Change` | src/modal.rs:113-122 | The draft is re-seeded from the new item, the item and visibility are replaced, and the error is cleared, whatever was edited before. The callbacks and the event log are unchanged |
| `Dialog.Modal.Title` | src/modal.rs:161-165 | The title is "Nova Tarefa" iff the item's nome is empty, otherwise "Atualizar Tarefa". The function reads only the `item` field, so it cannot depend on the draft |
| `Dialog.ErrorMessage` | src/modal.rs:127-145 | Every failure tag has a message, and the message identifies its tag: reading it back with `MessageFailure` gives the tag |
| `Dialog.ErrorMessageInjective` | src/modal.rs:127-145 | Different failures are shown with different texts |
| `Dialog.Modal.Notice` | src/modal.rs:147-159 | With no error the notice is empty; with an error list it has one line per failure, in order, each that failure's message. It reads only the `error` field |
| `Dialog.NoticeShown` | src/modal.rs:147-159 | A dialog whose `error` is set shows a notice of one to three lines, because the invariant keeps a stored error list non-empty and in field order |
| `Dialog.ErrorLines` | src/modal.rs:147-159 | The error notice has one line per failure, in order, and each line is that failure's message |
| `Dialog.NoticeOfFailures` | src/modal.rs:147-159 | For a rejected form, the notice lines for its failure list number one to three, and a failure's message is among them iff the form breaks that failure's rule |
| `DialogClient.RejectedSaveNotice` | src/modal.rs:85-159 | After `Save` of a draft that breaks a rule, the dialog's notice has one to three lines, and shows a failure's message iff the draft broke that failure's rule |

## Left out

- Rendering: `html!`, CSS classes, `is-active`, the form and click wiring through `ComponentLink` (src/modal.rs:124-212). The title and the error messages are modelled; the rest is markup.
- `ConsoleService::info("Saved")` (src/modal.rs:101): a logging side effect with no effect on the dialog's state.
- `Callback` internals: each callback is an opaque identifier, and an `emit` is an event appended to the dialog's log. What the owner does on receiving it is outside the model.
- The `TextInput` component (`crate::input`): src/input.rs is not part of this model. The dialog sees its output only as `SetNome`/`SetDescricao`/`SetRelatorio` messages.
- The `ShouldRender` result: every branch of `update` and `change` returns `true`.
- Serde `Serialize`/`Deserialize` and the other derives on the records (src/item.rs:2-4, 12, 19, 26).
- `Items.IdCounter.GenerateId`: does not model `usize` wrap-around (the counter is an unbounded `nat`), nor the atomic `fetch_add` with `Ordering::Relaxed` and concurrent callers; it models one caller at a time. The static counter is one `IdCounter` object.
- The `usize` width of an item's `id`: it is a `nat` here, and the dialog only copies it.
