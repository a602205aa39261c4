# Poll builder draft — a Dafny model

This project models the poll-creation form of the Pollify web client
(`app/page.tsx`, the `Home` component). The form holds a poll title and an
ordered list of option rows. Each row is an `{ id, value }` record whose
client-side identifier keeps edits and deletions tied to the right row. The
handlers do four things:

- edit a row by identifier;
- append a blank row;
- delete a row by identifier, but never below two rows;
- submit the poll.

Submitting trims the title and the row texts and drops the blank rows. It
refuses the poll locally when the title is blank or fewer than two options
are left. Otherwise it asks for confirmation and sends `{ title, options }`.
On success it resets the form to an empty title and two blank rows.

Modules:

- `Text` (`text.dfy`): JavaScript's `String.prototype.trim`, over the
  whitespace and line-terminator code points ECMAScript lists.
- `PollDraft` (`draft.dfy`): the row record and the pure list transforms the
  handlers apply (`map`, spread-append, `filter`).
- `Submission` (`submission.dfy`): the `map(trim).filter(non-empty)`
  normalisation and the validation done before the confirmation dialog.
- `Builder` (`home.dfy`): the component as a class `Home` with fields `title`
  and `options`, one method per handler. The class invariant `Valid()` says
  there are at least two rows and no identifier occurs twice. The constructor
  establishes it and every method requires and re-establishes it. So any
  sequence of edits, additions, deletions and submissions keeps it, provided
  each new identifier is fresh.

Inputs the source gets from outside become parameters. The identifiers
`uuidv4()` would produce are supplied by the caller, with a precondition that
they are fresh. The answer to the confirmation dialog is a `confirmed` flag.
Whether the HTTP request succeeded is a `succeeded` flag.

## Model

| member | source | states |
|---|---|---|
| `Text.Trim` | app/page.tsx:39 | `trim()` is no longer than its input and neither end of it is whitespace |
| `Text.TrimEmptyIff` | app/page.tsx:39 | the trimmed title is empty exactly when the title is whitespace only (the test `!title.trim()`) |
| `Text.TrimIsInfix` | app/page.tsx:45 | the trimmed text is a contiguous middle part of the input, and what it leaves out on either side is whitespace only |
| `Text.TrimIdempotent` | app/page.tsx:44-46 | trimming an already trimmed text changes nothing |
| `Text.TrimUnchanged` | app/page.tsx:39 | text with no whitespace at either end is left as it is |
| `PollDraft.Blank` | app/page.tsx:13-16 | the initial rows are blank and, under two distinct identifiers, form a well-formed draft |
| `PollDraft.Edited` | app/page.tsx:21-26 | editing keeps the length and the identifiers in order; exactly the rows carrying the target identifier take the new text, every other row keeps its text |
| `PollDraft.EditedAbsent` | app/page.tsx:22-24 | editing an identifier that no row carries leaves the list unchanged |
| `PollDraft.EditedLastWins` | app/page.tsx:22-24 | two edits of the same row leave the second text |
| `PollDraft.EditedWellFormed` | app/page.tsx:21-26 | editing keeps at least two rows and unique identifiers |
| `PollDraft.Appended` | app/page.tsx:29 | the old rows followed by exactly one blank row under the new identifier |
| `PollDraft.AppendedWellFormed` | app/page.tsx:28-30 | appending under a fresh identifier keeps at least two rows and unique identifiers |
| `PollDraft.Removed` | app/page.tsx:34 | the filtered list is no longer than the input and no kept row carries the deleted identifier |
| `PollDraft.RemovedMembers` | app/page.tsx:34 | a row is kept exactly when it was in the list and its identifier differs from the deleted one |
| `PollDraft.RemovedConcat` | app/page.tsx:34 | filtering distributes over concatenation, so kept rows stay in their original order |
| `PollDraft.RemovedAbsent` | app/page.tsx:34 | deleting an identifier that no row carries keeps every row |
| `PollDraft.RemovedSplit` | app/page.tsx:34 | deleting the identifier of a row that occurs nowhere else joins the rows before and after it |
| `PollDraft.RemovedAt` | app/page.tsx:34 | with unique identifiers, deleting row k's identifier removes row k and nothing else |
| `PollDraft.RemovedWellFormed` | app/page.tsx:32-36 | past the size guard, deleting from a well-formed draft of more than two rows leaves a well-formed draft, one row shorter when the identifier is present and the same length when it is absent |
| `Submission.TrimmedValues` | app/page.tsx:45 | one trimmed text per row, in row order |
| `Submission.DropEmpty` | app/page.tsx:46 | no longer than its input; a text survives exactly when it was present and non-empty |
| `Submission.Normalised` | app/page.tsx:44-46 | at most as many option texts as rows; every text sent is non-empty and already trimmed |
| `Submission.TrimmedValuesConcat` | app/page.tsx:45 | trimming the texts distributes over concatenation of row lists |
| `Submission.DropEmptyConcat` | app/page.tsx:46 | dropping empty texts distributes over concatenation, so order is kept |
| `Submission.NormalisedConcat` | app/page.tsx:44-46 | normalisation works row by row in draft order |
| `Submission.NormalisedBlankRow` | app/page.tsx:44-46 | a single row contributes its trimmed text, or nothing when it is whitespace only |
| `Submission.NormalisedAppended` | app/page.tsx:28-30 | adding a blank row never changes the option texts that would be sent |
| `Submission.NormalisedBlank` | app/page.tsx:74-75 | the two blank rows of a reset draft yield no option text |
| `Submission.NormalisedLength` | app/page.tsx:44-47 | the number of option texts sent equals the number of rows holding visible text |
| `Submission.Validate` | app/page.tsx:38-50 | refused for the title exactly when the title is whitespace only; refused for options exactly when the title is visible and fewer than two options remain; an accepted request carries the trimmed non-empty title and the normalised options, at least two |
| `Submission.ValidateAcceptsIff` | app/page.tsx:39-50 | validation passes exactly when the title and at least two rows hold visible text |
| `Submission.ValidateAppended` | app/page.tsx:28-30 | adding a blank row never changes the validation result |
| `Submission.RejectsOneUsableOption` | app/page.tsx:44-50 | rows like "A", "" and " " normalise to the single option "A" and are refused for too few options |
| `Submission.NormalisedTwoClean` | app/page.tsx:44-46 | two rows whose texts have no surrounding whitespace are sent as typed, in order |
| `Submission.AcceptsTwoCleanOptions` | app/page.tsx:64-68 | a clean title such as "Lunch?" with clean options such as "Pizza" and "Sushi" is sent exactly as typed |
| `Builder.Outcome` | app/page.tsx:52-79 | a request is issued exactly when validation passed and the user confirmed; it is created exactly when it also succeeded; a request issued carries the validated body |
| `Builder.Home.constructor` | app/page.tsx:12-16 | the form starts with an empty title and two blank rows and satisfies the invariant |
| `Builder.Home.SetTitle` | app/page.tsx:107 | the title takes the typed text; the rows are unchanged; the invariant holds |
| `Builder.Home.HandleOptionChange` | app/page.tsx:21-26 | the rows become the edited rows; the title is unchanged; the invariant holds |
| `Builder.Home.AddOption` | app/page.tsx:28-30 | one blank row is appended under the fresh identifier; the invariant holds |
| `Builder.Home.DeleteOption` | app/page.tsx:32-36 | a no-op at two rows or fewer, otherwise the filtered rows; the length drops by one exactly when the identifier is present and more than two rows exist; never below two rows |
| `Builder.Home.CreatePoll` | app/page.tsx:38-80 | the outcome follows validation, confirmation and request success; only a created poll resets the form to an empty title and two blank rows; a refused, declined or failed submission leaves title and rows unchanged |

## Left out

- The HTTP POST to the poll service (app/page.tsx:65) is network I/O. Only its success or failure is modelled, as the `succeeded` flag.
- The returned `shareableLink`, the result modal and `pollLink` (app/page.tsx:69-71, 145-176) are presentation and are not modelled.
- The SweetAlert confirmation dialog (app/page.tsx:52-62) is a foreign UI library. Its answer is the `confirmed` flag.
- `alert` and `console.error` (app/page.tsx:40, 48, 77-78) are presentation. They appear only as the `Invalid` and `Failed` outcomes.
- Copying the link to the clipboard, the "Copied!" text and the timed closing of the modal (app/page.tsx:82-91) use browser APIs and timers.
- The JSX rendering (app/page.tsx:93-178) is not modelled. This includes hiding the delete buttons at two rows (line 119); the handler's own guard is what the model keeps.
- `uuidv4()` is a foreign library. Fresh identifiers are parameters, and a precondition says they are not in use (and, for the two reset rows, differ).
- React's asynchronous state updates and stale closures are not modelled; each handler is one atomic step.
- Strings are sequences of Unicode scalar values, where JavaScript uses UTF-16 code units. Every whitespace code point `trim` removes lies in the Basic Multilingual Plane, so trimming agrees.
- The voting page (app/polls/[id]/page.tsx) is not part of this model: vote casting, vote-percentage bars and the `poll_voted_{id}` marker in browser storage.
- Deletion is sometimes described as removing one row. The code (app/page.tsx:34) removes every row with that identifier, and the model follows the code. With unique identifiers, which the class invariant keeps, the two agree.
