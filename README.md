# Photo editor session state machine

A model of the session logic of the `App` component of the AI photo editor.
The component keeps seven state variables: the API key, the uploaded image, the
instruction (`prompt`), the `loading` flag, the edited image, the edit history
and the last error message. It changes them through four main handlers, plus
the setters of the key input and of the instruction input (which the quick-edit
buttons also call):

- `handleEdit` validates the inputs, sets `loading` and clears the error, then
  pushes the current edited image onto the history. It does this push *before*
  it calls the remote text-generation service. On success it shows the simulated
  edit, which is the original image unchanged. On failure it shows an error
  message. In every case it ends by clearing `loading`.
- `undoEdit` pops the last history entry and shows its snapshot. There is no redo.
- the "Upload New Image" button clears the session but keeps the key.
- the uploader sets the image; it is only shown while there is no image.

The model has four modules:

- `DataUri` (`data_uri.dfy`) covers the string helpers. `Split` models
  JavaScript's `split` on one separator and `Join` is its inverse. Both round
  trips are proved. `Base64Payload` models the header strip that runs before the
  call (`image.split(',')[1]`), and it is characterised exactly. `DataUrl` gives
  the shape of a file reader's data URL.
- `Session` (`session.dfy`) is the pure model. A `State` datatype holds the
  seven variables and the edit in flight. Functions `StartEdit`, `CompleteEdit`,
  `Undo`, `Reset`, `Upload` and `CanUndo` give each handler's transition, and
  their `ensures` clauses say what the handler promises. `Valid` is the session
  invariant. Its first part, `LoadingTracksCall`, says that an edit is in
  flight exactly while `loading` and that no error is shown while it is. Its
  second part says that every image shown or stored in the history is the
  uploaded one.
- `SessionProperties` (`session_properties.dfy`) models the page's user
  actions, each enabled only when the page offers it. The key input is always
  there. The uploader is shown only while there is no image. The editor
  (instruction input, Apply button, undo button) and the reset button are shown
  only while there is one. It proves that `LoadingTracksCall` holds over every
  run, and that the whole invariant holds over every run in which no reset
  interrupts an edit. It also
  covers what a run of edits leaves in the history, what repeated undo gives
  back, and the orphaned-edit trace.
- `AppComponent` (`app.dfy`) is the class `App`. Its fields mirror the state
  variables, and its methods update them step by step in the order the
  component does. Each handler method is proved to make its `Session`
  transition. `SetApiKey` and `SetPrompt` are proved to change only the key and
  only the instruction.

The asynchronous `handleEdit` is split into `StartEdit` (everything before the
`await`) and `CompleteEdit(outcome)` (the success or catch branch, then
`finally`). The remote call is abstracted as an outcome `Success(text)` or
`Failure(message)`. While the call is outstanding, the model keeps what the
suspended handler captured when it was dispatched (key, image, prompt) in the
field `inFlight`. JavaScript closures capture these values, so on success the
edited image is the image read at dispatch, not the image at completion.

Behaviours that the proofs make explicit:

- The first edit after an upload pushes nothing, because there is no edited
  image yet. So n successful edits leave n - 1 entries, and undo can never bring
  back the "not yet edited" view (`EditsFromFreshUpload`,
  `UndoingEveryEditKeepsAnEditedImage`).
- A failed edit keeps its speculative entry. That entry is a copy of the image
  already shown, so an undo right after the failure restores the session as it
  was before the edit, except that the failure message stays
  (`UndoAfterFailedEdit`).
- Once an edited image is shown, n successful edits followed by n undos give
  back the history and edited image from before the edits
  (`EditsThenUndosRestore`). A single successful edit followed by an undo gives
  back the earlier session with its error message cleared
  (`UndoAfterSuccessfulEdit`).
- The reset handler does not touch `loading`, and the uploader stays available
  while an edit is in flight. Say the user resets during a call and uploads a new
  photo. When the old call then succeeds, it shows the *previous* photo as the
  edit of the new one (`OrphanedEditShowsPreviousPhoto`). The whole invariant
  is therefore proved for runs that reset only while idle (`ResetsWhenIdle`).
  Its `loading` part holds over every run (`RunKeepsLoadingTracksCall`), so
  even an orphaned call that succeeds leaves no error (`SuccessLeavesNoError`).

Behaviours of the code that are easy to miss:

- the code pushes the history entry before the call, not only on success;
- `handleEdit` has no busy check of its own, and only the UI disables Apply while
  `loading`, so this is a `requires` of `StartEdit`;
- the code does not block undo while an edit is in flight;
- n undos after n edits from a fresh upload do not return to the unedited state (see above).

## Model

| member | source | states |
|---|---|---|
| `DataUri.Split` | src/App.jsx:58 | splitting on a separator yields at least one field, at least two exactly when the separator occurs, and no field contains it |
| `DataUri.JoinSplit` | src/App.jsx:58 | joining the fields of a split with the separator gives back the original string |
| `DataUri.SplitJoin` | src/App.jsx:58 | splitting the join of separator-free fields gives back those fields |
| `DataUri.Base64Payload` | src/App.jsx:58 | the payload never contains a comma, and an image without a comma is sent unchanged |
| `DataUri.PayloadIsSecondField` | src/App.jsx:58 | for an image with a comma, the payload is exactly the text between the first comma and the next comma or the end |
| `DataUri.PayloadOfDataUrl` | src/App.jsx:58 | stripping the header of a `data:<mime>;base64,<body>` URL returns the body |
| `Session.Initial` | src/App.jsx:28-34 | the initial session satisfies the invariant, is idle with no error, has nothing to undo, and would refuse an edit |
| `Session.ApplySimulatedEdit` | src/App.jsx:108-112 | the placeholder edit returns the image unchanged, whatever the instruction |
| `Session.Outbound` | src/App.jsx:52-69 | the call carries the captured key and instruction unchanged, and an image payload with no comma, equal to the image when the image has no comma |
| `Session.StartEdit` | src/App.jsx:36-49 | a missing key, image or instruction sets exactly the validation message and changes nothing else; otherwise `loading` is set, the error is cleared, the inputs are captured for the call, and the history gains exactly one entry `(editedImage, prompt)` at its end iff an edited image is shown, with earlier entries untouched and the edited image unchanged |
| `Session.CompleteEdit` | src/App.jsx:61-112 | after the call, `loading` is false; on success the edited image is the image the call was made with (the simulated edit is the identity), and the error stays as cleared at dispatch; on failure the edited image is unchanged and the error is `"Failed to edit image: "` + message; the history is never rolled back |
| `Session.Undo` | src/App.jsx:114-120 | on a non-empty history the last entry is popped and its image shown, leaving the prefix; on an empty history nothing changes; no other variable changes |
| `Session.CanUndo` | src/App.jsx:163 | `canUndo` holds exactly when undo would change the session |
| `Session.Reset` | src/App.jsx:177-183 | reset yields the initial session except for the kept key and the untouched `loading` and outstanding call |
| `Session.Upload` | src/App.jsx:260-264 | a file whose MIME type starts with `image/` becomes the image; any other file is ignored; only offered while there is no image |
| `SessionProperties.StartEditPreservesValid` | src/App.jsx:36-49 | dispatching or rejecting an edit keeps the invariant |
| `SessionProperties.CompleteEditPreservesValid` | src/App.jsx:90-104 | resolving the call keeps the invariant |
| `SessionProperties.UndoPreservesValid` | src/App.jsx:114-120 | undo keeps the invariant |
| `SessionProperties.ResetPreservesValid` | src/App.jsx:177-183 | reset keeps the invariant when no edit is in flight |
| `SessionProperties.UploadPreservesValid` | src/App.jsx:260-264 | uploading a non-empty data URL keeps the invariant |
| `SessionProperties.StepPreservesValid` | src/App.jsx:36-183 | every user action the page offers keeps the invariant, provided a reset is not pressed mid-edit |
| `SessionProperties.RunPreservesValid` | src/App.jsx:36-183 | every run of actions that resets only while idle keeps the invariant |
| `SessionProperties.StepKeepsLoadingTracksCall` | src/App.jsx:36-183 | every action the page offers, a reset mid-edit included, keeps `loading` set exactly while a call is outstanding and the error empty while it is |
| `SessionProperties.RunKeepsLoadingTracksCall` | src/App.jsx:42-104 | every run, including runs that reset mid-edit, keeps `loading` set exactly while a call is outstanding and the error empty while it is |
| `SessionProperties.SnapshotsAreTheUploadedImage` | src/App.jsx:47-48 | in every run from a fresh page that resets only while idle, the edited image is absent or the uploaded photo, and so is every history snapshot |
| `SessionProperties.FailedEditKeepsSpeculativeEntry` | src/App.jsx:45-104 | after a failed edit the history keeps the pushed entry, the edited image keeps its value, the failure message is set and `loading` is false |
| `SessionProperties.UndoAfterFailedEdit` | src/App.jsx:45-120 | undo right after a failed edit gives back the session before the edit, with only the failure message changed |
| `SessionProperties.EditOnce` | src/App.jsx:36-105 | a successful user-driven edit ends with `loading` false, keeps the key and the image, and only appends to the history |
| `SessionProperties.EditAll` | src/App.jsx:36-105 | a run of successful user-driven edits ends with `loading` false, keeps the key and the image, and only appends to the history |
| `SessionProperties.UndoAfterSuccessfulEdit` | src/App.jsx:36-120 | once an edited image is shown, undo right after a successful edit gives back the session before the edit, with its error message cleared |
| `SessionProperties.SuccessLeavesNoError` | src/App.jsx:43-97 | whenever `loading` tracks the call in flight, a successful call leaves the error empty, as cleared at dispatch, even for a call orphaned by a reset |
| `SessionProperties.EditsThenUndosRestore` | src/App.jsx:46-120 | once an edited image is shown, n successful edits followed by n undos give back the earlier history and edited image |
| `SessionProperties.EditsAfterFirstPushEachSnapshot` | src/App.jsx:46-49 | once an edited image is shown, each successful edit appends exactly one snapshot of the photo tagged with its own instruction |
| `SessionProperties.SnapshotsLength` | src/App.jsx:46-49 | one snapshot per instruction |
| `SessionProperties.EditsFromFreshUpload` | src/App.jsx:46-49 | from a fresh upload, n successful edits leave n - 1 entries, those of instructions 2..n, and show the photo |
| `SessionProperties.UndoTimesPops` | src/App.jsx:114-120 | k undos pop the last k entries in LIFO order and show the last one popped; beyond the history's length they change nothing more; no other variable changes |
| `SessionProperties.UndoingEveryEditKeepsAnEditedImage` | src/App.jsx:114-120 | after n edits from a fresh upload and n undos, the history is empty and the photo is still shown as the edit |
| `SessionProperties.TwoEditsThenUndo` | src/App.jsx:36-120 | "Remove background" leaves no entry; "Enhance colors" then leaves one entry holding the photo; undo shows the photo again with an empty history |
| `SessionProperties.DispatchSendsFileBody` | src/App.jsx:57-69 | the call made after uploading a file carries the key, the file's base64 body without its header, and the instruction |
| `SessionProperties.OrphanedEditShowsPreviousPhoto` | src/App.jsx:177-183 | upload A, edit, reset mid-call, upload B: when the call succeeds, A is shown as the edit of B and the invariant no longer holds |
| `AppComponent.App.constructor` | src/App.jsx:28-34 | the fields start as the initial session |
| `AppComponent.App.SetApiKey` | src/App.jsx:209 | only the key changes |
| `AppComponent.App.SetPrompt` | src/App.jsx:394 | only the instruction changes |
| `AppComponent.App.Upload` | src/App.jsx:260-264 | the fields make the `Session.Upload` transition |
| `AppComponent.App.StartEdit` | src/App.jsx:36-49 | the fields make the `Session.StartEdit` transition; no call is returned exactly when validation fails, otherwise the call carries the captured key, stripped payload and instruction |
| `AppComponent.App.CompleteEdit` | src/App.jsx:90-104 | the fields make the `Session.CompleteEdit` transition |
| `AppComponent.App.UndoEdit` | src/App.jsx:114-120 | the fields make the `Session.Undo` transition |
| `AppComponent.App.Reset` | src/App.jsx:177-183 | the fields make the `Session.Reset` transition |
| `AppComponent.FailedSecondEdit` | src/App.jsx:36-120 | a client of `App`: a successful edit, then a failed one, then an undo leave the photo shown, an empty history, the failure message and `loading` false |

## Left out

- The remote call itself: the service client with its base URL and key, and the model name, token limit and prompt template (lines 51-88). These are a foreign network library, so the call is abstracted as a success or failure outcome. The text of a success is only logged.
- Logging to the console (lines 93, 100). This is I/O.
- `downloadImage` (lines 122-129). It is DOM manipulation and reads the clock.
- The uploader's drag state and the file reading (lines 237-307). These are browser events and file I/O. Only the `image/` MIME check and the shape of the data URL are kept.
- The key input's show/hide toggle, all markup, and the quick-edit and preset constants. These are presentation only; quick edits just set the instruction.
- React's batching of state updates and its re-rendering. The updates are modelled in program order. Values captured by the suspended handler are kept explicitly in `inFlight`.
- More than one outstanding call. The UI disables Apply while `loading`, so `StartEdit` requires that no edit is in flight.
- `tailwind.config.js` is not part of this model. It is styling configuration.
