/** The session state of the photo editor's App component and the transitions
    its handlers make on it, as pure functions. The class in AppComponent
    performs the same transitions step by step on its fields. */
module Session {
  import opened DataUri

  datatype Option<T> = None | Some(value: T)

  /** One entry of the edit history: a snapshot of the edited image and the
      instruction of the edit that was dispatched after it was taken. */
  datatype Entry = Entry(image: string, prompt: string)

  /** What a suspended `handleEdit` holds while it awaits the remote call: the
      key, image and prompt it read when it was dispatched. */
  datatype Dispatch = Dispatch(apiKey: string, image: string, prompt: string)

  /** The one call made to the remote text-generation service. */
  datatype RemoteCall = RemoteCall(apiKey: string, imagePayload: string, instruction: string)

  /** How the remote call resolves; the text of a success is only logged. */
  datatype Outcome = Success(text: string) | Failure(message: string)

  /** The seven state variables of App, and the edit in flight, if any. */
  datatype State = State(
    apiKey: string,
    image: Option<string>,
    prompt: string,
    loading: bool,
    editedImage: Option<string>,
    editHistory: seq<Entry>,
    error: string,
    inFlight: Option<Dispatch>)

  const ValidationError: string := "Please provide API key, image, and editing instruction"
  const FailurePrefix: string := "Failed to edit image: "

  /** JavaScript truthiness of an image state: neither null nor empty. */
  predicate Truthy(v: Option<string>)
  {
    v.Some? && v.value != ""
  }

  /** The validation of `handleEdit`: key, image and instruction all truthy. */
  predicate InputsPresent(s: State)
  {
    s.apiKey != "" && Truthy(s.image) && s.prompt != ""
  }

  /** The state App starts in: consistent, nothing to undo, and an edit
      would be refused for want of a key and an image. */
  function Initial(): (r: State)
    ensures Valid(r) && !CanUndo(r) && !InputsPresent(r)
    ensures !r.loading && r.error == ""
  {
    State("", None, "", false, None, [], "", None)
  }

  /** The placeholder edit: whatever the instruction, the image comes back
      unchanged. */
  function ApplySimulatedEdit(imageData: string, editPrompt: string): (edited: string)
    ensures edited == imageData
  {
    imageData
  }

  /** The request a dispatch sends: the key and instruction as captured, the
      image without its data-URI header. */
  function Outbound(d: Dispatch): (call: RemoteCall)
    ensures call.apiKey == d.apiKey && call.instruction == d.prompt
    ensures ',' !in call.imagePayload
    ensures ',' !in d.image ==> call.imagePayload == d.image
  {
    RemoteCall(d.apiKey, Base64Payload(d.image), d.prompt)
  }

  /** `handleEdit` up to the await. The UI calls it only when no edit is in
      flight (the Apply button is disabled and the Enter key ignored while
      `loading`). */
  function StartEdit(s: State): (t: State)
    requires !s.loading
    // validation exit: only the message changes, no call is made
    ensures !InputsPresent(s) ==> t == s.(error := ValidationError)
    // dispatch: loading, error cleared, the inputs captured for the call
    ensures InputsPresent(s) ==>
      t.loading && t.error == "" && t.inFlight == Some(Dispatch(s.apiKey, s.image.value, s.prompt))
    // speculative push: one entry at the end, earlier entries untouched
    ensures |s.editHistory| <= |t.editHistory| && t.editHistory[..|s.editHistory|] == s.editHistory
    ensures |t.editHistory| == |s.editHistory| + 1 <==> InputsPresent(s) && Truthy(s.editedImage)
    ensures |t.editHistory| == |s.editHistory| + 1 ==>
      t.editHistory[|s.editHistory|] == Entry(s.editedImage.value, s.prompt)
    ensures |t.editHistory| <= |s.editHistory| + 1
    // nothing else moves before the call resolves
    ensures t.apiKey == s.apiKey && t.image == s.image && t.prompt == s.prompt
    ensures t.editedImage == s.editedImage
  {
    if !InputsPresent(s) then
      s.(error := ValidationError)
    else
      var pushed := if Truthy(s.editedImage)
                    then s.editHistory + [Entry(s.editedImage.value, s.prompt)]
                    else s.editHistory;
      s.(loading := true, error := "", editHistory := pushed,
         inFlight := Some(Dispatch(s.apiKey, s.image.value, s.prompt)))
  }

  /** `handleEdit` after the await: the success or catch branch, then the
      finally block. It uses the image and prompt captured at dispatch. */
  function CompleteEdit(s: State, outcome: Outcome): (t: State)
    requires s.inFlight.Some?
    ensures !t.loading && t.inFlight.None?
    // success: the shown edit is the image the call was made with
    ensures outcome.Success? ==> t.editedImage == Some(s.inFlight.value.image) && t.error == s.error
    // failure: the shown edit stays, the message is surfaced
    ensures outcome.Failure? ==>
      t.editedImage == s.editedImage && t.error == FailurePrefix + outcome.message
    // the speculative push is never rolled back
    ensures t.editHistory == s.editHistory
    ensures t.apiKey == s.apiKey && t.image == s.image && t.prompt == s.prompt
  {
    var d := s.inFlight.value;
    var resolved := match outcome
      case Success(_) => s.(editedImage := Some(ApplySimulatedEdit(d.image, d.prompt)))
      case Failure(message) => s.(error := FailurePrefix + message);
    resolved.(loading := false, inFlight := None)
  }

  /** `undoEdit`: pop the last entry and show its snapshot; nothing when the
      history is empty. */
  function Undo(s: State): (t: State)
    ensures s.editHistory != [] ==>
      t.editedImage == Some(s.editHistory[|s.editHistory| - 1].image) &&
      t.editHistory + [s.editHistory[|s.editHistory| - 1]] == s.editHistory
    ensures s.editHistory == [] ==> t == s
    ensures t.(editedImage := s.editedImage, editHistory := s.editHistory) == s
  {
    if |s.editHistory| > 0 then
      var previous := s.editHistory[|s.editHistory| - 1];
      s.(editedImage := Some(previous.image), editHistory := s.editHistory[..|s.editHistory| - 1])
    else
      s
  }

  /** The `canUndo` property handed to the editor view. */
  function CanUndo(s: State): (b: bool)
    ensures b <==> Undo(s) != s
  {
    |s.editHistory| > 0
  }

  /** The "Upload New Image" handler: back to the state before any upload,
      except that the key is kept. It does not touch `loading`, so an edit in
      flight is orphaned but still resolves later. */
  function Reset(s: State): (t: State)
    ensures t == Initial().(apiKey := s.apiKey, loading := s.loading, inFlight := s.inFlight)
  {
    s.(image := None, editedImage := None, editHistory := [], prompt := "", error := "")
  }

  /** The uploader is shown only while there is no image; it takes a file only
      when its MIME type starts with `image/`. */
  function Upload(s: State, mimeType: string, dataUrl: string): (t: State)
    requires !Truthy(s.image)
    ensures StartsWith(mimeType, "image/") ==> t == s.(image := Some(dataUrl))
    ensures !StartsWith(mimeType, "image/") ==> t == s
  {
    if StartsWith(mimeType, "image/") then s.(image := Some(dataUrl)) else s
  }

  /** The part of the invariant every run keeps: an edit is in flight exactly
      while `loading`, and no error is shown while it is. */
  predicate LoadingTracksCall(s: State)
  {
    (s.loading <==> s.inFlight.Some?) &&
    (s.loading ==> s.error == "")
  }

  /** The object invariant of a session: `loading` tracks the call in flight,
      and every image shown or remembered is the uploaded one. */
  predicate Valid(s: State)
  {
    LoadingTracksCall(s) &&
    (s.inFlight.Some? ==> s.image == Some(s.inFlight.value.image)) &&
    s.image != Some("") &&
    (s.editedImage.Some? ==> s.editedImage == s.image) &&
    (forall i :: 0 <= i < |s.editHistory| ==> Some(s.editHistory[i].image) == s.image)
  }
}
