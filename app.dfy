/** The App component: its seven state variables as fields, and its handlers
    as methods that update them in the order the component does. Each handler
    is proved to make its transition in module Session; the two input setters
    are proved to change their one field only. */
module AppComponent {
  import opened DataUri
  import opened Session

  class App {
    var apiKey: string
    var image: Option<string>
    var prompt: string
    var loading: bool
    var editedImage: Option<string>
    var editHistory: seq<Entry>
    var error: string
    // the locals of a `handleEdit` suspended at its await, if one is
    var inFlight: Option<Dispatch>

    /** The fields as a session state. */
    function Model(): State
      reads this
    {
      State(apiKey, image, prompt, loading, editedImage, editHistory, error, inFlight)
    }

    constructor ()
      ensures Model() == Initial()
    {
      apiKey, image, prompt, loading := "", None, "", false;
      editedImage, editHistory, error, inFlight := None, [], "", None;
    }

    /** The key input's change handler. */
    method SetApiKey(key: string)
      modifies this
      ensures Model() == old(Model()).(apiKey := key)
    {
      apiKey := key;
    }

    /** The instruction input's and the quick-edit buttons' change handler. */
    method SetPrompt(text: string)
      modifies this
      ensures Model() == old(Model()).(prompt := text)
    {
      prompt := text;
    }

    /** The uploader's `handleFile` once the file has been read. */
    method Upload(mimeType: string, dataUrl: string)
      requires !Truthy(image)
      modifies this
      ensures Model() == Session.Upload(old(Model()), mimeType, dataUrl)
    {
      if StartsWith(mimeType, "image/") {
        image := Some(dataUrl);
      }
    }

    /** `handleEdit` up to its await; returns the call it makes, or None when
      validation stops it. */
    method StartEdit() returns (call: Option<RemoteCall>)
      requires !loading
      modifies this
      ensures Model() == Session.StartEdit(old(Model()))
      ensures call.None? <==> !InputsPresent(old(Model()))
      ensures call.Some? ==> inFlight.Some? && call.value == Outbound(inFlight.value)
    {
      if apiKey == "" || !Truthy(image) || prompt == "" {
        error := ValidationError;
        return None;
      }
      loading := true;
      error := "";
      if Truthy(editedImage) {
        editHistory := editHistory + [Entry(editedImage.value, prompt)];
      }
      var d := Dispatch(apiKey, image.value, prompt);
      inFlight := Some(d);
      call := Some(Outbound(d));
    }

    /** `handleEdit` after its await: the success or catch branch, then the
      finally block. */
    method CompleteEdit(outcome: Outcome)
      requires inFlight.Some?
      modifies this
      ensures Model() == Session.CompleteEdit(old(Model()), outcome)
    {
      var d := inFlight.value;
      match outcome {
        case Success(_) =>
          editedImage := Some(ApplySimulatedEdit(d.image, d.prompt));
        case Failure(message) =>
          error := FailurePrefix + message;
      }
      loading := false;
      inFlight := None;
    }

    /** `undoEdit`. */
    method UndoEdit()
      modifies this
      ensures Model() == Session.Undo(old(Model()))
    {
      if |editHistory| > 0 {
        var previous := editHistory[|editHistory| - 1];
        editedImage := Some(previous.image);
        editHistory := editHistory[..|editHistory| - 1];
      }
    }

    /** The "Upload New Image" button's click handler. */
    method Reset()
      modifies this
      ensures Model() == Session.Reset(old(Model()))
    {
      image := None;
      editedImage := None;
      editHistory := [];
      prompt := "";
      error := "";
    }
  }

  /** A client of App: two edits on a fresh upload, the second failing, then
      an undo; the speculative entry of the failed edit is what undo pops. */
  method FailedSecondEdit(key: string, mimeType: string, base64: string, message: string)
    returns (app: App)
    requires key != "" && StartsWith(mimeType, "image/")
    ensures app.editedImage == Some(DataUrl(mimeType, base64)) && app.editHistory == []
    ensures app.error == FailurePrefix + message && !app.loading
  {
    app := new App();
    app.SetApiKey(key);
    app.Upload(mimeType, DataUrl(mimeType, base64));
    app.SetPrompt("Remove background");
    var first := app.StartEdit();
    app.CompleteEdit(Success(""));
    app.SetPrompt("Enhance colors");
    var second := app.StartEdit();
    assert |app.editHistory| == 1;
    app.CompleteEdit(Failure(message));
    app.UndoEdit();
  }
}
