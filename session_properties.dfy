/** What the session promises over sequences of user actions: the invariant
    kept by every handler, the history left by a run of edits, what undo
    gives back, and what an edit orphaned by a reset does. */
module SessionProperties {
  import opened DataUri
  import opened Session

  /** What the user can do in the page. */
  datatype Action =
    | EnterApiKey(key: string)
    | EnterPrompt(text: string)
    | UploadFile(mimeType: string, base64: string)
    | ApplyEdit
    | RemoteResolves(outcome: Outcome)
    | UndoLastEdit
    | StartOver

  /** One action, taken only when the page offers it: the key input always;
      the uploader while there is no image; the editor (instruction input,
      Apply while idle and with an instruction, the undo button while an
      edited image is shown) and the reset button while an image is. */
  function Step(s: State, a: Action): State
  {
    match a
    case EnterApiKey(k) => s.(apiKey := k)
    case EnterPrompt(p) => if Truthy(s.image) then s.(prompt := p) else s
    case UploadFile(m, b) => if !Truthy(s.image) then Upload(s, m, DataUrl(m, b)) else s
    case ApplyEdit => if Truthy(s.image) && !s.loading && s.prompt != "" then StartEdit(s) else s
    case RemoteResolves(o) => if s.inFlight.Some? then CompleteEdit(s, o) else s
    case UndoLastEdit => if Truthy(s.image) && Truthy(s.editedImage) then Undo(s) else s
    case StartOver => if Truthy(s.image) then Reset(s) else s
  }

  function Run(s: State, actions: seq<Action>): State
    decreases |actions|
  {
    if actions == [] then s else Run(Step(s, actions[0]), actions[1..])
  }

  /** A run in which the reset button is never pressed while an edit is in
      flight. */
  predicate ResetsWhenIdle(s: State, actions: seq<Action>)
    decreases |actions|
  {
    actions == [] ||
    ((actions[0].StartOver? ==> !s.loading) && ResetsWhenIdle(Step(s, actions[0]), actions[1..]))
  }

  lemma StartEditPreservesValid(s: State)
    requires Valid(s) && !s.loading
    ensures Valid(StartEdit(s))
  {
  }

  lemma CompleteEditPreservesValid(s: State, outcome: Outcome)
    requires Valid(s) && s.inFlight.Some?
    ensures Valid(CompleteEdit(s, outcome))
  {
  }

  lemma UndoPreservesValid(s: State)
    requires Valid(s)
    ensures Valid(Undo(s))
  {
  }

  /** Reset keeps the invariant only when no edit is in flight; see
      OrphanedEditShowsPreviousPhoto for what happens otherwise. */
  lemma ResetPreservesValid(s: State)
    requires Valid(s) && !s.loading
    ensures Valid(Reset(s))
  {
  }

  lemma UploadPreservesValid(s: State, mimeType: string, dataUrl: string)
    requires Valid(s) && !Truthy(s.image) && dataUrl != ""
    ensures Valid(Upload(s, mimeType, dataUrl))
  {
  }

  lemma StepPreservesValid(s: State, a: Action)
    requires Valid(s)
    requires a.StartOver? ==> !s.loading
    ensures Valid(Step(s, a))
  {
  }

  /** Every run that resets only while idle keeps the invariant. */
  lemma {:induction false} RunPreservesValid(s: State, actions: seq<Action>)
    requires Valid(s) && ResetsWhenIdle(s, actions)
    ensures Valid(Run(s, actions))
    decreases |actions|
  {
    if actions != [] {
      StepPreservesValid(s, actions[0]);
      RunPreservesValid(Step(s, actions[0]), actions[1..]);
    }
  }

  /** Every action the page offers, a reset mid-edit included, keeps `loading`
      tracking the call in flight. */
  lemma StepKeepsLoadingTracksCall(s: State, a: Action)
    requires LoadingTracksCall(s)
    ensures LoadingTracksCall(Step(s, a))
  {
  }

  /** Every run keeps `loading` tracking the call in flight, including runs
      that orphan an edit by resetting while it is in flight. */
  lemma {:induction false} RunKeepsLoadingTracksCall(s: State, actions: seq<Action>)
    requires LoadingTracksCall(s)
    ensures LoadingTracksCall(Run(s, actions))
    decreases |actions|
  {
    if actions != [] {
      StepKeepsLoadingTracksCall(s, actions[0]);
      RunKeepsLoadingTracksCall(Step(s, actions[0]), actions[1..]);
    }
  }

  /** From a fresh page, as long as no reset interrupts an edit, the edited
      image is absent or the uploaded photo, and so is every snapshot. */
  lemma SnapshotsAreTheUploadedImage(actions: seq<Action>)
    requires ResetsWhenIdle(Initial(), actions)
    ensures var t := Run(Initial(), actions);
      (t.editedImage.None? || t.editedImage == t.image) &&
      (forall i :: 0 <= i < |t.editHistory| ==> Some(t.editHistory[i].image) == t.image)
  {
    RunPreservesValid(Initial(), actions);
  }

  /** A failed edit keeps its speculative entry, the shown image and now the
      failure message, and leaves the page idle. */
  lemma FailedEditKeepsSpeculativeEntry(s: State, message: string)
    requires !s.loading && InputsPresent(s) && Truthy(s.editedImage)
    ensures var t := CompleteEdit(StartEdit(s), Failure(message));
      t.editHistory == s.editHistory + [Entry(s.editedImage.value, s.prompt)] &&
      t.editedImage == s.editedImage &&
      t.error == FailurePrefix + message &&
      !t.loading
  {
  }

  /** Undo right after a failed edit pops its entry and gives back exactly the
      session that was there before the edit, failure message aside. */
  lemma UndoAfterFailedEdit(s: State, message: string)
    requires Valid(s) && !s.loading && InputsPresent(s) && Truthy(s.editedImage)
    ensures Undo(CompleteEdit(StartEdit(s), Failure(message))) == s.(error := FailurePrefix + message)
  {
  }

  /** Once an edited image is shown, undo right after a successful edit gives
      back the session that was there before the edit, except that its error
      message was cleared at dispatch. */
  lemma UndoAfterSuccessfulEdit(s: State, text: string)
    requires Valid(s) && !s.loading && InputsPresent(s) && Truthy(s.editedImage)
    ensures Undo(CompleteEdit(StartEdit(s), Success(text))) == s.(error := "")
  {
  }

  /** A successful call leaves no error shown: the one cleared at dispatch
      stays cleared, whatever happened in between, a reset included. */
  lemma SuccessLeavesNoError(s: State, text: string)
    requires LoadingTracksCall(s) && s.inFlight.Some?
    ensures CompleteEdit(s, Success(text)).error == ""
  {
  }

  /** One edit from the page as the user makes it: type the instruction, press
      Apply, and the remote call succeeds. */
  function EditOnce(s: State, instruction: string): (t: State)
    requires !s.loading
    ensures !t.loading && t.apiKey == s.apiKey && t.image == s.image
    ensures |s.editHistory| <= |t.editHistory| && t.editHistory[..|s.editHistory|] == s.editHistory
  {
    var started := Step(Step(s, EnterPrompt(instruction)), ApplyEdit);
    if started.inFlight.Some? then CompleteEdit(started, Success("")) else started
  }

  function EditAll(s: State, instructions: seq<string>): (t: State)
    requires !s.loading
    ensures !t.loading && t.apiKey == s.apiKey && t.image == s.image
    ensures |s.editHistory| <= |t.editHistory| && t.editHistory[..|s.editHistory|] == s.editHistory
    decreases |instructions|
  {
    if instructions == [] then s else EditAll(EditOnce(s, instructions[0]), instructions[1..])
  }

  /** The snapshots a run of edits on an already edited image leaves: one per
      edit, all of the uploaded photo, each with its own instruction. */
  function Snapshots(image: string, instructions: seq<string>): seq<Entry>
    decreases |instructions|
  {
    if instructions == [] then [] else [Entry(image, instructions[0])] + Snapshots(image, instructions[1..])
  }

  /** Once an edited image is shown, every successful edit pushes exactly one
      snapshot of it, tagged with the new instruction. */
  lemma {:induction false} EditsAfterFirstPushEachSnapshot(s: State, instructions: seq<string>)
    requires Valid(s) && !s.loading && s.apiKey != "" && Truthy(s.image) && s.editedImage == s.image
    requires forall i :: 0 <= i < |instructions| ==> instructions[i] != ""
    ensures var t := EditAll(s, instructions);
      t.editHistory == s.editHistory + Snapshots(s.image.value, instructions) &&
      t.editedImage == s.image && t.image == s.image && Valid(t)
    decreases |instructions|
  {
    if instructions != [] {
      var p := s.(prompt := instructions[0]);
      StartEditPreservesValid(p);
      var started := StartEdit(p);
      assert started.editHistory == s.editHistory + [Entry(s.image.value, instructions[0])] by {
        assert started.editHistory == started.editHistory[..|s.editHistory|] + [started.editHistory[|s.editHistory|]];
      }
      CompleteEditPreservesValid(started, Success(""));
      var u := EditOnce(s, instructions[0]);
      assert u.editHistory == s.editHistory + [Entry(s.image.value, instructions[0])];
      EditsAfterFirstPushEachSnapshot(u, instructions[1..]);
      assert [Entry(s.image.value, instructions[0])] + Snapshots(s.image.value, instructions[1..])
          == Snapshots(s.image.value, instructions);
    }
  }

  /** From a fresh upload, n successful edits leave n - 1 entries: the first
      edit has no edited image to snapshot. */
  lemma EditsFromFreshUpload(s: State, instructions: seq<string>)
    requires Valid(s) && !s.loading && s.apiKey != "" && Truthy(s.image)
    requires s.editedImage.None? && s.editHistory == []
    requires |instructions| >= 1
    requires forall i :: 0 <= i < |instructions| ==> instructions[i] != ""
    ensures var t := EditAll(s, instructions);
      t.editHistory == Snapshots(s.image.value, instructions[1..]) &&
      |t.editHistory| == |instructions| - 1 && t.editedImage == s.image
  {
    var u := EditOnce(s, instructions[0]);
    assert u.editHistory == [] && u.editedImage == s.image;
    StartEditPreservesValid(s.(prompt := instructions[0]));
    CompleteEditPreservesValid(StartEdit(s.(prompt := instructions[0])), Success(""));
    EditsAfterFirstPushEachSnapshot(u, instructions[1..]);
    SnapshotsLength(s.image.value, instructions[1..]);
  }

  lemma {:induction false} SnapshotsLength(image: string, instructions: seq<string>)
    ensures |Snapshots(image, instructions)| == |instructions|
    decreases |instructions|
  {
    if instructions != [] { SnapshotsLength(image, instructions[1..]); }
  }

  /** Once an edited image is shown, n successful edits followed by n undos
      give back the history and the edited image from before the edits. */
  lemma EditsThenUndosRestore(s: State, instructions: seq<string>)
    requires Valid(s) && !s.loading && s.apiKey != "" && Truthy(s.image) && s.editedImage == s.image
    requires forall i :: 0 <= i < |instructions| ==> instructions[i] != ""
    ensures var t := UndoTimes(EditAll(s, instructions), |instructions|);
      t.editHistory == s.editHistory && t.editedImage == s.editedImage
  {
    var n := |instructions|;
    var e := EditAll(s, instructions);
    EditsAfterFirstPushEachSnapshot(s, instructions);
    SnapshotsLength(s.image.value, instructions);
    UndoTimesPops(e, n);
    var h := e.editHistory;
    assert h[..|h| - n] == s.editHistory;
    if n > 0 {
      assert h[|h| - n] == Snapshots(s.image.value, instructions)[0];
    }
  }

  function UndoTimes(s: State, k: nat): State
    decreases k
  {
    if k == 0 then s else UndoTimes(Undo(s), k - 1)
  }

  /** k undos pop the last k entries, LIFO, and show the snapshot of the last
      one popped; once the history is empty, further undos change nothing. */
  lemma {:induction false} UndoTimesPops(s: State, k: nat)
    ensures var h := s.editHistory; var t := UndoTimes(s, k);
      (k <= |h| ==> t.editHistory == h[..|h| - k]) &&
      (0 < k <= |h| ==> t.editedImage == Some(h[|h| - k].image)) &&
      (k >= |h| ==> t.editHistory == [] && (k > 0 && h != [] ==> t.editedImage == Some(h[0].image))) &&
      (h == [] ==> t == s) &&
      t.(editedImage := s.editedImage, editHistory := s.editHistory) == s
    decreases k
  {
    if k > 0 {
      var h := s.editHistory;
      var u := Undo(s);
      UndoTimesPops(u, k - 1);
      if h != [] {
        assert u.editHistory == h[..|h| - 1];
        if k - 1 <= |u.editHistory| {
          assert u.editHistory[..|u.editHistory| - (k - 1)] == h[..|h| - k];
        }
        if k - 1 == 0 {
          assert u.editedImage == Some(h[|h| - 1].image);
        } else if k - 1 <= |u.editHistory| {
          assert u.editHistory[|u.editHistory| - (k - 1)] == h[|h| - k];
        }
      }
    }
  }

  /** Undo never takes the page back to "no edit yet": after n successful edits
      from a fresh upload and as many undos, the edited image is still the
      photo and the history is empty. */
  lemma UndoingEveryEditKeepsAnEditedImage(s: State, instructions: seq<string>)
    requires Valid(s) && !s.loading && s.apiKey != "" && Truthy(s.image)
    requires s.editedImage.None? && s.editHistory == []
    requires |instructions| >= 1
    requires forall i :: 0 <= i < |instructions| ==> instructions[i] != ""
    ensures var t := UndoTimes(EditAll(s, instructions), |instructions|);
      t.editHistory == [] && t.editedImage == s.image
  {
    var e := EditAll(s, instructions);
    EditsFromFreshUpload(s, instructions);
    UndoTimesPops(e, |instructions|);
    if |instructions| > 1 {
      SnapshotsLength(s.image.value, instructions[1..]);
      assert e.editHistory[0] == Entry(s.image.value, instructions[1]);
    }
  }

  /** Remove background, then Enhance colors, then undo, on a fresh upload. */
  lemma TwoEditsThenUndo(s: State)
    requires Valid(s) && !s.loading && s.apiKey != "" && Truthy(s.image)
    requires s.editedImage.None? && s.editHistory == []
    ensures var first := EditOnce(s, "Remove background");
      first.editedImage == s.image && first.editHistory == [] &&
      var second := EditOnce(first, "Enhance colors");
      second.editHistory == [Entry(s.image.value, "Enhance colors")] &&
      var undone := Undo(second);
      undone.editedImage == s.image && undone.editHistory == []
  {
  }

  /** The call carries the base64 body of the uploaded file, without the
      data-URI header. */
  lemma DispatchSendsFileBody(s: State, mimeType: string, base64: string)
    requires Valid(s) && s.image.None? && !s.loading && s.apiKey != "" && s.prompt != ""
    requires StartsWith(mimeType, "image/") && ',' !in mimeType && ',' !in base64
    ensures var t := StartEdit(Upload(s, mimeType, DataUrl(mimeType, base64)));
      t.inFlight.Some? && Outbound(t.inFlight.value) == RemoteCall(s.apiKey, base64, s.prompt)
  {
    PayloadOfDataUrl(mimeType, base64);
  }

  /** Upload A, edit, press reset before the call returns, upload B: when the
      call succeeds, B is shown as original and A as its edit. */
  lemma OrphanedEditShowsPreviousPhoto()
    ensures var a := DataUrl("image/png", "QQ==");
      var b := DataUrl("image/png", "Qg==");
      var t := Run(Initial(), [EnterApiKey("k"), UploadFile("image/png", "QQ=="),
                               EnterPrompt("Fix lighting"), ApplyEdit, StartOver,
                               UploadFile("image/png", "Qg=="), RemoteResolves(Success("done"))]);
      t.image == Some(b) && t.editedImage == Some(a) && a != b && !Valid(t)
  {
    var a := DataUrl("image/png", "QQ==");
    var b := DataUrl("image/png", "Qg==");
    assert StartsWith("image/png", "image/");
    assert a != b by { assert a[|a| - 3] != b[|b| - 3]; }
    var s1 := Step(Initial(), EnterApiKey("k"));
    var s2 := Step(s1, UploadFile("image/png", "QQ=="));
    assert s2.image == Some(a);
    var s3 := Step(s2, EnterPrompt("Fix lighting"));
    var s4 := Step(s3, ApplyEdit);
    assert s4.inFlight == Some(Dispatch("k", a, "Fix lighting"));
    var s5 := Step(s4, StartOver);
    assert s5.image.None? && s5.inFlight == s4.inFlight;
    var s6 := Step(s5, UploadFile("image/png", "Qg=="));
    assert s6.image == Some(b);
    var s7 := Step(s6, RemoteResolves(Success("done")));
    assert s7.editedImage == Some(a);
    var acts := [EnterApiKey("k"), UploadFile("image/png", "QQ=="),
                 EnterPrompt("Fix lighting"), ApplyEdit, StartOver,
                 UploadFile("image/png", "Qg=="), RemoteResolves(Success("done"))];
    assert Run(Initial(), acts) == s7 by {
      assert Run(s7, acts[7..]) == s7;
      assert Run(s6, acts[6..]) == s7;
      assert Run(s5, acts[5..]) == s7;
      assert Run(s4, acts[4..]) == s7;
      assert Run(s3, acts[3..]) == s7;
      assert Run(s2, acts[2..]) == s7;
      assert Run(s1, acts[1..]) == s7;
    }
  }
}
