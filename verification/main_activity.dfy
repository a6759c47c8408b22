/**
 * The main screen's state: the chat history, the readiness flags and the
 * status line, the model files in the app's private directory, and the
 * commands handed to the accessibility service. Permission checks, the
 * accessibility settings lookup, `startService` and the Downloads folder
 * are parameters of the methods that consult them; each coroutine the
 * activity launches runs here as one step, at once.
 */
module MainActivityModel {
  import opened Wrappers
  import opened KotlinText
  import opened ChatHistory
  import opened ModelFiles

  /** Which of the readiness conditions fails first, in the fixed order of the status `when` chains. */
  datatype Readiness = StoragePermissionMissing | ModelsMissing | AccessibilityDisabled | AllReady

  /** The priority of the status `when` chains: storage permission, then models, then the accessibility service. */
  function Assess(storageGranted: bool, modelsCopied: bool, accessibilityEnabled: bool): (r: Readiness)
    ensures r == StoragePermissionMissing <==> !storageGranted
    ensures r == ModelsMissing <==> storageGranted && !modelsCopied
    ensures r == AccessibilityDisabled <==> storageGranted && modelsCopied && !accessibilityEnabled
    ensures r == AllReady <==> storageGranted && modelsCopied && accessibilityEnabled
  {
    if !storageGranted then StoragePermissionMissing
    else if !modelsCopied then ModelsMissing
    else if !accessibilityEnabled then AccessibilityDisabled
    else AllReady
  }

  /** The status line `checkPermissionsAndState` shows. */
  function CheckStatusText(r: Readiness): (t: string)
    ensures t == "Ready" <==> r == AllReady
    ensures r == StoragePermissionMissing ==> t == "Storage permission required to copy AI models."
    ensures r == ModelsMissing ==> t == "Model files missing \U{2014} copying..."
    ensures r == AccessibilityDisabled ==> t == "Accessibility Service is not enabled."
  {
    match r
    case StoragePermissionMissing => "Storage permission required to copy AI models."
    case ModelsMissing => "Model files missing \U{2014} copying..."
    case AccessibilityDisabled => "Accessibility Service is not enabled."
    case AllReady => "Ready"
  }

  /** The status line `checkAllReadyAndNotify` shows. */
  function NotifyStatusText(r: Readiness): (t: string)
    ensures t == "Ready" <==> r == AllReady
    ensures r == StoragePermissionMissing ==> t == "Storage permission required"
    ensures r == ModelsMissing ==> t == "Models missing"
    ensures r == AccessibilityDisabled ==> t == "Enable Accessibility Service"
  {
    match r
    case StoragePermissionMissing => "Storage permission required"
    case ModelsMissing => "Models missing"
    case AccessibilityDisabled => "Enable Accessibility Service"
    case AllReady => "Ready"
  }

  /** The extras of a `SERVICE_STATE_CHANGED` broadcast: `EXTRA_STATE` and `EXTRA_MESSAGE`. */
  datatype StateBroadcast = StateBroadcast(state: Option<string>, message: Option<string>)

  /**
   * The assistant line a service update adds: the message when it is not
   * blank, otherwise "Service: " and the state when that is not blank,
   * otherwise none.
   */
  function ServiceUpdateText(state: Option<string>, message: Option<string>): (r: Option<string>)
    ensures r.None? <==> IsNullOrBlank(message) && IsNullOrBlank(state)
    ensures !IsNullOrBlank(message) ==> r == message
    ensures IsNullOrBlank(message) && !IsNullOrBlank(state) ==> r == Some("Service: " + state.value)
  {
    if !IsNullOrBlank(message) then message
    else if !IsNullOrBlank(state) then Some("Service: " + state.value)
    else None
  }

  function UserLine(text: string): ChatMessage {
    ChatMessage(text, true)
  }

  function AssistantLine(text: string): ChatMessage {
    ChatMessage(text, false)
  }

  const ProcessingText: string := "Processing..."
  const SendFailurePrefix: string := "Failed to send command to service: "

  class MainActivity {
    /** `_messages`, newest first. */
    var messages: seq<ChatMessage>
    var hasStoragePermissionState: bool
    var modelsCopiedState: bool
    var accessibilityEnabledState: bool
    var statusMessageState: string
    /** The app's private files directory. */
    var filesDir: Dir
    /** The command texts handed to the accessibility service, oldest first. */
    var commandsSent: seq<string>
    /** The destinations the copy has opened for writing, oldest first. */
    ghost var written: seq<string>

    /** The history never holds more than 50 messages between steps. */
    ghost predicate Valid()
      reads this
    {
      |messages| <= MaxMessages
    }

    constructor (files: Dir)
      ensures Valid()
      ensures messages == [] && commandsSent == [] && written == [] && filesDir == files
      ensures !hasStoragePermissionState && !modelsCopiedState && !accessibilityEnabledState
      ensures statusMessageState == "Initializing..."
    {
      messages := [];
      hasStoragePermissionState := false;
      modelsCopiedState := false;
      accessibilityEnabledState := false;
      statusMessageState := "Initializing...";
      filesDir := files;
      commandsSent := [];
      written := [];
    }

    /** `trimMessages`: drops the oldest message while there are more than 50. */
    method TrimMessages()
      modifies this`messages
      ensures Valid()
      ensures messages == Bounded(old(messages))
    {
      while |messages| > MaxMessages
        invariant messages == old(messages)[..|messages|]
        invariant |messages| >= MaxMessages || messages == old(messages)
        decreases |messages|
      {
        messages := messages[..|messages| - 1];
      }
    }

    /** `addUserMessage`: inserts at index 0, then trims. */
    method AddUserMessage(text: string)
      modifies this`messages
      ensures Valid()
      ensures messages == Bounded([UserLine(text)] + old(messages))
    {
      messages := [UserLine(text)] + messages;
      TrimMessages();
    }

    /** `addAssistantMessage`: inserts at index 0, then trims. */
    method AddAssistantMessage(text: string)
      modifies this`messages
      ensures Valid()
      ensures messages == Bounded([AssistantLine(text)] + old(messages))
    {
      messages := [AssistantLine(text)] + messages;
      TrimMessages();
    }

    /** `checkAllReadyAndNotify`: refreshes the three flags and shows the first unmet condition. */
    method CheckAllReadyAndNotify(storageGranted: bool, accessibilityEnabled: bool)
      modifies this`hasStoragePermissionState, this`modelsCopiedState, this`accessibilityEnabledState, this`statusMessageState
      ensures hasStoragePermissionState == storageGranted
      ensures modelsCopiedState == AreModelsCopied(filesDir)
      ensures accessibilityEnabledState == accessibilityEnabled
      ensures statusMessageState == NotifyStatusText(Assess(storageGranted, AreModelsCopied(filesDir), accessibilityEnabled))
    {
      hasStoragePermissionState := storageGranted;
      modelsCopiedState := AreModelsCopied(filesDir);
      accessibilityEnabledState := accessibilityEnabled;
      statusMessageState := NotifyStatusText(Assess(hasStoragePermissionState, modelsCopiedState, accessibilityEnabledState));
    }

    /**
     * What `copyModelFilesIfNeeded` does to the files, the history and the
     * status line: nothing but the status when a source is missing from
     * Downloads; otherwise the copy run, and on success the "AI models
     * ready." line and a refreshed status.
     */
    twostate predicate CopiedFromDownloads(downloads: Dir, failing: Dir, storageGranted: bool, accessibilityEnabled: bool)
      reads this
    {
      if !AllPresent(ModelFileNames, downloads) then
        filesDir == old(filesDir) && written == old(written) && messages == old(messages)
        && statusMessageState == "Place model files in Downloads."
      else
        var run := CopyAll(ModelFileNames, old(filesDir), downloads, failing);
        filesDir == run.files && written == old(written) + run.written
        && if run.ok then
          messages == Bounded([AssistantLine("AI models ready.")] + old(messages))
          && hasStoragePermissionState == storageGranted && modelsCopiedState
          && accessibilityEnabledState == accessibilityEnabled
          && statusMessageState == NotifyStatusText(Assess(storageGranted, true, accessibilityEnabled))
        else
          messages == old(messages) && statusMessageState == "Failed copying models."
    }

    /** Whether a copy run from these Downloads succeeds. */
    static predicate CopySucceeds(filesDir: Dir, downloads: Dir, failing: Dir) {
      AllPresent(ModelFileNames, downloads) && CopyAll(ModelFileNames, filesDir, downloads, failing).ok
    }

    /**
     * `copyModelFilesIfNeeded`: aborts before writing anything when a model
     * file is missing from Downloads; otherwise rewrites each destination
     * that is missing or differs in length, stopping at the first copy that
     * throws.
     */
    method CopyModelFilesIfNeeded(downloads: Dir, failing: Dir, storageGranted: bool, accessibilityEnabled: bool)
      requires Valid()
      modifies this
      ensures Valid()
      ensures CopiedFromDownloads(downloads, failing, storageGranted, accessibilityEnabled)
      ensures !CopySucceeds(old(filesDir), downloads, failing) ==>
        hasStoragePermissionState == old(hasStoragePermissionState) && modelsCopiedState == old(modelsCopiedState)
        && accessibilityEnabledState == old(accessibilityEnabledState)
      ensures commandsSent == old(commandsSent)
    {
      var anyMissing := AnySourceMissing(downloads);
      if anyMissing {
        statusMessageState := "Place model files in Downloads.";
        return;
      }
      var success := CopyStaleFiles(ModelFileNames, downloads, failing);
      if success {
        CopyLeavesSourceLengths(ModelFileNames, old(filesDir), downloads, failing);
        modelsCopiedState := true;
        statusMessageState := "Models copied.";
        AddAssistantMessage("AI models ready.");
        CheckAllReadyAndNotify(storageGranted, accessibilityEnabled);
      } else {
        statusMessageState := "Failed copying models.";
      }
    }

    /**
     * The `try` block of `copyModelFilesIfNeeded`: visits the files in order
     * (the model files, at its one call), rewrites each destination that is missing or differs in length
     * from its source, and stops at the first copy that throws.
     */
    method CopyStaleFiles(names: seq<string>, downloads: Dir, failing: Dir) returns (success: bool)
      requires AllPresent(names, downloads)
      modifies this`filesDir, this`written
      ensures filesDir == CopyAll(names, old(filesDir), downloads, failing).files
      ensures written == old(written) + CopyAll(names, old(filesDir), downloads, failing).written
      ensures success == CopyAll(names, old(filesDir), downloads, failing).ok
    {
      var files, touched := filesDir, [];
      success := true;
      var i := 0;
      while i < |names|
        invariant 0 <= i <= |names| && success
        invariant filesDir == old(filesDir) && written == old(written)
        invariant AllPresent(names[i..], downloads)
        invariant CopyAll(names, old(filesDir), downloads, failing) ==
          var rest := CopyAll(names[i..], files, downloads, failing);
          CopyOutcome(rest.files, touched + rest.written, rest.ok)
      {
        var name := names[i];
        CopyAllStep(names, i, files, downloads, failing);
        if name !in files || files[name] != downloads[name] {
          ghost var touched0 := touched;
          touched := touched + [name];
          if name in failing {
            files := files[name := failing[name]];
            success := false;
            break;
          }
          files := files[name := downloads[name]];
          ghost var next := CopyAll(names[i + 1..], files, downloads, failing);
          assert touched0 + ([name] + next.written) == touched + next.written;
        }
        i := i + 1;
      }
      assert success ==> names[i..] == [] && touched + [] == touched;
      assert CopyAll(names, old(filesDir), downloads, failing) == CopyOutcome(files, touched, success);
      filesDir, written := files, written + touched;
    }

    /**
     * `checkPermissionsAndState`: refreshes the three flags, shows the first
     * unmet condition, and starts the copy only when storage permission is
     * held and the models are not yet copied.
     */
    method CheckPermissionsAndState(storageGranted: bool, accessibilityEnabled: bool, downloads: Dir, failing: Dir)
      requires Valid()
      modifies this
      ensures Valid()
      ensures hasStoragePermissionState == storageGranted && accessibilityEnabledState == accessibilityEnabled
      ensures commandsSent == old(commandsSent)
      ensures !(storageGranted && !AreModelsCopied(old(filesDir))) ==>
        filesDir == old(filesDir) && written == old(written) && messages == old(messages)
        && modelsCopiedState == AreModelsCopied(filesDir)
        && statusMessageState == CheckStatusText(Assess(storageGranted, AreModelsCopied(filesDir), accessibilityEnabled))
      ensures storageGranted && !AreModelsCopied(old(filesDir)) ==>
        CopiedFromDownloads(downloads, failing, storageGranted, accessibilityEnabled)
        && modelsCopiedState == CopySucceeds(old(filesDir), downloads, failing)
    {
      hasStoragePermissionState := storageGranted;
      modelsCopiedState := AreModelsCopied(filesDir);
      accessibilityEnabledState := accessibilityEnabled;
      statusMessageState := CheckStatusText(Assess(hasStoragePermissionState, modelsCopiedState, accessibilityEnabledState));
      if hasStoragePermissionState && !modelsCopiedState {
        CopyModelFilesIfNeeded(downloads, failing, storageGranted, accessibilityEnabled);
      }
    }

    /**
     * `sendCommandToService`: a blank command is ignored; otherwise the
     * command and a "Processing..." placeholder are added, and the command
     * is handed to the service, or, when that throws with `startFailure`,
     * an error line is added instead.
     */
    method SendCommandToService(command: string, startFailure: Option<string>)
      requires Valid()
      modifies this`messages, this`commandsSent
      ensures Valid()
      ensures IsBlank(command) ==> messages == old(messages) && commandsSent == old(commandsSent)
      ensures !IsBlank(command) && startFailure.None? ==>
        messages == Bounded([AssistantLine(ProcessingText), UserLine(command)] + old(messages))
        && commandsSent == old(commandsSent) + [command]
      ensures !IsBlank(command) && startFailure.Some? ==>
        messages == Bounded([AssistantLine(SendFailurePrefix + startFailure.value), AssistantLine(ProcessingText), UserLine(command)]
                            + old(messages))
        && commandsSent == old(commandsSent)
    {
      if IsBlank(command) {
        return;
      }
      ghost var h := messages;
      AddUserMessage(command);
      AddAssistantMessage(ProcessingText);
      AddTwice(h, UserLine(command), AssistantLine(ProcessingText));
      if startFailure.None? {
        commandsSent := commandsSent + [command];
      } else {
        AddAssistantMessage(SendFailurePrefix + startFailure.value);
        AddThrice(h, UserLine(command), AssistantLine(ProcessingText), AssistantLine(SendFailurePrefix + startFailure.value));
      }
    }

    /**
     * `serviceReceiver.onReceive`: ignores a null intent; otherwise adds the
     * line `ServiceUpdateText` chooses, if any, and refreshes the status.
     */
    method OnServiceUpdate(broadcast: Option<StateBroadcast>, storageGranted: bool, accessibilityEnabled: bool)
      requires Valid()
      modifies this`messages, this`hasStoragePermissionState, this`modelsCopiedState,
        this`accessibilityEnabledState, this`statusMessageState
      ensures Valid()
      ensures broadcast.None? ==>
        messages == old(messages) && statusMessageState == old(statusMessageState)
        && hasStoragePermissionState == old(hasStoragePermissionState) && modelsCopiedState == old(modelsCopiedState)
        && accessibilityEnabledState == old(accessibilityEnabledState)
      ensures broadcast.Some? ==>
        messages == (match ServiceUpdateText(broadcast.value.state, broadcast.value.message)
                     case None => old(messages)
                     case Some(t) => Bounded([AssistantLine(t)] + old(messages)))
        && hasStoragePermissionState == storageGranted && modelsCopiedState == AreModelsCopied(filesDir)
        && accessibilityEnabledState == accessibilityEnabled
        && statusMessageState == NotifyStatusText(Assess(storageGranted, AreModelsCopied(filesDir), accessibilityEnabled))
    {
      if broadcast.None? {
        return;
      }
      var state := broadcast.value.state;
      var message := broadcast.value.message;
      if !IsNullOrBlank(message) {
        AddAssistantMessage(message.value);
      } else if !IsNullOrBlank(state) {
        AddAssistantMessage("Service: " + state.value);
      }
      CheckAllReadyAndNotify(storageGranted, accessibilityEnabled);
    }
  }
}
