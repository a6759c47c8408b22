# ManusAgent core, modelled in Dafny

ManusAgent is an Android app with two parts. One is an accessibility service. It receives command
intents, remembers the last command as its current task, and captures the text content of the active
window. The other is a chat-style main activity. It keeps a bounded, newest-first chat history, tracks
readiness (storage permission, model files, accessibility service) in a status line, copies the model
files from Downloads into private storage, and hands commands to the service.

This project models the sequential logic of both parts:

- `screen_tree.dfy` (module `ScreenTree`) holds the accessibility node tree as a value, `Node(text, desc,
  children)`, where each child slot may be null. It also holds the serialiser specification
  `Serialize`: each node writes one `"\n"`-terminated line (its trimmed text, or failing that its trimmed
  content description, or nothing), in pre-order. An independent reference, `PreOrder` with `Lines`,
  lists the visited nodes.
- `handle_release.dfy` (module `HandleRelease`) describes which node handles a capture recycles, and in
  what order. A handle is named by its path of child indices from the window root.
- `accessibility_service.dfy` (module `AccessibilityService`) is the service as a class. It has
  `currentTask`, a log of captured screen contents, and a ghost log of recycled handles. `TraverseNode`
  appends into a shared `TextBuilder` inside a loop over the child slots. It is proved equal to
  `Serialize` and to the release specification.
- `chat_history.dfy` (module `ChatHistory`) describes the bounded newest-first history: at most 50
  messages, trimmed from the tail.
- `model_files.dfy` (module `ModelFiles`) covers the three model file names, `areModelsCopied`, and the
  copy plan. The file system is a map from file name to length.
- `main_activity.dfy` (module `MainActivityModel`) is the activity as a class. Its fields are the history,
  the readiness flags, the status line, the private files directory and the commands sent. Its methods
  are the message, status, copy, send and broadcast-receiver operations.
- `kotlin_text.dfy` (module `KotlinText`) gives Kotlin's `trim()` and `isBlank()`.
- `wrappers.dfy` gives `Option`, the stand-in for Kotlin's nullable types.

The app contains no node search by label, no click or back actions, no command interpreter and no
inference: the only inference code is a commented-out ONNX session load. A command is stored as the current
task and only steers when the screen is captured.

## Model

| member | source | states |
|---|---|---|
| KotlinText.TrimStartDropsLeadingBlanks | app/src/main/java/com/manus/agent/ManusAccessibilityService.kt:81-82 | dropping leading whitespace leaves a suffix that is empty or starts with a non-blank character, and everything dropped is whitespace |
| KotlinText.TrimEndDropsTrailingBlanks | app/src/main/java/com/manus/agent/ManusAccessibilityService.kt:81-82 | dropping trailing whitespace leaves a prefix that is empty or ends with a non-blank character, and everything dropped is whitespace |
| KotlinText.TrimEmptyIffBlank | app/src/main/java/com/manus/agent/ManusAccessibilityService.kt:81-84 | `trim()` gives the empty string exactly when the input is blank; otherwise the result starts and ends with a non-blank character |
| ScreenTree.TextLineFirst | app/src/main/java/com/manus/agent/ManusAccessibilityService.kt:81-85 | a node whose trimmed text is non-empty writes exactly that text and `"\n"`, whatever its description, then its children's output |
| ScreenTree.DescriptionLineFirst | app/src/main/java/com/manus/agent/ManusAccessibilityService.kt:82-87 | the trimmed description and `"\n"` are written only when the trimmed text is null or empty |
| ScreenTree.SilentNodeVisitsChildren | app/src/main/java/com/manus/agent/ManusAccessibilityService.kt:84-96 | a node with neither non-empty text nor non-empty description writes nothing of its own, but its children are still walked |
| ScreenTree.SerializeIsPreOrder | app/src/main/java/com/manus/agent/ManusAccessibilityService.kt:80-96 | the captured text is exactly the lines of the non-null nodes in pre-order: each node before its subtree, children left to right |
| ScreenTree.ChildOutputOrder | app/src/main/java/com/manus/agent/ManusAccessibilityService.kt:84-96 | for child slots i < j, the node's own line comes first, then all output of child i, then the slots between, then all output of child j |
| ScreenTree.NullChildSkipped | app/src/main/java/com/manus/agent/ManusAccessibilityService.kt:90-92 | a null child contributes nothing and does not disturb its siblings: inserting one anywhere leaves the output unchanged |
| HandleRelease.RecycledExactly | app/src/main/java/com/manus/agent/ManusAccessibilityService.kt:90-96 | the handles a walk recycles are exactly the non-null nodes strictly below the walked node |
| HandleRelease.RecycledOnceAfterSubtree | app/src/main/java/com/manus/agent/ManusAccessibilityService.kt:90-96 | no handle is recycled twice, and no handle is recycled before a handle below it |
| HandleRelease.CaptureReleasesEachHandleOnce | app/src/main/java/com/manus/agent/ManusAccessibilityService.kt:54-58 | a capture followed by the caller's `recycle()` of the root releases every non-null node of the window exactly once, descendants first |
| AccessibilityService.TaskAfterStart | app/src/main/java/com/manus/agent/ManusAccessibilityService.kt:50-52 | `currentTask` changes only for an intent whose action is `ACTION_COMMAND`, and then becomes its (possibly null) command text |
| AccessibilityService.EventTriggersCapture | app/src/main/java/com/manus/agent/ManusAccessibilityService.kt:65 | an event leads to a capture attempt exactly when a task is held and the event type is `TYPE_WINDOW_CONTENT_CHANGED` |
| AccessibilityService.ManusAccessibilityService.constructor | app/src/main/java/com/manus/agent/ManusAccessibilityService.kt:28 | the service starts with no task, nothing captured and nothing recycled |
| AccessibilityService.ManusAccessibilityService.AppendOwnLine | app/src/main/java/com/manus/agent/ManusAccessibilityService.kt:81-88 | appends the node's line (text over description) to the builder |
| AccessibilityService.ManusAccessibilityService.TraverseNode | app/src/main/java/com/manus/agent/ManusAccessibilityService.kt:80-97 | the builder gains exactly `Serialize(node)`, and the recycled log gains exactly the post-order release sequence of the node's non-null descendants |
| AccessibilityService.ManusAccessibilityService.CaptureScreenContent | app/src/main/java/com/manus/agent/ManusAccessibilityService.kt:73-78 | a null node gives `""` and recycles nothing; otherwise the result is the serialised tree |
| AccessibilityService.ManusAccessibilityService.OnStartCommand | app/src/main/java/com/manus/agent/ManusAccessibilityService.kt:50-62 | a command intent sets `currentTask`; when a window is active it captures the content once and then recycles the root; any other intent changes nothing |
| AccessibilityService.ManusAccessibilityService.OnAccessibilityEvent | app/src/main/java/com/manus/agent/ManusAccessibilityService.kt:64-71 | leaves `currentTask` unchanged; captures and recycles the root only when a task is held, the event is a content change and a window is active |
| ChatHistory.BoundedKeepsNewest | app/src/main/java/com/manus/agent/MainActivity.kt:144-146 | trimming leaves at most 50 messages, keeps the newest min(n, 50) in order, and leaves a history of 50 or fewer unchanged |
| ChatHistory.AddShiftsBack | app/src/main/java/com/manus/agent/MainActivity.kt:130-142 | adding a message puts it at index 0 and shifts every kept message back by one |
| ChatHistory.AddTwice | app/src/main/java/com/manus/agent/MainActivity.kt:280-282 | two adds one after the other equal adding both at once, the later one newest |
| ChatHistory.AddThrice | app/src/main/java/com/manus/agent/MainActivity.kt:280-291 | three adds one after the other equal adding all three at once, newest first |
| ModelFiles.AllPresent | app/src/main/java/com/manus/agent/MainActivity.kt:219 | `all { exists }` holds exactly when every listed name is in the directory |
| ModelFiles.AreModelsCopied | app/src/main/java/com/manus/agent/MainActivity.kt:57 | holds exactly when `phi3.onnx`, `phi3.onnx.data` and `tokenizer.json` all exist in the private files directory |
| ModelFiles.AnySourceMissing | app/src/main/java/com/manus/agent/MainActivity.kt:225-232 | the flag loop with `break` reports a missing source exactly when some model file is absent from Downloads |
| ModelFiles.CopyAllSucceeds | app/src/main/java/com/manus/agent/MainActivity.kt:242-258 | when no copy throws, the copy loop finishes successfully |
| ModelFiles.CopyWritesOnlyStale | app/src/main/java/com/manus/agent/MainActivity.kt:244-253 | a destination is rewritten only when it was missing or differed in length from its source; on success every such destination is rewritten |
| ModelFiles.CopyLeavesSourceLengths | app/src/main/java/com/manus/agent/MainActivity.kt:244-253 | after a successful copy every model file exists with its source's length |
| ModelFiles.CopyKeepsOthers | app/src/main/java/com/manus/agent/MainActivity.kt:244-253 | the copy touches no file outside the listed names |
| ModelFiles.AlreadyCopiedIsIdle | app/src/main/java/com/manus/agent/MainActivity.kt:247 | when every destination already has its source's length, the copy writes nothing |
| ModelFiles.CopyRerunIsIdle | app/src/main/java/com/manus/agent/MainActivity.kt:244-253 | running the copy again after a successful run writes nothing and changes nothing |
| ModelFiles.CopyStopsAtFirstFailure | app/src/main/java/com/manus/agent/MainActivity.kt:243-258 | a destination never opened keeps its entry; a failed run ends at its first throwing copy, which is the last destination opened and keeps the length the failure left; a successful run opened no throwing copy |
| ModelFiles.ModelsComplete | app/src/main/java/com/manus/agent/MainActivity.kt:218-220 | corrected check (see Findings): every model file is present with its source's length; it implies the check as written |
| ModelFiles.CompleteIffNothingToCopy | app/src/main/java/com/manus/agent/MainActivity.kt:244-253 | the corrected check holds exactly when a copy run would open nothing and change nothing |
| ModelFiles.FailedCopyIsIncomplete | app/src/main/java/com/manus/agent/MainActivity.kt:243-258 | when a throwing copy leaves a length other than its source's, the corrected check never takes the failed run for complete |
| ModelFiles.FailedCopyLooksCopied | app/src/main/java/com/manus/agent/MainActivity.kt:218-220 | as written: a run whose last copy throws after creating `tokenizer.json` fails, yet `areModelsCopied` holds on the files it leaves |
| MainActivityModel.Assess | app/src/main/java/com/manus/agent/MainActivity.kt:198-203 | fixed priority: missing storage permission first, then missing models, then the disabled accessibility service, otherwise ready; each outcome holds exactly under its condition |
| MainActivityModel.CheckStatusText | app/src/main/java/com/manus/agent/MainActivity.kt:198-203 | the status of `checkPermissionsAndState`: "Storage permission required to copy AI models.", "Model files missing — copying...", "Accessibility Service is not enabled.", and "Ready" exactly when everything is ready |
| MainActivityModel.NotifyStatusText | app/src/main/java/com/manus/agent/MainActivity.kt:361-366 | the status of `checkAllReadyAndNotify`: "Storage permission required", "Models missing", "Enable Accessibility Service", and "Ready" exactly when everything is ready |
| MainActivityModel.ServiceUpdateText | app/src/main/java/com/manus/agent/MainActivity.kt:69-73 | a non-blank message is shown as is; otherwise a non-blank state is shown as "Service: " and the state; otherwise nothing is shown |
| MainActivityModel.MainActivity.constructor | app/src/main/java/com/manus/agent/MainActivity.kt:122-128 | empty history, all flags false, status "Initializing..." |
| MainActivityModel.MainActivity.TrimMessages | app/src/main/java/com/manus/agent/MainActivity.kt:144-146 | the removal loop leaves `Bounded(old history)`: at most 50 messages, the newest ones, in order |
| MainActivityModel.MainActivity.AddUserMessage | app/src/main/java/com/manus/agent/MainActivity.kt:130-135 | the user message is inserted at index 0 and the history is trimmed |
| MainActivityModel.MainActivity.AddAssistantMessage | app/src/main/java/com/manus/agent/MainActivity.kt:137-142 | the assistant message is inserted at index 0 and the history is trimmed |
| MainActivityModel.MainActivity.CheckAllReadyAndNotify | app/src/main/java/com/manus/agent/MainActivity.kt:357-367 | refreshes the three flags and shows the notify-chain text of the first unmet condition |
| MainActivityModel.MainActivity.CopyStaleFiles | app/src/main/java/com/manus/agent/MainActivity.kt:242-258 | the copy loop leaves exactly the files, the write log and the success flag of the `CopyAll` plan |
| MainActivityModel.MainActivity.CopyModelFilesIfNeeded | app/src/main/java/com/manus/agent/MainActivity.kt:222-273 | a missing source aborts before any write and leaves `modelsCopiedState` alone; otherwise the copy plan runs; success sets the models as copied, adds "AI models ready." and refreshes the status; failure shows "Failed copying models." |
| MainActivityModel.MainActivity.CheckPermissionsAndState | app/src/main/java/com/manus/agent/MainActivity.kt:194-207 | shows the check-chain text of the first unmet condition, and starts a copy only when storage permission is held and the models are not yet copied |
| MainActivityModel.MainActivity.SendCommandToService | app/src/main/java/com/manus/agent/MainActivity.kt:278-293 | a blank command changes nothing; otherwise the user line and then "Processing..." are added, and the command is sent, or an error line is added when sending throws |
| MainActivityModel.MainActivity.OnServiceUpdate | app/src/main/java/com/manus/agent/MainActivity.kt:63-76 | a null intent changes nothing; otherwise the chosen line (if any) is added and the status is refreshed |

`ScreenTree.Entry` and `ScreenTree.Serialize` (lines 80-96 of `ManusAccessibilityService.kt`) are stated through the `ScreenTree`
lemmas above. `ChatHistory.Bounded` (line 145 of `MainActivity.kt`) is stated through `BoundedKeepsNewest`. `ModelFiles.NeedsCopy`
(the condition at line 247) and `ModelFiles.CopyAll` (lines 242-258) are stated through the `ModelFiles` lemmas and
`MainActivity.CopyStaleFiles`.

## Left out

- Compose UI (`@Composable` functions in `MainActivity.kt`) and `ui/theme/*`: presentation and constant tables.
- Platform plumbing: permission checks and requests, the accessibility settings lookup, Toasts, `startService` and
  `sendBroadcast` delivery, and the service's `broadcastState`, `onServiceConnected`, `onUnbind` and `onInterrupt`.
  Each permission or settings answer becomes a boolean parameter. `rootInActiveWindow` becomes an optional node
  parameter. A failing `startService` becomes an optional error text.
- Speech recognition (`ensureSpeechRecognizer`, `startListening`, `stopListening`): listener wiring only.
- Coroutines and `runOnUiThread`: each launched block runs as one step, at once and in call order. In particular,
  the copy that `checkPermissionsAndState` launches completes inside that call.
- Real file I/O and byte copying: a directory is a map from name to length. Which copies throw is a parameter,
  `failing`, giving the length each failed copy leaves its destination with. A failure before the destination is
  opened is covered only as a failure that leaves that length; an absent destination that stays absent is not
  separately modelled.
- `AccessibilityNodeInfo` and `recycle()`: a node is an immutable snapshot, and a release is a ghost log entry.
  The log records the release order among handles. It does not record how releases interleave with the appended
  text; that interleaving is visible only in the structure of `TraverseNode`.
- The commented-out ONNX session load in `ManusAccessibilityService.kt`: dead code over a foreign library.
- `ChatMessage` ids and timestamps: opaque, so a message is its text and its sender.
- Logging: the service's `Log.d` output is kept as `screenLog`, the captured contents without the log prefix.
  Logging in `MainActivity.kt` is dropped.
- KotlinText.TrimEmptyIffBlank: whitespace is only the ASCII part of Kotlin's `Char.isWhitespace`, namely space,
  U+0009 to U+000D and U+001C to U+001F. Unicode space separators such as U+00A0 or U+2003 are not whitespace here,
  so `trim()` and `isBlank()` agree with Kotlin on ASCII text only.
- MainActivityModel.MainActivity.SendCommandToService: the error line uses the exception's rendered message,
  given as a parameter. Kotlin renders a null message as "null"; the caller supplies that text.

## Findings

| source | as written | input that shows it | evidently intended | confidence | as-written member | corrected member |
|---|---|---|---|---|---|---|
| app/src/main/java/com/manus/agent/MainActivity.kt:218-220 | `areModelsCopied` checks only that each model file exists. `FileOutputStream(dst)` (line 249) creates the destination before `copyTo` can throw, so a failed copy can leave a truncated file that passes the check, and `checkPermissionsAndState` (line 204) then never starts another copy | `phi3.onnx` and `phi3.onnx.data` present at length 5, `tokenizer.json` absent, all three at length 5 in Downloads, and the `tokenizer.json` copy throwing after 2 bytes | the models count as copied only when each file has its source's length, the same test the copy loop uses at line 247 | medium, not executed | ModelFiles.FailedCopyLooksCopied | ModelFiles.CompleteIffNothingToCopy |

The activity's methods keep `AreModelsCopied`, the check as written, so that their contracts describe what the app does.
`ModelFiles.ModelsComplete` is the corrected check. `CompleteIffNothingToCopy` and `FailedCopyIsIncomplete` are proved about it.
