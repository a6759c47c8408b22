/**
 * The accessibility service: it remembers the last command it was given
 * (`currentTask`) and captures the screen content when a command arrives
 * and, once it holds a task, whenever the window content changes.
 * `rootInActiveWindow` is a parameter of each callback; the `Log.d` output
 * is kept as `screenLog`, the sequence of captured screen contents.
 */
module AccessibilityService {
  import opened Wrappers
  import opened KotlinText
  import opened ScreenTree
  import opened HandleRelease

  const ACTION_COMMAND: string := "com.manus.agent.COMMAND"
  /** Android's `AccessibilityEvent.TYPE_WINDOW_CONTENT_CHANGED` (0x00000800). */
  const TYPE_WINDOW_CONTENT_CHANGED: int := 0x800

  /** The parts of an incoming `Intent` the service reads: its action and `EXTRA_COMMAND_TEXT`. */
  datatype Intent = Intent(action: Option<string>, commandText: Option<string>)

  datatype AccessibilityEvent = AccessibilityEvent(eventType: int)

  /** `intent?.action == ACTION_COMMAND` */
  predicate IsCommand(intent: Option<Intent>) {
    intent.Some? && intent.value.action == Some(ACTION_COMMAND)
  }

  /** `currentTask` after `onStartCommand`: only a command intent sets it, to its (possibly null) command text. */
  function TaskAfterStart(task: Option<string>, intent: Option<Intent>): (t: Option<string>)
    ensures t != task ==> IsCommand(intent)
    ensures IsCommand(intent) ==> t == intent.value.commandText
  {
    if IsCommand(intent) then intent.value.commandText else task
  }

  /** Whether an accessibility event triggers a capture attempt: a task is held and the window content changed. */
  function EventTriggersCapture(task: Option<string>, event: Option<AccessibilityEvent>): (b: bool)
    ensures b <==> task.Some? && event == Some(AccessibilityEvent(TYPE_WINDOW_CONTENT_CHANGED))
  {
    task != None && event.Some? && event.value.eventType == TYPE_WINDOW_CONTENT_CHANGED
  }

  /** The `StringBuilder` shared by one capture. */
  class TextBuilder {
    var content: string

    constructor ()
      ensures content == ""
    {
      content := "";
    }

    method Append(s: string)
      modifies this
      ensures content == old(content) + s
    {
      content := content + s;
    }
  }

  class ManusAccessibilityService {
    var currentTask: Option<string>
    /** The screen contents captured so far, oldest first (what the service logs). */
    var screenLog: seq<string>
    /** The node handles recycled so far, oldest first, each named by its path from the window root. */
    ghost var released: seq<Handle>

    constructor ()
      ensures currentTask == None && screenLog == [] && released == []
    {
      currentTask := None;
      screenLog := [];
      released := [];
    }

    /**
     * `traverseNode`: writes the node's line, then walks its child slots in
     * order, skipping null children and recycling each non-null child after
     * its subtree. `at` names `node`.
     */
    method TraverseNode(node: Node, builder: TextBuilder, ghost at: Handle)
      modifies builder, this`released
      ensures builder.content == old(builder.content) + Serialize(node)
      ensures released == old(released) + Recycled(node, at)
      decreases node
    {
      AppendOwnLine(node, builder);
      ghost var start := builder.content;
      var i := 0;
      while i < |node.children|
        invariant i <= |node.children|
        invariant builder.content == start + Span(node, 0, i)
        invariant released == old(released) + RecycledSpan(node, at, i)
      {
        ghost var text0, released0 := builder.content, released;
        var child := node.children[i];
        if child.Some? {
          TraverseNode(child.value, builder, at + [i]);
          released := released + [at + [i]];
          assert released == released0 + (Recycled(child.value, at + [i]) + [at + [i]]);
        }
        assert builder.content == text0 + Contribution(node, i);
        assert Span(node, 0, i + 1) == Span(node, 0, i) + Contribution(node, i);
        i := i + 1;
      }
    }

    /** The first half of `traverseNode`: the node's trimmed text, or failing that its trimmed description, and a newline. */
    static method AppendOwnLine(node: Node, builder: TextBuilder)
      modifies builder
      ensures builder.content == old(builder.content) + Entry(node)
    {
      var text := if node.text.Some? then Some(Trim(node.text.value)) else None;
      var contentDesc := if node.desc.Some? then Some(Trim(node.desc.value)) else None;
      if text.Some? && text.value != "" {
        builder.Append(text.value);
        builder.Append("\n");
      } else if contentDesc.Some? && contentDesc.value != "" {
        builder.Append(contentDesc.value);
        builder.Append("\n");
      }
    }

    /** `captureScreenContent`: "" for a null node, otherwise the serialised tree; the node itself is not recycled here. */
    method CaptureScreenContent(node: Option<Node>) returns (s: string)
      modifies this`released
      ensures s == ScreenContent(node)
      ensures node.None? ==> s == "" && released == old(released)
      ensures node.Some? ==> released == old(released) + Recycled(node.value, [])
    {
      if node.None? {
        return "";
      }
      var builder := new TextBuilder();
      TraverseNode(node.value, builder, []);
      s := builder.content;
    }

    /**
     * `onStartCommand`: a command intent sets `currentTask` and, when a
     * window is active, captures its content and then recycles its root.
     */
    method OnStartCommand(intent: Option<Intent>, root: Option<Node>)
      modifies this
      ensures currentTask == TaskAfterStart(old(currentTask), intent)
      ensures IsCommand(intent) && root.Some? ==>
        screenLog == old(screenLog) + [Serialize(root.value)]
        && released == old(released) + Recycled(root.value, []) + [[]]
      ensures !(IsCommand(intent) && root.Some?) ==> screenLog == old(screenLog) && released == old(released)
    {
      if IsCommand(intent) {
        currentTask := intent.value.commandText;
        var rootNode := root;
        if rootNode != None {
          var screenContent := CaptureScreenContent(rootNode);
          screenLog := screenLog + [screenContent];
          released := released + [[]];
        }
      }
    }

    /**
     * `onAccessibilityEvent`: once a task is held, a window-content-changed
     * event captures the active window, if there is one, and recycles its root.
     */
    method OnAccessibilityEvent(event: Option<AccessibilityEvent>, root: Option<Node>)
      modifies this
      ensures currentTask == old(currentTask)
      ensures EventTriggersCapture(old(currentTask), event) && root.Some? ==>
        screenLog == old(screenLog) + [Serialize(root.value)]
        && released == old(released) + Recycled(root.value, []) + [[]]
      ensures !(EventTriggersCapture(old(currentTask), event) && root.Some?) ==>
        screenLog == old(screenLog) && released == old(released)
    {
      if currentTask != None && event.Some? && event.value.eventType == TYPE_WINDOW_CONTENT_CHANGED {
        if root.None? {
          return;
        }
        var rootNode := root;
        var screenContent := CaptureScreenContent(rootNode);
        screenLog := screenLog + [screenContent];
        released := released + [[]];
      }
    }
  }
}
