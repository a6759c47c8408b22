/**
 * The screen-content serialiser of the accessibility service, as a
 * specification on values: an accessibility node tree and the text the
 * service captures from it. Every node is written as one line: its trimmed
 * text, or failing that its trimmed content description, or nothing; the
 * tree is walked in pre-order and null children are skipped.
 */
module ScreenTree {
  import opened Wrappers
  import opened KotlinText

  /** A snapshot of one `AccessibilityNodeInfo`: `getChild(i)` may be null. */
  datatype Node = Node(text: Option<string>, desc: Option<string>, children: seq<Option<Node>>)

  /** `!text.isNullOrEmpty()` for the trimmed text. */
  predicate HasText(n: Node) {
    n.text.Some? && Trim(n.text.value) != ""
  }

  /** `!contentDesc.isNullOrEmpty()` for the trimmed content description. */
  predicate HasDesc(n: Node) {
    n.desc.Some? && Trim(n.desc.value) != ""
  }

  /** The line a node writes for itself, before any of its children. */
  function Entry(n: Node): string {
    if HasText(n) then Trim(n.text.value) + "\n"
    else if HasDesc(n) then Trim(n.desc.value) + "\n"
    else ""
  }

  /** What child slot `i` of `n` contributes: a null child contributes nothing. */
  function Contribution(n: Node, i: nat): string
    requires i < |n.children|
    decreases n, 0
  {
    match n.children[i]
    case None => ""
    case Some(c) => Serialize(c)
  }

  /** The output of child slots `i` up to (not including) `j`, in slot order. */
  function Span(n: Node, i: nat, j: nat): string
    requires i <= j <= |n.children|
    decreases n, 1, j
  {
    if i == j then "" else Span(n, i, j - 1) + Contribution(n, j - 1)
  }

  /** `captureScreenContent` on a non-null node: its own line, then every child subtree in order. */
  function Serialize(n: Node): string
    decreases n, 2
  {
    Entry(n) + Span(n, 0, |n.children|)
  }

  /** `captureScreenContent(root)`, which returns "" for a null root. */
  function ScreenContent(root: Option<Node>): string {
    match root
    case None => ""
    case Some(n) => Serialize(n)
  }

  // ---------------------------------------------------------------------------
  // An independent reference: the sequence of visited nodes, in pre-order
  // ---------------------------------------------------------------------------

  /** Every non-null node of the tree rooted at `n`, each before its descendants, children left to right. */
  function PreOrder(n: Node): seq<Node>
    decreases n, 1
  {
    [n] + PreOrderFrom(n, 0)
  }

  /** The pre-order of the subtrees in child slots `i` onwards. */
  function PreOrderFrom(n: Node, i: nat): seq<Node>
    requires i <= |n.children|
    decreases n, 0, |n.children| - i
  {
    if i == |n.children| then []
    else (match n.children[i] case None => [] case Some(c) => PreOrder(c)) + PreOrderFrom(n, i + 1)
  }

  /** The lines of a sequence of nodes, one after the other. */
  function Lines(ns: seq<Node>): string {
    if ns == [] then "" else Entry(ns[0]) + Lines(ns[1..])
  }

  lemma {:induction false} LinesAppend(a: seq<Node>, b: seq<Node>)
    ensures Lines(a + b) == Lines(a) + Lines(b)
  {
    if a == [] {
      assert a + b == b;
    } else {
      assert (a + b)[0] == a[0];
      assert (a + b)[1..] == a[1..] + b;
      LinesAppend(a[1..], b);
    }
  }

  /** The serialiser writes exactly the lines of the visited nodes, in pre-order. */
  lemma {:induction false} SerializeIsPreOrder(n: Node)
    ensures Serialize(n) == Lines(PreOrder(n))
    decreases n, 2
  {
    SpanIsPreOrder(n, |n.children|);
    assert PreOrder(n)[1..] == PreOrderFrom(n, 0);
  }

  lemma {:induction false} SpanIsPreOrder(n: Node, k: nat)
    requires k <= |n.children|
    ensures Span(n, 0, k) + Lines(PreOrderFrom(n, k)) == Lines(PreOrderFrom(n, 0))
    decreases n, 1, k
  {
    if k > 0 {
      SpanIsPreOrder(n, k - 1);
      var sub := match n.children[k - 1] case None => [] case Some(c) => PreOrder(c);
      LinesAppend(sub, PreOrderFrom(n, k));
      match n.children[k - 1]
      case None =>
      case Some(c) =>
        SerializeIsPreOrder(c);
    }
  }

  // ---------------------------------------------------------------------------
  // Properties of the serialiser
  // ---------------------------------------------------------------------------

  lemma {:induction false} SpanSplit(n: Node, i: nat, k: nat, j: nat)
    requires i <= k <= j <= |n.children|
    ensures Span(n, i, j) == Span(n, i, k) + Span(n, k, j)
    decreases j
  {
    if k < j {
      SpanSplit(n, i, k, j - 1);
    }
  }

  /** A node with non-blank text writes that trimmed text and a newline first, whatever its description says. */
  lemma TextLineFirst(n: Node)
    requires HasText(n)
    ensures Serialize(n) == Trim(n.text.value) + "\n" + Span(n, 0, |n.children|)
  {
  }

  /** The trimmed description is written only when the trimmed text is null or empty. */
  lemma DescriptionLineFirst(n: Node)
    requires !HasText(n) && HasDesc(n)
    ensures Serialize(n) == Trim(n.desc.value) + "\n" + Span(n, 0, |n.children|)
  {
  }

  /** A node with neither writes nothing of its own, but its children are still visited. */
  lemma SilentNodeVisitsChildren(n: Node)
    requires !HasText(n) && !HasDesc(n)
    ensures Serialize(n) == Span(n, 0, |n.children|)
  {
  }

  /**
   * Pre-order, stated on the output: for child slots i < j, the node's own
   * line comes first, then everything from slots before i, then all of
   * child i's subtree, then the slots between, then all of child j's subtree.
   */
  lemma {:induction false} ChildOutputOrder(n: Node, i: nat, j: nat)
    requires i < j < |n.children|
    ensures Serialize(n) == Entry(n) + Span(n, 0, i) + Contribution(n, i)
                            + Span(n, i + 1, j) + Contribution(n, j) + Span(n, j + 1, |n.children|)
  {
    var m := |n.children|;
    SpanSingle(n, i);
    SpanSingle(n, j);
    SpanSplit(n, 0, i, m);
    SpanSplit(n, i, i + 1, m);
    SpanSplit(n, i + 1, j, m);
    SpanSplit(n, j, j + 1, m);
    Regroup(Entry(n), Span(n, 0, i), Contribution(n, i), Span(n, i + 1, j), Contribution(n, j), Span(n, j + 1, m));
  }

  lemma Regroup(a: string, b: string, c: string, d: string, e: string, f: string)
    ensures a + (b + (c + (d + (e + f)))) == a + b + c + d + e + f
  {
  }

  lemma SpanSingle(n: Node, i: nat)
    requires i < |n.children|
    ensures Span(n, i, i + 1) == Contribution(n, i)
  {
    assert Span(n, i, i) == "";
  }

  /** Two runs of child slots holding the same children write the same text. */
  lemma {:induction false} SpanSameChildren(n: Node, i: nat, j: nat, m: Node, i': nat)
    requires i <= j <= |n.children| && i' + (j - i) <= |m.children|
    requires n.children[i..j] == m.children[i'..i' + (j - i)]
    ensures Span(n, i, j) == Span(m, i', i' + (j - i))
    decreases j
  {
    if i < j {
      assert n.children[i..j - 1] == m.children[i'..i' + (j - 1 - i)] by {
        assert n.children[i..j - 1] == n.children[i..j][..j - 1 - i];
        assert m.children[i'..i' + (j - 1 - i)] == m.children[i'..i' + (j - i)][..j - 1 - i];
      }
      SpanSameChildren(n, i, j - 1, m, i');
      assert n.children[j - 1] == n.children[i..j][j - 1 - i];
    }
  }

  /** A null child contributes nothing and does not disturb its siblings: removing it leaves the output unchanged. */
  lemma {:induction false} NullChildSkipped(text: Option<string>, desc: Option<string>, cs: seq<Option<Node>>, k: nat)
    requires k <= |cs|
    ensures Serialize(Node(text, desc, cs[..k] + [None] + cs[k..])) == Serialize(Node(text, desc, cs))
  {
    var n := Node(text, desc, cs);
    var n' := Node(text, desc, cs[..k] + [None] + cs[k..]);
    var m := |cs|;
    assert n'.children[k] == None;
    assert cs[0..k] == n'.children[0..k];
    assert cs[k..m] == n'.children[k + 1..m + 1];
    SpanSameChildren(n, 0, k, n', 0);
    SpanSameChildren(n, k, m, n', k + 1);
    SpanSplit(n', 0, k, m + 1);
    SpanSplit(n', k, k + 1, m + 1);
    SpanSingle(n', k);
    SpanSplit(n, 0, k, m);
    assert Span(n', 0, m + 1) == Span(n, 0, m);
  }
}
