/**
 * Release of accessibility node handles during a capture. `traverseNode`
 * calls `recycle()` on every non-null child right after walking that
 * child's subtree; the caller recycles the root after the capture. A handle
 * is named by its path of child indices from the window's root, so `[]` is
 * the root and `p + [i]` is child slot `i` of the node at `p`.
 */
module HandleRelease {
  import opened Wrappers
  import opened ScreenTree

  type Handle = seq<nat>

  /** The node that `q` names below `n`, or None when a step hits a missing or null child. */
  function At(n: Node, q: Handle): Option<Node>
    decreases q
  {
    if q == [] then Some(n)
    else if q[0] < |n.children| && n.children[q[0]].Some? then At(n.children[q[0]].value, q[1..])
    else None
  }

  /** `q` names a node strictly below the node named by `p`. */
  predicate Under(q: Handle, p: Handle) {
    |p| < |q| && q[..|p|] == p
  }

  /** The handles `traverseNode(n)` recycles, in order, when `n` itself is named by `p`. */
  function Recycled(n: Node, p: Handle): seq<Handle>
    decreases n, 1
  {
    RecycledSpan(n, p, |n.children|)
  }

  /** The handles recycled while walking child slots 0 up to (not including) `k`. */
  function RecycledSpan(n: Node, p: Handle, k: nat): seq<Handle>
    requires k <= |n.children|
    decreases n, 0, k
  {
    if k == 0 then []
    else
      RecycledSpan(n, p, k - 1)
      + match n.children[k - 1]
        case None => []
        case Some(c) => Recycled(c, p + [k - 1]) + [p + [k - 1]]
  }

  /** No handle occurs twice. */
  predicate NoDuplicates(s: seq<Handle>) {
    forall i, j :: 0 <= i < j < |s| ==> s[i] != s[j]
  }

  /** No handle is released before a handle below it: every node outlives the walk of its subtree. */
  predicate DescendantsFirst(s: seq<Handle>) {
    forall i, j :: 0 <= i < j < |s| ==> !Under(s[j], s[i])
  }

  lemma UnderChild(q: Handle, p: Handle, i: nat)
    requires Under(q, p + [i])
    ensures Under(q, p) && q[|p|] == i
  {
    assert q[..|p|] == q[..|p| + 1][..|p|];
  }

  /** Stepping into child slot q[|p|] of `n`. */
  lemma AtStep(n: Node, q: Handle, p: Handle)
    requires |p| < |q|
    ensures At(n, q[|p|..]) ==
      if q[|p|] < |n.children| && n.children[q[|p|]].Some? then At(n.children[q[|p|]].value, q[|p| + 1..]) else None
  {
    assert q[|p|..][0] == q[|p|];
    assert q[|p|..][1..] == q[|p| + 1..];
  }

  /** The handles released below `n` are exactly those of its non-null descendants. */
  lemma {:induction false} RecycledExactly(n: Node, p: Handle)
    ensures forall q :: q in Recycled(n, p) <==> Under(q, p) && At(n, q[|p|..]).Some?
    decreases n, 1
  {
    RecycledSpanExactly(n, p, |n.children|);
    forall q | Under(q, p) && At(n, q[|p|..]).Some?
      ensures q[|p|] < |n.children|
    {
      AtStep(n, q, p);
    }
  }

  lemma {:induction false} RecycledSpanExactly(n: Node, p: Handle, k: nat)
    requires k <= |n.children|
    ensures forall q :: q in RecycledSpan(n, p, k) <==> Under(q, p) && q[|p|] < k && At(n, q[|p|..]).Some?
    decreases n, 0, k
  {
    if k > 0 {
      var i := k - 1;
      var p' := p + [i];
      RecycledSpanExactly(n, p, i);
      match n.children[i]
      case None =>
        forall q | Under(q, p) && q[|p|] == i
          ensures At(n, q[|p|..]).None?
        {
          AtStep(n, q, p);
        }
      case Some(c) =>
        RecycledExactly(c, p');
        assert Under(p', p) && p'[|p|] == i && p'[..|p|] == p;
        forall q
          ensures q in RecycledSpan(n, p, k) <==> Under(q, p) && q[|p|] < k && At(n, q[|p|..]).Some?
        {
          if q in Recycled(c, p') {
            UnderChild(q, p, i);
          }
          if Under(q, p) && q[|p|] == i {
            AtStep(n, q, p);
            if |q| == |p| + 1 {
              assert q == q[..|p|] + [q[|p|]];
              assert q == p';
              assert q[|p| + 1..] == [];
            } else {
              assert q[..|p| + 1] == q[..|p|] + [q[|p|]];
              assert Under(q, p');
              assert q[|p'|..] == q[|p| + 1..];
            }
          }
        }
    }
  }

  lemma NoDuplicatesConcat(a: seq<Handle>, b: seq<Handle>)
    requires NoDuplicates(a) && NoDuplicates(b)
    requires forall x :: x in a ==> x !in b
    ensures NoDuplicates(a + b)
  {
    forall i, j | 0 <= i < j < |a + b|
      ensures (a + b)[i] != (a + b)[j]
    {
      if i < |a| && j >= |a| {
        assert (a + b)[i] in a && (a + b)[j] in b;
      }
    }
  }

  lemma DescendantsFirstConcat(a: seq<Handle>, b: seq<Handle>)
    requires DescendantsFirst(a) && DescendantsFirst(b)
    requires forall x, y :: x in a && y in b ==> !Under(y, x)
    ensures DescendantsFirst(a + b)
  {
    forall i, j | 0 <= i < j < |a + b|
      ensures !Under((a + b)[j], (a + b)[i])
    {
      if i < |a| && j >= |a| {
        assert (a + b)[i] in a && (a + b)[j] in b;
      }
    }
  }

  /**
   * Every non-null handle below `n` is released exactly once, and only after
   * every handle below it has been released.
   */
  lemma {:induction false} RecycledOnceAfterSubtree(n: Node, p: Handle)
    ensures NoDuplicates(Recycled(n, p)) && DescendantsFirst(Recycled(n, p))
    decreases n, 1
  {
    RecycledSpanOnce(n, p, |n.children|);
  }

  lemma {:induction false} RecycledSpanOnce(n: Node, p: Handle, k: nat)
    requires k <= |n.children|
    ensures NoDuplicates(RecycledSpan(n, p, k)) && DescendantsFirst(RecycledSpan(n, p, k))
    decreases n, 0, k
  {
    if k > 0 {
      var i := k - 1;
      var p' := p + [i];
      RecycledSpanOnce(n, p, i);
      match n.children[i]
      case None =>
        assert RecycledSpan(n, p, k) == RecycledSpan(n, p, i) + [];
      case Some(c) =>
        var before, below := RecycledSpan(n, p, i), Recycled(c, p');
        RecycledOnceAfterSubtree(c, p');
        RecycledSpanExactly(n, p, i);
        RecycledExactly(c, p');
        assert p'[..|p|] == p && Under(p', p) && p'[|p|] == i;
        // the walk of child i: its subtree, then the child itself
        forall x | x in below ensures x != p' && !Under(p', x) {
          UnderChild(x, p, i);
        }
        NoDuplicatesConcat(below, [p']);
        DescendantsFirstConcat(below, [p']);
        var walk := below + [p'];
        // everything released earlier hangs below an earlier slot
        forall x, y | x in before && y in walk
          ensures x != y && !Under(y, x)
        {
          if y in below {
            UnderChild(y, p, i);
          }
        }
        NoDuplicatesConcat(before, walk);
        DescendantsFirstConcat(before, walk);
        assert RecycledSpan(n, p, k) == before + walk;
    }
  }

  /**
   * One capture releases every non-null node of the window's tree exactly
   * once: the walk releases the descendants (each after its own subtree),
   * then the caller releases the root.
   */
  lemma CaptureReleasesEachHandleOnce(root: Node)
    ensures forall q :: q in Recycled(root, []) + [[]] <==> At(root, q).Some?
    ensures NoDuplicates(Recycled(root, []) + [[]]) && DescendantsFirst(Recycled(root, []) + [[]])
  {
    RecycledExactly(root, []);
    RecycledOnceAfterSubtree(root, []);
    forall q: Handle ensures Under(q, []) <==> q != [] {
      assert q[..0] == [];
    }
    forall q: Handle ensures q[0..] == q { }
    NoDuplicatesConcat(Recycled(root, []), [[]]);
    DescendantsFirstConcat(Recycled(root, []), [[]]);
  }
}
