/**
 * The tree object and its node type, with the node's two read-only
 * traversal operations that a diagram exporter uses.
 *
 * The key type is generic. The source bounds it by `Comparable`, but no
 * comparison is ever made, so no ordering is modelled. Its `toString()` is
 * the parameter `toStr`.
 */
module BTree {
  import opened JavaInt
  import opened Render

  /** A tree node: an ordered list of keys and an ordered list of children,
      both mutable fields. */
  class Node<K> {
    var keys: seq<K>
    var children: seq<Node<K>>

    /** A new node has no keys and no children, so it is a leaf. */
    constructor ()
      ensures keys == [] && children == []
    {
      keys := [];
      children := [];
    }

    /** The keys' texts in list order with ", " between neighbours, built by
        appending to a buffer. `emitted` records each append the loop makes. */
    method GetDataString(toStr: K -> string) returns (s: string, ghost emitted: seq<Append>)
      ensures s == Join(keys, toStr)
      ensures |keys| == 0 ==> s == ""
      ensures |keys| == 1 ==> s == toStr(keys[0])
      ensures emitted == Emissions(|keys|)
      ensures InRange(emitted, keys) && s == Perform(emitted, keys, toStr)
      ensures |keys| > 0 ==> SeparatorCount(emitted) == |keys| - 1
      ensures |keys| > 0 ==> emitted[|emitted| - 1] == KeyText(|keys| - 1)
    {
      var output := "";
      emitted := [];
      var i := 0;
      while i < |keys|
        invariant 0 <= i <= |keys|
        invariant output == Join(keys[..i], toStr) + (if 0 < i < |keys| then Separator else "")
        invariant emitted == Emissions(i) + (if 0 < i < |keys| then [SeparatorText] else [])
      {
        if i > 0 {
          assert keys[..i + 1] == keys[..i] + [keys[i]];
          JoinSnoc(keys[..i], keys[i], toStr);
        }
        output := output + toStr(keys[i]);
        emitted := emitted + [KeyText(i)];
        i := i + 1;
        if i < |keys| {
          output := output + Separator;
          emitted := emitted + [SeparatorText];
        }
      }
      assert keys[..i] == keys;
      s := output;
      JoinIsPerformed(keys, |keys|, toStr);
      if |keys| > 0 {
        EmissionsSeparators(|keys|);
      }
    }

    /** A new list holding the same children in the same order. The result
        is freshly allocated, so it never aliases the node's own list. */
    method GetChildren() returns (r: array<Node<K>>)
      ensures fresh(r)
      ensures r[..] == children
    {
      var cs := children;
      r := new Node<K>[|cs|](i requires 0 <= i < |cs| => cs[i]);
    }
  }

  /** The tree: its fanout, the per-node key bound derived from it, and the
      root node. */
  class BTree<K> {
    var fanout: I32
    var numKeys: I32
    var root: Node<K>

    /** Stores `fanout` as given, with no check of its value, derives
        `numKeys` as the Java `int` expression `fanout - 1`, and starts with
        an empty leaf as root. */
    constructor (fanout: I32)
      ensures this.fanout == fanout
      ensures numKeys == Sub(fanout, 1)
      ensures fanout as int > Min ==> numKeys as int == fanout as int - 1
      ensures fanout as int == Min ==> numKeys as int == Max
      ensures fresh(root) && root.keys == [] && root.children == []
    {
      this.fanout := fanout;
      numKeys := Sub(fanout, 1);
      root := new Node<K>();
    }
  }

  /** Two traversals with no change in between agree, and each call to
      `GetChildren` hands out a list of its own. */
  method TraverseTwice<K>(n: Node<K>, toStr: K -> string)
    returns (s1: string, s2: string, c1: array<Node<K>>, c2: array<Node<K>>)
    ensures s1 == s2 && s1 == Join(n.keys, toStr)
    ensures c1[..] == c2[..] == n.children
    ensures c1 != c2
  {
    ghost var e1, e2;
    s1, e1 := n.GetDataString(toStr);
    s2, e2 := n.GetDataString(toStr);
    c1 := n.GetChildren();
    c2 := n.GetChildren();
  }

  /** The list `GetChildren` returns is fresh, so writing into it needs no
      right to modify the node; the node's keys and children stay as they
      were, and the copy's other slots still hold the node's children. */
  method OverwriteChildrenCopy<K>(n: Node<K>, other: Node<K>) returns (c: array<Node<K>>)
    ensures fresh(c)
    ensures unchanged(n)
    ensures c.Length == |n.children|
    ensures c.Length > 0 ==> c[0] == other && c[1..] == n.children[1..]
  {
    c := n.GetChildren();
    if c.Length > 0 {
      c[0] := other;
    }
  }
}
