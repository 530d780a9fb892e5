# BTree: tree object, node type and node traversal

A Dafny model of the Java class `BTree<T>` and its inner class `Node`.
The Java source holds only the following:

- the tree constructor. It stores `fanout`, derives the per-node key bound `numKeys = fanout - 1`, and creates an empty root node;
- the node type, with an ordered key list and an ordered child list, both empty on creation;
- two read-only traversal operations that a diagram exporter calls. `getDataString` renders the keys, and `getChildren` copies the child list.

There is no insertion, search, rotation or split code in the source, so
none is modelled. No B-tree ordering or balance invariant is modelled
either, because nothing establishes or maintains one.

Files:

- `java_int.dfy` (module `JavaInt`): Java's 32-bit `int` as the newtype `I32`, with wrapping subtraction. `fanout - 1` wraps at `Integer.MIN_VALUE`.
- `render.dfy` (module `Render`): the join of key texts with `", "`. `Join` is a recursive definition. `Emissions` is an independent description of the same text: the exact sequence of buffer appends (key text or separator). The lemmas connect the two and describe the appends' shape.
- `btree.dfy` (module `BTree`): the classes `Node<K>` and `BTree<K>`, with fields the source assigns. `GetDataString` is a `while` loop over a string buffer, proved against `Join` and `Emissions`. `GetChildren` returns a freshly allocated array holding the children. Two client methods state that traversal is repeatable and that the returned copy can be written without any right to modify the node. The copy is independent of the node because the node's child list is a value (`seq`), which no array can alias; what the model adds is that the copy is a fresh array.

A key's `toString()` is not visible. Every rendering member takes it as a
parameter `toStr: K -> string`.

## Model

| member | source | states |
|---|---|---|
| `BTree.BTree.constructor` | BTree.java:20-24 | `fanout` is stored unchanged and `numKeys` is the Java `int` value of `fanout - 1`: exactly `fanout - 1` above `Integer.MIN_VALUE`, `Integer.MAX_VALUE` at it. The root is a new node with no keys and no children. |
| `BTree.Node.constructor` | BTree.java:37-40 | A new node has an empty key list and an empty child list, so it is a leaf. |
| `BTree.Node.GetDataString` | BTree.java:43-55 | The result is the keys' texts in list order joined by `", "`. It is `""` with no keys and the sole key's text with one key. The recorded appends are key 0, then a separator and key i for each later key; with n > 0 keys that is exactly n - 1 separators, and the last append is the last key. The loop invariant: after i keys the buffer holds the join of the first i keys, plus a trailing `", "` exactly when 0 < i < n. |
| `BTree.Node.GetChildren` | BTree.java:58-60 | Returns a freshly allocated list with the same child nodes in the same order as the node's child list. |
| `BTree.TraverseTwice` | BTree.java:43-60 | Two calls of each traversal with no change in between give equal text, and equal child lists that are two distinct objects. |
| `BTree.OverwriteChildrenCopy` | BTree.java:58-60 | The returned child list is a fresh array, so writing into it needs no right to modify the node. After overwriting its first slot, it still holds the node's other children in order, and the node's keys and children are unchanged. |
| `JavaInt.Wrap` | BTree.java:22 | The result is the 32-bit value congruent to its argument modulo 2^32, and equals the argument when the argument is in range. |
| `JavaInt.Sub` | BTree.java:22 | Java `int` subtraction: the result is congruent to the mathematical difference modulo 2^32, and equals it when it fits in 32 bits. |
| `Render.EmissionsShape` | BTree.java:47-52 | The loop makes 2n - 1 appends for n > 0 keys and none for no keys. Key i's text is at position 2i and every odd position is a separator. |
| `Render.EmissionsSeparators` | BTree.java:50-51 | With n > 0 keys, exactly n - 1 separators are appended, and the last append is the last key's text. |
| `Render.JoinConcat` | BTree.java:47-52 | Joining the concatenation of two non-empty key lists gives the two joins with one separator between them. |
| `Render.JoinSnoc` | BTree.java:48-51 | Adding one key to a non-empty list extends its join by a separator and that key's text, matching one loop step. |
| `Render.JoinIsPerformed` | BTree.java:47-54 | For every prefix of the keys, performing the prefix's appends on an empty buffer yields exactly `Join` of that prefix. |

## Left out

- `generateLatexFile` (BTree.java:26-28): it is file I/O through `latex_tree.LatexTree.makeFile`, which is not part of this model.
- The `LatexTreeNode` interface and the `latex_tree` package are not part of this model. `getChildren`'s result type `List<LatexTreeNode>` is modelled as an array of `Node<K>`.
- BTree.Node.GetChildren: Java's copy is a `LinkedList`. The model returns a fresh array of the same length and contents. It does not model the copy being grown or shrunk, only that its elements can be written without touching the node.
- `Comparable<T>` (BTree.java:12) is declared but never used, so the model places no ordering on keys.
- `null` keys: `keys.get(i).toString()` would throw a `NullPointerException`. Keys in the model are never null.
- The concrete text of a key's `toString()` is left open: `toStr` may map a key to any text. No parsing of the joined text back into keys is claimed, since a key's text may itself contain `", "`.
- What a Dafny `K -> string` assumes of a key's `toString()` (BTree.java:48): it never throws, it never returns `null` (Java would then append the text `"null"`), it gives the same text on every call, and its text does not depend on the key's mutable state. `BTree.TraverseTwice`'s equal texts rest on these assumptions, which Java does not guarantee for an arbitrary key type.
- Insertion, key-index search, sibling rotation, hop radius, split and promotion, a `size` counter and a `hops` field do not exist in BTree.java, so none is modelled.
- Rejecting `fanout < 2`: the constructor (BTree.java:20-24) checks nothing, so any `int` fanout is accepted and `numKeys` may be 0 or negative.
- The loop counter `i` and `keys.size()` are Java `int`s. `i++` runs only while `i < keys.size()`, so `i` never exceeds `Integer.MAX_VALUE` and cannot overflow. A key list of 2^31 or more elements is not modelled: Java caps or wraps its `size()`, and `LinkedList`'s count can go negative, which would end the loop at once. The model uses `nat`.
- `StringBuffer`'s synchronisation and Java's UTF-16 string encoding: a string is a `seq<char>`, and the buffer is a local string variable that is appended to.
