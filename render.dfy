/**
 * The textual rendering of a node's keys: each key's own string form, in
 * list order, with ", " between neighbouring keys.
 *
 * A key's `toString()` is not visible, so it is a parameter `toStr` of every
 * member here. Nothing is claimed about parsing the text back: a key's text
 * may itself contain ", ".
 */
module Render {

  /** The text written between two neighbouring keys. */
  const Separator: string := ", "

  /** Keys joined by `Separator`, defined from the front of the list. */
  function Join<K>(keys: seq<K>, toStr: K -> string): (text: string)
    decreases |keys|
  {
    if |keys| == 0 then ""
    else if |keys| == 1 then toStr(keys[0])
    else toStr(keys[0]) + Separator + Join(keys[1..], toStr)
  }

  /** One call that appends to the output buffer: the text of the key at
      `index`, or one separator. */
  datatype Append = KeyText(index: nat) | SeparatorText

  /** The appends a rendering of `n` keys makes, in order: key 0, then a
      separator and key i for every later key i. */
  function Emissions(n: nat): (es: seq<Append>)
  {
    if n == 0 then []
    else if n == 1 then [KeyText(0)]
    else Emissions(n - 1) + [SeparatorText, KeyText(n - 1)]
  }

  /** Number of separator appends in `es`. */
  function SeparatorCount(es: seq<Append>): (count: nat)
  {
    if es == [] then 0
    else SeparatorCount(es[..|es| - 1]) + (if es[|es| - 1] == SeparatorText then 1 else 0)
  }

  /** Every key append in `es` names a key of `keys`. */
  predicate InRange<K>(es: seq<Append>, keys: seq<K>)
  {
    forall j :: 0 <= j < |es| && es[j].KeyText? ==> es[j].index < |keys|
  }

  /** The text one append writes. */
  function AppendText<K>(a: Append, keys: seq<K>, toStr: K -> string): (text: string)
    requires a.KeyText? ==> a.index < |keys|
  {
    match a
    case KeyText(i) => toStr(keys[i])
    case SeparatorText => Separator
  }

  /** The buffer's contents after performing the appends `es` in order on an
      empty buffer. */
  function Perform<K>(es: seq<Append>, keys: seq<K>, toStr: K -> string): (text: string)
    requires InRange(es, keys)
  {
    if es == [] then ""
    else Perform(es[..|es| - 1], keys, toStr) + AppendText(es[|es| - 1], keys, toStr)
  }

  /** The appends alternate: key i sits at position 2i and every odd
      position is a separator; `n` keys take 2n - 1 appends. */
  lemma {:induction false} EmissionsShape(n: nat)
    ensures |Emissions(n)| == if n == 0 then 0 else 2 * n - 1
    ensures forall j :: 0 <= j < |Emissions(n)| ==>
      Emissions(n)[j] == if j % 2 == 0 then KeyText(j / 2) else SeparatorText
  {
    if n > 1 {
      EmissionsShape(n - 1);
    }
  }

  /** With at least one key, exactly n - 1 separators are appended and the
      last append is the last key, never a separator. */
  lemma {:induction false} EmissionsSeparators(n: nat)
    requires n > 0
    ensures SeparatorCount(Emissions(n)) == n - 1
    ensures Emissions(n)[|Emissions(n)| - 1] == KeyText(n - 1)
  {
    if n > 1 {
      EmissionsSeparators(n - 1);
      var es := Emissions(n);
      assert es[..|es| - 1] == Emissions(n - 1) + [SeparatorText];
      assert (Emissions(n - 1) + [SeparatorText])[..|Emissions(n - 1)|] == Emissions(n - 1);
    }
  }

  /** Only keys below `n` are named by the appends for `n` keys. */
  lemma EmissionsInRange<K>(n: nat, keys: seq<K>)
    requires n <= |keys|
    ensures InRange(Emissions(n), keys)
  {
  }

  /** Joining two non-empty lists puts one separator between their joins. */
  lemma {:induction false} JoinConcat<K>(a: seq<K>, b: seq<K>, toStr: K -> string)
    requires |a| > 0 && |b| > 0
    ensures Join(a + b, toStr) == Join(a, toStr) + Separator + Join(b, toStr)
    decreases |a|
  {
    if |a| > 1 {
      assert (a + b)[1..] == a[1..] + b;
      JoinConcat(a[1..], b, toStr);
    }
  }

  /** Joining grows at the back one key and one separator at a time, which is
      how the buffer is filled. */
  lemma JoinSnoc<K>(keys: seq<K>, k: K, toStr: K -> string)
    requires |keys| > 0
    ensures Join(keys + [k], toStr) == Join(keys, toStr) + Separator + toStr(k)
  {
    JoinConcat(keys, [k], toStr);
  }

  /** The join of the first m keys is exactly what the appends for m keys
      write: `Join` and the append sequence describe the same text. */
  lemma {:induction false} JoinIsPerformed<K>(keys: seq<K>, m: nat, toStr: K -> string)
    requires m <= |keys|
    ensures InRange(Emissions(m), keys)
    ensures Join(keys[..m], toStr) == Perform(Emissions(m), keys, toStr)
  {
    EmissionsInRange(m, keys);
    if m > 1 {
      JoinIsPerformed(keys, m - 1, toStr);
      var es := Emissions(m);
      var front := Emissions(m - 1) + [SeparatorText];
      assert es[..|es| - 1] == front;
      assert front[..|front| - 1] == Emissions(m - 1);
      EmissionsInRange(m - 1, keys);
      assert Perform(es, keys, toStr) == Perform(Emissions(m - 1), keys, toStr) + Separator + toStr(keys[m - 1]);
      assert keys[..m] == keys[..m - 1] + [keys[m - 1]];
      JoinSnoc(keys[..m - 1], keys[m - 1], toStr);
    } else if m == 1 {
      assert Emissions(1)[..0] == [];
    }
  }
}
