/** Grouping keyed entries, as the merge of retrieved chunks does with a
    dictionary of lists. */
module Grouping {

  /** A chunk as the merge sees it: its key and its content. */
  datatype Entry<K, V> = Entry(key: K, content: V)

  /** The contribution of one entry to the group of `key`. */
  function Own<K(==), V>(e: Entry<K, V>, key: K): seq<V> {
    if e.key == key then [e.content] else []
  }

  /** `grouped[key]`: the contents of the entries with that key, in input order. */
  function Group<K(==), V>(es: seq<Entry<K, V>>, key: K): seq<V> {
    if |es| == 0 then [] else Own(es[0], key) + Group(es[1..], key)
  }

  /** Every entry with the key contributes its content to the group. */
  lemma {:induction false} GroupHas<K, V>(es: seq<Entry<K, V>>, key: K)
    ensures forall i :: 0 <= i < |es| && es[i].key == key ==> es[i].content in Group(es, key)
  {
    if |es| > 0 {
      GroupHas(es[1..], key);
      forall i | 0 < i < |es| && es[i].key == key
        ensures es[i].content in Group(es, key)
      {
        assert es[i] == es[1..][i - 1];
      }
    }
  }

  /** Every member of a group is the content of an entry with the key. */
  lemma {:induction false} GroupFrom<K, V>(es: seq<Entry<K, V>>, key: K, c: V)
    requires c in Group(es, key)
    ensures exists i :: 0 <= i < |es| && es[i] == Entry(key, c)
  {
    if c in Own(es[0], key) {
      assert es[0] == Entry(key, c);
    } else {
      GroupFrom(es[1..], key, c);
      var i :| 0 <= i < |es[1..]| && es[1..][i] == Entry(key, c);
      assert es[i + 1] == es[1..][i];
    }
  }

  /** The key of every entry, in order. */
  function EntryKeys<K, V>(es: seq<Entry<K, V>>): (r: seq<K>)
    ensures |r| == |es|
    ensures forall i :: 0 <= i < |es| ==> r[i] == es[i].key
  {
    seq(|es|, i requires 0 <= i < |es| => es[i].key)
  }
}
