/** `src/helpers/trimCache.js`: cut a `Map` down to its newest entries. */
module Trim {
  import opened JsMaps

  /** The most entries a trimmed map keeps. */
  const MAX_KEYS: nat := 512

  /** The newest `n` keys of an insertion order, or all of them when there
      are no more than `n`. */
  function Newest<K>(s: seq<K>, n: nat): (r: seq<K>)
    ensures |r| == if |s| <= n then |s| else n
    ensures r == s[|s| - |r|..]
  {
    if |s| <= n then s else s[|s| - n..]
  }

  /** The newest key always survives a trim. */
  lemma NewestKeepsLast<K>(s: seq<K>, n: nat)
    requires |s| > 0 && n > 0
    ensures s[|s| - 1] in Newest(s, n)
  {
    var r := Newest(s, n);
    assert r[|r| - 1] == s[|s| - 1];
  }

  /** Delete entries, oldest-inserted first, while the map holds more than
      MAX_KEYS of them. The key iterator is live, and each key it yields is
      deleted at once, so the next key it yields is always the oldest key
      still present. */
  method TrimCache<K, V>(m: JsMap<K, V>)
    requires m.Valid()
    modifies m
    ensures m.Valid()
    ensures m.order == Newest(old(m.order), MAX_KEYS)
    ensures forall k | k in m.entries :: k in old(m.entries) && m.entries[k] == old(m.entries)[k]
  {
    ghost var start := m.order;
    while m.Size() > MAX_KEYS
      invariant m.Valid()
      invariant |m.order| <= |start|
      invariant m.order == start[|start| - |m.order|..]
      invariant |m.order| < |start| ==> |m.order| >= MAX_KEYS
      invariant forall k | k in m.entries :: k in old(m.entries) && m.entries[k] == old(m.entries)[k]
      decreases |m.order|
    {
      var oldest := m.order[0];
      WithoutFirst(m.order);
      m.Delete(oldest);
    }
  }
}
