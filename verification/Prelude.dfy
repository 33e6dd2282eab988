/** The two result shapes the modelled code returns, and enumerations of a finite key set. */
module Prelude {

  datatype Option<+T> = None | Some(value: T)

  datatype Result<+T, +E> = Ok(value: T) | Err(error: E)

  /** `keys` lists every element of `s` exactly once: one possible iteration order of a hash map. */
  ghost predicate Enumerates<K(!new)>(keys: seq<K>, s: set<K>) {
    && (forall k :: k in keys <==> k in s)
    && (forall i, j :: 0 <= i < j < |keys| ==> keys[i] != keys[j])
  }

  lemma {:induction false} ExtendEnumeration<K(!new)>(keys: seq<K>, s: set<K>, k: K)
    requires Enumerates(keys, s) && k !in s
    ensures Enumerates(keys + [k], s + {k})
  {
    forall i, j | 0 <= i < j < |keys + [k]|
      ensures (keys + [k])[i] != (keys + [k])[j]
    {
      if j == |keys| {
        assert keys[i] in keys;
      }
    }
  }

  lemma {:induction false} HeadIsMember<K>(keys: seq<K>)
    ensures keys == [] || keys[0] in keys
  {
  }

  lemma {:induction false} EmptyEnumeration<K(!new)>(keys: seq<K>)
    requires Enumerates(keys, {})
    ensures keys == []
  {
    HeadIsMember(keys);
  }

  lemma {:induction false} SingletonEnumeration<K(!new)>(keys: seq<K>, k: K)
    requires Enumerates(keys, {k})
    ensures keys == [k]
  {
    assert k in keys;
    forall j | 0 <= j < |keys|
      ensures keys[j] == k
    {
      assert keys[j] in keys;
    }
    assert keys[0] == keys[|keys| - 1] == k;
  }

  lemma {:induction false} EnumerationExists<K(!new)>(s: set<K>) returns (keys: seq<K>)
    ensures Enumerates(keys, s)
  {
    if s == {} {
      keys := [];
    } else {
      var k :| k in s;
      var rest := EnumerationExists(s - {k});
      ExtendEnumeration(rest, s - {k}, k);
      keys := rest + [k];
      assert s - {k} + {k} == s;
    }
  }

  lemma {:induction false} Regroup<T>(a: seq<T>, b: seq<T>, c: seq<T>)
    ensures (a + b) + c == a + (b + c)
  {
  }

  lemma {:induction false} Prepended<T>(a: seq<T>, b: seq<T>)
    ensures a == [] ==> a + b == b
  {
  }

  /** Two sequences that share a prefix and the element after it share a longer prefix. */
  lemma {:induction false} LongerPrefix<T>(a: seq<T>, b: seq<T>, i: nat)
    requires i < |a| && i < |b| && a[..i] == b[..i] && a[i] == b[i]
    ensures a[..i + 1] == b[..i + 1]
  {
    assert a[..i + 1] == a[..i] + [a[i]] && b[..i + 1] == b[..i] + [b[i]];
  }
}
