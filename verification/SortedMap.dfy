/** The standard library's `BTreeMap` with string keys: entries in ascending order of key, iterated in that order. */
module SortedMap {
  import opened Wrappers

  datatype Entry<+V> = Entry(key: string, value: V)

  /** Strings in order, by their characters (the order of their UTF-8 bytes is the same). */
  predicate Before(a: string, b: string) {
    if b == "" then false
    else if a == "" then true
    else a[0] < b[0] || (a[0] == b[0] && Before(a[1..], b[1..]))
  }

  lemma {:induction false} BeforeIrreflexive(a: string)
    ensures !Before(a, a)
  {
    if a != "" {
      BeforeIrreflexive(a[1..]);
    }
  }

  lemma {:induction false} BeforeTransitive(a: string, b: string, c: string)
    requires Before(a, b) && Before(b, c)
    ensures Before(a, c)
  {
    if a != "" && a[0] == b[0] && b[0] == c[0] {
      BeforeTransitive(a[1..], b[1..], c[1..]);
    }
  }

  lemma {:induction false} BeforeTotal(a: string, b: string)
    ensures a == b || Before(a, b) || Before(b, a)
  {
    if a != "" && b != "" && a[0] == b[0] {
      BeforeTotal(a[1..], b[1..]);
      assert a == [a[0]] + a[1..] && b == [b[0]] + b[1..];
    }
  }

  predicate Sorted<V>(m: seq<Entry<V>>) {
    forall i, j :: 0 <= i < j < |m| ==> Before(m[i].key, m[j].key)
  }

  function Lookup<V>(m: seq<Entry<V>>, key: string): Option<V> {
    if m == [] then None
    else if m[0].key == key then Some(m[0].value)
    else Lookup(m[1..], key)
  }

  /** `m.insert(key, value)` */
  function Put<V>(m: seq<Entry<V>>, key: string, value: V): seq<Entry<V>> {
    if m == [] then [Entry(key, value)]
    else if m[0].key == key then [Entry(key, value)] + m[1..]
    else if Before(key, m[0].key) then [Entry(key, value)] + m
    else [m[0]] + Put(m[1..], key, value)
  }

  /** A key is in the map exactly if one of the entries has it. */
  lemma {:induction false} LookupFinds<V>(m: seq<Entry<V>>, key: string)
    ensures Lookup(m, key).Some? <==> exists i :: 0 <= i < |m| && m[i].key == key
    ensures Lookup(m, key).Some? ==> exists i :: 0 <= i < |m| && m[i] == Entry(key, Lookup(m, key).value)
  {
    if m != [] {
      LookupFinds(m[1..], key);
      if m[0].key != key {
        if Lookup(m[1..], key).Some? {
          var i :| 0 <= i < |m[1..]| && m[1..][i] == Entry(key, Lookup(m[1..], key).value);
          assert m[i + 1] == m[1..][i];
        } else {
          assert forall i :: 0 < i < |m| ==> m[i] == m[1..][i - 1];
        }
      } else {
        assert m[0] == Entry(key, m[0].value);
      }
    }
  }

  /** Every entry of a sorted map is found under its key. */
  lemma {:induction false} LookupAt<V>(m: seq<Entry<V>>, i: nat)
    requires Sorted(m) && i < |m|
    ensures Lookup(m, m[i].key) == Some(m[i].value)
  {
    if i > 0 {
      BeforeIrreflexive(m[i].key);
      assert Before(m[0].key, m[i].key);
      LookupAt(m[1..], i - 1);
    }
  }

  lemma {:induction false} LookupPut<V>(m: seq<Entry<V>>, key: string, value: V, other: string)
    ensures Lookup(Put(m, key, value), other) == if other == key then Some(value) else Lookup(m, other)
  {
    if m != [] && m[0].key != key && !Before(key, m[0].key) {
      LookupPut(m[1..], key, value, other);
    }
  }

  /** Of two insertions under one key the second stays. */
  lemma {:induction false} PutPut<V>(m: seq<Entry<V>>, key: string, value: V, value': V)
    ensures Put(Put(m, key, value), key, value') == Put(m, key, value')
  {
    hide Before;
    if m != [] && m[0].key != key && !Before(key, m[0].key) {
      PutPut(m[1..], key, value, value');
    }
  }

  /** Inserting keeps the order. */
  lemma {:induction false} PutSorted<V>(m: seq<Entry<V>>, key: string, value: V)
    requires Sorted(m)
    ensures Sorted(Put(m, key, value))
    ensures forall i :: 0 <= i < |Put(m, key, value)| ==>
              Put(m, key, value)[i].key == key || exists j :: 0 <= j < |m| && m[j].key == Put(m, key, value)[i].key
  {
    hide Before;
    if m != [] {
      if m[0].key == key {
      } else if Before(key, m[0].key) {
        forall j | 0 <= j < |m| ensures Before(key, m[j].key) {
          if j > 0 {
            BeforeTransitive(key, m[0].key, m[j].key);
          }
        }
      } else {
        BeforeTotal(key, m[0].key);
        PutSorted(m[1..], key, value);
        var rest := Put(m[1..], key, value);
        forall i | 0 <= i < |rest|
          ensures Before(m[0].key, rest[i].key)
          ensures rest[i].key == key || exists j :: 0 <= j < |m| && m[j].key == rest[i].key
        {
          if rest[i].key != key {
            var j :| 0 <= j < |m[1..]| && m[1..][j].key == rest[i].key;
            assert m[j + 1].key == rest[i].key;
          }
        }
      }
    }
  }

  /** The entries after an insertion: the new one, and old ones. */
  lemma {:induction false} PutEntries<V>(m: seq<Entry<V>>, key: string, value: V)
    ensures forall i :: 0 <= i < |Put(m, key, value)| ==>
              Put(m, key, value)[i] == Entry(key, value) || Put(m, key, value)[i] in m
  {
    hide Before;
    if m != [] {
      PutEntries(m[1..], key, value);
      assert m == [m[0]] + m[1..];
    }
  }

  /** A key after all others goes to the end. */
  lemma {:induction false} PutLast<V>(m: seq<Entry<V>>, key: string, value: V)
    requires forall i :: 0 <= i < |m| ==> Before(m[i].key, key)
    ensures Put(m, key, value) == m + [Entry(key, value)]
    ensures Lookup(m, key) == None
  {
    hide Before;
    if m != [] {
      BeforeNotAfter(m[0].key, key);
      PutLast(m[1..], key, value);
    }
  }

  lemma BeforeNotAfter(a: string, b: string)
    requires Before(a, b)
    ensures a != b && !Before(b, a)
  {
    BeforeIrreflexive(a);
    if Before(b, a) {
      BeforeTransitive(a, b, a);
    }
  }

  lemma TailLookup<V>(m: seq<Entry<V>>, key: string)
    requires Sorted(m) && m != []
    ensures Lookup(m[1..], key) == if key == m[0].key then None else Lookup(m, key)
  {
    LookupFinds(m[1..], key);
    if key == m[0].key && Lookup(m[1..], key).Some? {
      var i :| 0 <= i < |m[1..]| && m[1..][i].key == key;
      BeforeNotAfter(m[0].key, m[i + 1].key);
    }
  }
}
