/** PHP's ordered associative arrays with string keys, as used for HTML
    attribute sets: a sequence of (name, value) entries. Assigning to a key
    already present keeps its position, assigning to a new key appends it,
    and `unset` removes the key. */
module PhpArray {
  import opened PhpValues

  type Entry = (string, Val)
  type Attrs = seq<Entry>

  function Keys(a: Attrs): (ks: seq<string>)
    ensures |ks| == |a|
  {
    if a == [] then [] else [a[0].0] + Keys(a[1..])
  }

  /** The i-th key is the key of the i-th entry. */
  lemma {:induction false} KeysIndex(a: Attrs)
    ensures forall i :: 0 <= i < |a| ==> Keys(a)[i] == a[i].0
  {
    if a != [] {
      KeysIndex(a[1..]);
    }
  }

  lemma {:induction false} KeysAppend(a: Attrs, b: Attrs)
    ensures Keys(a + b) == Keys(a) + Keys(b)
  {
    if a == [] {
      assert a + b == b;
    } else {
      assert (a + b)[1..] == a[1..] + b;
      KeysAppend(a[1..], b);
    }
  }

  /** A PHP array never holds a key twice. */
  predicate UniqueKeys(a: Attrs)
  {
    forall i, j :: 0 <= i < j < |a| ==> a[i].0 != a[j].0
  }

  /** `$a[$k]`, or None when the key is absent. */
  function Lookup(a: Attrs, k: string): Option<Val>
  {
    if a == [] then None
    else if a[0].0 == k then Some(a[0].1)
    else Lookup(a[1..], k)
  }

  /** A key reads as absent exactly when it is not among the keys. */
  lemma {:induction false} LookupNone(a: Attrs, k: string)
    ensures Lookup(a, k).None? <==> k !in Keys(a)
  {
    if a != [] {
      LookupNone(a[1..], k);
      assert Keys(a) == [a[0].0] + Keys(a[1..]);
    }
  }

  /** `isset($a[$k])`: the key is present and its value is not null. */
  predicate Isset(a: Attrs, k: string)
  {
    Lookup(a, k).Some? && Lookup(a, k).value != Null
  }

  /** `$a[$k] = $v`. */
  function Set(a: Attrs, k: string, v: Val): (r: Attrs)
    ensures k in Keys(a) ==> Keys(r) == Keys(a)
    ensures k !in Keys(a) ==> r == a + [(k, v)]
  {
    if a == [] then [(k, v)]
    else if a[0].0 == k then [(k, v)] + a[1..]
    else
      var rest := Set(a[1..], k, v);
      assert Keys(a) == [a[0].0] + Keys(a[1..]);
      assert Keys([a[0]] + rest) == [a[0].0] + Keys(rest) by {
        assert ([a[0]] + rest)[1..] == rest;
      }
      [a[0]] + rest
  }

  /** After `$a[$k] = $v`, `$a[$k]` is `$v` and every other key reads as before. */
  lemma {:induction false} SetLookup(a: Attrs, k: string, v: Val, k': string)
    ensures Lookup(Set(a, k, v), k') == if k' == k then Some(v) else Lookup(a, k')
  {
    if a != [] && a[0].0 != k {
      SetLookup(a[1..], k, v, k');
      assert ([a[0]] + Set(a[1..], k, v))[1..] == Set(a[1..], k, v);
    } else if a != [] {
      assert ([(k, v)] + a[1..])[1..] == a[1..];
    }
  }

  lemma SetUnique(a: Attrs, k: string, v: Val)
    requires UniqueKeys(a)
    ensures UniqueKeys(Set(a, k, v))
  {
    var r := Set(a, k, v);
    KeysIndex(a);
    KeysIndex(r);
    if k in Keys(a) {
      assert Keys(r) == Keys(a);
      forall i, j | 0 <= i < j < |r| ensures r[i].0 != r[j].0 {
        assert Keys(r)[i] == Keys(a)[i] && Keys(r)[j] == Keys(a)[j];
      }
    } else {
      forall i | 0 <= i < |a| ensures a[i].0 != k {
        assert Keys(a)[i] == a[i].0;
      }
    }
  }

  /** The entries of `a` whose key is not in `ks`, in their original order. */
  function Without(a: Attrs, ks: set<string>): (r: Attrs)
  {
    if a == [] then [] else (if a[0].0 in ks then [] else [a[0]]) + Without(a[1..], ks)
  }

  /** `unset($a[$k])`. */
  function Unset(a: Attrs, k: string): Attrs
  {
    Without(a, {k})
  }

  lemma {:induction false} WithoutLookup(a: Attrs, ks: set<string>, k: string)
    ensures Lookup(Without(a, ks), k) == if k in ks then None else Lookup(a, k)
  {
    if a != [] {
      WithoutLookup(a[1..], ks, k);
      var rest := Without(a[1..], ks);
      if a[0].0 in ks {
        assert Without(a, ks) == [] + rest;
        assert [] + rest == rest;
      } else {
        var w := Without(a, ks);
        assert w == [a[0]] + rest;
        assert w[0] == a[0] && w[1..] == rest;
      }
    }
  }

  lemma {:induction false} WithoutKeys(a: Attrs, ks: set<string>)
    ensures forall k :: k in Keys(Without(a, ks)) <==> k in Keys(a) && k !in ks
  {
    forall k ensures k in Keys(Without(a, ks)) <==> k in Keys(a) && k !in ks {
      WithoutLookup(a, ks, k);
      LookupNone(a, k);
      LookupNone(Without(a, ks), k);
    }
  }

  /** Removing entries never reorders the ones that stay, so a set of
      unique keys stays unique. */
  lemma {:induction false} WithoutUnique(a: Attrs, ks: set<string>)
    requires UniqueKeys(a)
    ensures UniqueKeys(Without(a, ks))
  {
    if a != [] {
      WithoutUnique(a[1..], ks);
      if a[0].0 !in ks {
        WithoutKeys(a[1..], ks);
        assert a[0].0 !in Keys(a[1..]) by {
          KeysIndex(a[1..]);
        }
        var w := Without(a, ks);
        assert w == [a[0]] + Without(a[1..], ks);
        forall i, j | 0 <= i < j < |w| ensures w[i].0 != w[j].0 {
          if i == 0 {
            KeysIndex(Without(a[1..], ks));
            assert w[j] == Without(a[1..], ks)[j - 1];
            assert w[j].0 in Keys(Without(a[1..], ks));
          }
        }
      }
    }
  }

  /** Removing two key sets one after the other removes their union. */
  lemma {:induction false} WithoutWithout(a: Attrs, ks: set<string>, ls: set<string>)
    ensures Without(Without(a, ks), ls) == Without(a, ks + ls)
  {
    if a != [] {
      WithoutWithout(a[1..], ks, ls);
      var head: Attrs := if a[0].0 in ks then [] else [a[0]];
      WithoutAppend(head, Without(a[1..], ks), ls);
    }
  }

  lemma {:induction false} WithoutAppend(a: Attrs, b: Attrs, ks: set<string>)
    ensures Without(a + b, ks) == Without(a, ks) + Without(b, ks)
  {
    if a != [] {
      assert (a + b)[1..] == a[1..] + b;
      WithoutAppend(a[1..], b, ks);
    } else {
      assert a + b == b;
    }
  }

  lemma {:induction false} LookupAppend(a: Attrs, b: Attrs, k: string)
    ensures Lookup(a + b, k) == if k in Keys(a) then Lookup(a, k) else Lookup(b, k)
  {
    if a != [] {
      assert (a + b)[1..] == a[1..] + b;
      LookupAppend(a[1..], b, k);
    } else {
      assert a + b == b;
    }
  }
}
