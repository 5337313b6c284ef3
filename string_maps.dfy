/** `std::map` keyed by `std::string`: the key order `std::string`
    comparison gives (character by character, a proper prefix first), a
    lookup with a default, and how insertion and erasure change the size. */
module StringMaps {

  /** `a < b` as `std::string` compares them. */
  predicate LexLt(a: string, b: string)
    decreases |a|
  {
    if a == [] then b != []
    else if b == [] then false
    else if a[0] != b[0] then a[0] < b[0]
    else LexLt(a[1..], b[1..])
  }

  /** No string is below itself. */
  lemma {:induction false} LexIrreflexive(a: string)
    ensures !LexLt(a, a)
    decreases |a|
  {
    if a != [] {
      LexIrreflexive(a[1..]);
    }
  }

  /** Two different strings are ordered one way round, and never both. */
  lemma {:induction false} LexTotal(a: string, b: string)
    ensures a != b <==> LexLt(a, b) || LexLt(b, a)
    ensures !(LexLt(a, b) && LexLt(b, a))
    decreases |a|
  {
    if a == [] || b == [] {
    } else if a[0] != b[0] {
    } else {
      LexTotal(a[1..], b[1..]);
      assert a == [a[0]] + a[1..] && b == [b[0]] + b[1..];
    }
  }

  lemma {:induction false} LexTransitive(a: string, b: string, c: string)
    requires LexLt(a, b) && LexLt(b, c)
    ensures LexLt(a, c)
    decreases |a|
  {
    if a != [] && a[0] == b[0] && b[0] == c[0] {
      LexTransitive(a[1..], b[1..], c[1..]);
    }
  }

  /** Each key before the next, as a `std::map` is iterated. */
  predicate StrictlySorted(s: seq<string>)
  {
    forall i, j :: 0 <= i < j < |s| ==> LexLt(s[i], s[j])
  }

  /** Only one strictly sorted sequence holds a given set of strings, so the
      iteration order of a `std::map` is fixed by its keys. */
  lemma {:induction false} SortedUnique(s: seq<string>, t: seq<string>)
    requires StrictlySorted(s) && StrictlySorted(t)
    requires forall x :: x in s <==> x in t
    ensures s == t
    decreases |s|
  {
    assert s != [] ==> s[0] in t;
    assert t != [] ==> t[0] in s;
    if s != [] {
      // Both heads are the least element.
      var i :| 0 <= i < |s| && s[i] == t[0];
      var j :| 0 <= j < |t| && t[j] == s[0];
      assert i != 0 ==> LexLt(s[0], s[i]);
      assert j != 0 ==> LexLt(t[0], t[j]);
      LexTotal(s[0], t[0]);
      assert s[0] == t[0];
      forall x
        ensures x in s[1..] <==> x in t[1..]
      {
        if x in s[1..] {
          var i :| 0 <= i < |s[1..]| && s[1..][i] == x;
          assert LexLt(s[0], s[i + 1]);
          LexIrreflexive(x);
          assert x == s[i + 1] && x in t;
          var j :| 0 <= j < |t| && t[j] == x;
          assert j != 0 && t[1..][j - 1] == x;
        }
        if x in t[1..] {
          var j :| 0 <= j < |t[1..]| && t[1..][j] == x;
          assert LexLt(t[0], t[j + 1]);
          LexIrreflexive(x);
          assert x == t[j + 1] && x in s;
          var i :| 0 <= i < |s| && s[i] == x;
          assert i != 0 && s[1..][i - 1] == x;
        }
      }
      SortedUnique(s[1..], t[1..]);
      assert s == [s[0]] + s[1..] && t == [t[0]] + t[1..];
    }
  }

  /** `find` with a default: the value stored for `key`, or `default`. */
  function Lookup<V>(m: map<string, V>, key: string, default: V): (v: V)
    ensures key in m ==> v == m[key]
    ensures key !in m ==> v == default
  {
    if key in m then m[key] else default
  }

  /** `m[key] = v` adds one entry exactly when the key is new, and changes
      no other key's value. */
  lemma StoreSize<V>(m: map<string, V>, key: string, v: V, other: string, default: V)
    ensures |m[key := v]| == |m| + (if key in m then 0 else 1)
    ensures Lookup(m[key := v], key, default) == v
    ensures other != key ==> Lookup(m[key := v], other, default) == Lookup(m, other, default)
  {
    if key in m {
      assert m[key := v].Keys == m.Keys;
    } else {
      assert m[key := v].Keys == m.Keys + {key};
    }
  }

  /** Erasing a present key removes one entry; erasing an absent key
      changes nothing. */
  lemma EraseSize<V>(m: map<string, V>, key: string)
    ensures key in m ==> |m - {key}| == |m| - 1
    ensures key !in m ==> m - {key} == m
    ensures key !in m - {key}
  {
    if key in m {
      assert (m - {key}).Keys == m.Keys - {key};
    }
  }

  /** The least key of a non-empty key set. */
  method LeastKey(keys: set<string>) returns (k: string)
    requires keys != {}
    ensures k in keys && forall x :: x in keys && x != k ==> LexLt(k, x)
  {
    k :| k in keys;
    var rest := keys - {k};
    while rest != {}
      invariant k in keys && rest <= keys
      invariant forall x :: x in keys && x !in rest && x != k ==> LexLt(k, x)
      decreases |rest|
    {
      var y :| y in rest;
      if LexLt(y, k) {
        forall x | x in keys && x !in rest && x != y
          ensures LexLt(y, x)
        {
          if x != k {
            LexTransitive(y, k, x);
          }
        }
        k := y;
      } else {
        LexTotal(y, k);
      }
      rest := rest - {y};
    }
  }

  /** The keys in iteration order. */
  method SortedKeys<V>(m: map<string, V>) returns (names: seq<string>)
    ensures StrictlySorted(names)
    ensures forall x :: x in names <==> x in m
    ensures |names| == |m|
  {
    names := [];
    var rest := m.Keys;
    while rest != {}
      invariant rest <= m.Keys
      invariant StrictlySorted(names)
      invariant forall x :: x in names <==> x in m && x !in rest
      invariant forall i, x :: 0 <= i < |names| && x in rest ==> LexLt(names[i], x)
      invariant |names| + |rest| == |m|
      decreases |rest|
    {
      var k := LeastKey(rest);
      forall i, x | 0 <= i < |names| && x in rest - {k}
        ensures LexLt(names[i], x)
      {
      }
      names := names + [k];
      rest := rest - {k};
    }
  }
}
