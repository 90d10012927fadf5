/**
 * The .NET `SortedList<int, V>` that holds the selection: its entries are
 * kept in ascending key order, each key at most once.
 */
module SortedLists {

  predicate Sorted<V>(s: seq<(int, V)>) {
    forall i, j :: 0 <= i < j < |s| ==> s[i].0 < s[j].0
  }

  ghost function Keys<V>(s: seq<(int, V)>): set<int> {
    set i | 0 <= i < |s| :: s[i].0
  }

  ghost function Entries<V>(s: seq<(int, V)>): set<(int, V)> {
    set i | 0 <= i < |s| :: s[i]
  }

  ghost function Values<V>(s: seq<(int, V)>): set<V> {
    set i | 0 <= i < |s| :: s[i].1
  }

  /** `ContainsKey`. */
  function ContainsKey<V>(s: seq<(int, V)>, k: int): bool {
    if s == [] then false else s[0].0 == k || ContainsKey(s[1..], k)
  }

  /** `Add(k, v)`; the source only adds keys that are absent (the .NET call throws otherwise). */
  function Add<V>(s: seq<(int, V)>, k: int, v: V): seq<(int, V)>
    requires k !in Keys(s)
  {
    if s == [] || k < s[0].0 then [(k, v)] + s
    else
      KeysCons(s);
      [s[0]] + Add(s[1..], k, v)
  }

  /** `Remove(k)`. */
  function Remove<V>(s: seq<(int, V)>, k: int): seq<(int, V)> {
    if s == [] then []
    else if s[0].0 == k then s[1..]
    else [s[0]] + Remove(s[1..], k)
  }

  lemma KeysCons<V>(s: seq<(int, V)>)
    requires s != []
    ensures Keys(s) == {s[0].0} + Keys(s[1..])
    ensures Entries(s) == {s[0]} + Entries(s[1..])
  {
    forall k | k in Keys(s) ensures k in {s[0].0} + Keys(s[1..]) {
      var i :| 0 <= i < |s| && s[i].0 == k;
      if i > 0 { assert s[1..][i - 1].0 == k; }
    }
    forall e | e in Entries(s) ensures e in {s[0]} + Entries(s[1..]) {
      var i :| 0 <= i < |s| && s[i] == e;
      if i > 0 { assert s[1..][i - 1] == e; }
    }
    forall k | k in Keys(s[1..]) ensures k in Keys(s) {
      var i :| 0 <= i < |s[1..]| && s[1..][i].0 == k;
      assert s[i + 1].0 == k;
    }
    forall e | e in Entries(s[1..]) ensures e in Entries(s) {
      var i :| 0 <= i < |s[1..]| && s[1..][i] == e;
      assert s[i + 1] == e;
    }
  }

  lemma SortedTail<V>(s: seq<(int, V)>)
    requires Sorted(s) && s != []
    ensures Sorted(s[1..])
    ensures forall k :: k in Keys(s[1..]) ==> s[0].0 < k
  {
    KeysCons(s);
    forall k | k in Keys(s[1..]) ensures s[0].0 < k {
      var i :| 0 <= i < |s[1..]| && s[1..][i].0 == k;
      assert s[i + 1].0 == k;
    }
  }

  lemma SortedCons<V>(e: (int, V), t: seq<(int, V)>)
    requires Sorted(t) && forall k :: k in Keys(t) ==> e.0 < k
    ensures Sorted([e] + t)
  {
    forall i, j | 0 <= i < j < |[e] + t| ensures ([e] + t)[i].0 < ([e] + t)[j].0 {
      if i == 0 {
        assert ([e] + t)[j] == t[j - 1];
        assert t[j - 1].0 in Keys(t);
      } else {
        assert ([e] + t)[i] == t[i - 1] && ([e] + t)[j] == t[j - 1];
      }
    }
  }

  /** ContainsKey answers exactly whether the key is present. */
  lemma {:induction false} ContainsKeyCorrect<V>(s: seq<(int, V)>, k: int)
    ensures ContainsKey(s, k) <==> k in Keys(s)
  {
    if s != [] {
      KeysCons(s);
      ContainsKeyCorrect(s[1..], k);
    }
  }

  /** Adding an absent key keeps the list sorted and adds exactly that entry. */
  lemma {:induction false} AddCorrect<V>(s: seq<(int, V)>, k: int, v: V)
    requires Sorted(s) && k !in Keys(s)
    ensures Sorted(Add(s, k, v))
    ensures Keys(Add(s, k, v)) == Keys(s) + {k}
    ensures Entries(Add(s, k, v)) == Entries(s) + {(k, v)}
  {
    if s == [] || k < s[0].0 {
      AddInFront(s, k, v);
    } else {
      KeysCons(s);
      SortedTail(s);
      var t := Add(s[1..], k, v);
      AddCorrect(s[1..], k, v);
      var r := [s[0]] + t;
      assert Add(s, k, v) == r;
      assert r[1..] == t;
      KeysCons(r);
      assert Keys(r) == Keys(s) + {k};
      assert Entries(r) == Entries(s) + {(k, v)};
      assert s[0].0 < k;
      SortedCons(s[0], t);
    }
  }

  lemma AddInFront<V>(s: seq<(int, V)>, k: int, v: V)
    requires Sorted(s) && k !in Keys(s) && (s == [] || k < s[0].0)
    ensures Add(s, k, v) == [(k, v)] + s
    ensures Sorted(Add(s, k, v))
    ensures Keys(Add(s, k, v)) == Keys(s) + {k}
    ensures Entries(Add(s, k, v)) == Entries(s) + {(k, v)}
  {
    var r := [(k, v)] + s;
    assert r[1..] == s;
    KeysCons(r);
    if s != [] {
      SortedTail(s);
      KeysCons(s);
      FirstIsMinimum(s);
    }
    SortedCons((k, v), s);
  }

  /** Removing a key keeps the list sorted and takes out exactly the entries with that key. */
  lemma {:induction false} RemoveCorrect<V>(s: seq<(int, V)>, k: int)
    requires Sorted(s)
    ensures Sorted(Remove(s, k))
    ensures Keys(Remove(s, k)) == Keys(s) - {k}
    ensures Entries(Remove(s, k)) == set e | e in Entries(s) && e.0 != k
  {
    if s != [] {
      KeysCons(s);
      SortedTail(s);
      if s[0].0 != k {
        var t := Remove(s[1..], k);
        RemoveCorrect(s[1..], k);
        var r := [s[0]] + t;
        assert r[1..] == t;
        KeysCons(r);
        SortedCons(s[0], t);
      } else {
        forall e | e in Entries(s[1..]) ensures e.0 != k {
          var i :| 0 <= i < |s[1..]| && s[1..][i] == e;
          assert e.0 in Keys(s[1..]);
        }
      }
    }
  }

  /** Keys of a sorted list are unique: an entry is determined by its key. */
  lemma SortedEntriesByKey<V>(s: seq<(int, V)>, e: (int, V), f: (int, V))
    requires Sorted(s) && e in Entries(s) && f in Entries(s) && e.0 == f.0
    ensures e == f
  {
  }

  /** The first entry of a non-empty sorted list has the smallest key (`First()`). */
  lemma FirstIsMinimum<V>(s: seq<(int, V)>)
    requires Sorted(s) && s != []
    ensures forall k :: k in Keys(s) ==> s[0].0 <= k
  {
  }
}
