/** Facts about sequences and maps of sequences that several components share. */
module Collections {

  datatype Option<+T> = None | Some(value: T)

  function Reverse<T>(s: seq<T>): (r: seq<T>)
    ensures |r| == |s|
  {
    if s == [] then [] else Reverse(s[1..]) + [s[0]]
  }

  lemma {:induction false} ReverseAppend<T>(a: seq<T>, b: seq<T>)
    ensures Reverse(a + b) == Reverse(b) + Reverse(a)
  {
    if a == [] {
      assert a + b == b;
    } else {
      assert (a + b)[1..] == a[1..] + b;
      ReverseAppend(a[1..], b);
    }
  }

  lemma {:induction false} ReverseInvolutive<T>(s: seq<T>)
    ensures Reverse(Reverse(s)) == s
  {
    if s != [] {
      ReverseAppend(Reverse(s[1..]), [s[0]]);
      ReverseInvolutive(s[1..]);
    }
  }

  lemma {:induction false} ReverseSameElements<T>(s: seq<T>)
    ensures multiset(Reverse(s)) == multiset(s)
  {
    if s != [] {
      ReverseSameElements(s[1..]);
      assert s == [s[0]] + s[1..];
    }
  }

  /** The elements of `s` that satisfy `keep`, in order. */
  function Filter<T>(s: seq<T>, keep: T -> bool): (r: seq<T>)
    ensures forall t :: t in r ==> t in s && keep(t)
  {
    if s == [] then [] else
    (if keep(s[0]) then [s[0]] else []) + Filter(s[1..], keep)
  }

  lemma {:induction false} FilterAppend<T>(a: seq<T>, b: seq<T>, keep: T -> bool)
    ensures Filter(a + b, keep) == Filter(a, keep) + Filter(b, keep)
  {
    if a == [] {
      assert a + b == b;
    } else {
      assert (a + b)[1..] == a[1..] + b;
      FilterAppend(a[1..], b, keep);
    }
  }

  lemma {:induction false} FilterNothing<T>(s: seq<T>, keep: T -> bool)
    requires forall t :: t in s ==> !keep(t)
    ensures Filter(s, keep) == []
  {
    if s != [] {
      FilterNothing(s[1..], keep);
    }
  }

  /** Only what `keep` says of the elements matters. */
  lemma {:induction false} FilterSame<T>(s: seq<T>, keep: T -> bool, other: T -> bool)
    requires forall t :: t in s ==> keep(t) == other(t)
    ensures Filter(s, keep) == Filter(s, other)
  {
    if s != [] {
      FilterSame(s[1..], keep, other);
    }
  }

  lemma FilterSnoc<T>(s: seq<T>, t: T, keep: T -> bool)
    ensures Filter(s + [t], keep) == Filter(s, keep) + (if keep(t) then [t] else [])
  {
    FilterAppend(s, [t], keep);
    assert Filter([t], keep) == (if keep(t) then [t] else []) + Filter([], keep);
  }

  lemma FilterReverseAppend<T>(a: seq<T>, b: seq<T>, keep: T -> bool)
    ensures Filter(Reverse(a + b), keep) == Filter(Reverse(b), keep) + Filter(Reverse(a), keep)
  {
    ReverseAppend(a, b);
    FilterAppend(Reverse(b), Reverse(a), keep);
  }

  /** What popping the last element off a stack leaves to be popped. */
  lemma FilterPop<T>(s: seq<T>, keep: T -> bool)
    requires s != []
    ensures var n := |s| - 1;
      Filter(Reverse(s), keep) == (if keep(s[n]) then [s[n]] else []) + Filter(Reverse(s[..n]), keep)
  {
    hide Reverse, Filter;
    FilterPushed(s[..|s| - 1], s[|s| - 1], keep);
    assert s[..|s| - 1] + [s[|s| - 1]] == s;
  }

  lemma FilterPushed<T>(s: seq<T>, t: T, keep: T -> bool)
    ensures Filter(Reverse(s + [t]), keep) == (if keep(t) then [t] else []) + Filter(Reverse(s), keep)
  {
    hide Reverse, Filter;
    FilterReverseAppend(s, [t], keep);
    FilterOne(t, keep);
  }

  lemma FilterOne<T>(t: T, keep: T -> bool)
    ensures Filter(Reverse([t]), keep) == if keep(t) then [t] else []
  {
    assert Reverse([t]) == [t];
    FilterSnoc([], t, keep);
    assert [] + [t] == [t];
  }

  lemma EmptyIffNoMember<T(!new)>(s: seq<T>)
    ensures s == [] <==> forall t :: t !in s
  {
    if s != [] {
      assert s[0] in s;
    }
  }

  ghost function AnyKey<K, V>(m: map<K, V>): (k: K)
    requires m != map[]
    ensures k in m
  {
    assert m.Keys != {};
    var k :| k in m.Keys;
    k
  }

  /** Everything held by the sequences of `m`, counted with multiplicity. */
  ghost function Gather<K, T>(m: map<K, seq<T>>): multiset<T>
    decreases |m|
  {
    if m == map[] then multiset{} else
    var k := AnyKey(m);
    multiset(m[k]) + Gather(m - {k})
  }

  lemma {:induction false} GatherRemove<K, T>(m: map<K, seq<T>>, k: K)
    requires k in m
    ensures Gather(m) == multiset(m[k]) + Gather(m - {k})
    decreases |m|
  {
    var k0 := AnyKey(m);
    if k0 != k {
      GatherRemove(m - {k0}, k);
      GatherRemove(m - {k}, k0);
      assert m - {k0} - {k} == m - {k} - {k0};
    }
  }

  lemma GatherUpdate<K, T>(m: map<K, seq<T>>, k: K, s: seq<T>)
    ensures Gather(m[k := s]) == multiset(s) + Gather(m - {k})
  {
    GatherRemove(m[k := s], k);
    assert m[k := s] - {k} == m - {k};
  }

  lemma {:induction false} GatherMember<K, T>(m: map<K, seq<T>>, t: T)
    ensures t in Gather(m) <==> exists k :: k in m && t in m[k]
    decreases |m|
  {
    if m != map[] {
      var k := AnyKey(m);
      GatherMember(m - {k}, t);
      if t in Gather(m) && t !in m[k] {
        var j :| j in m - {k} && t in (m - {k})[j];
        assert j in m && t in m[j];
      }
      if j :| j in m && t in m[j] {
        assert j == k || (j in m - {k} && t in (m - {k})[j]);
      }
    }
  }
}
