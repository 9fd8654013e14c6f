/** The seen-set filter at the heart of get_quotes (run.py:80-97), stated
    for any value type: the real key is the record's sorted-keys JSON
    serialisation, which is injective, so structural equality of the value
    stands in for it. */
module Dedup {
  import opened Seqs

  /** What one pass of the filter produces: the values it kept, in order,
      and the seen-set after the pass. */
  datatype Filtered<T> = Filtered(kept: seq<T>, seen: set<T>)

  /** Walk `s` front to back; keep a value, and add it to the seen-set,
      exactly when the seen-set does not hold it yet. */
  function Filter<T(==)>(s: seq<T>, seen: set<T>): (r: Filtered<T>)
    ensures r.seen == seen + Elems(s)
    ensures Elems(r.kept) == Elems(s) - seen
    ensures NoDup(r.kept)
    ensures |r.seen| == |seen| + |r.kept|
    decreases |s|
  {
    if |s| == 0 then Filtered([], seen)
    else
      assert s == [s[0]] + s[1..];
      ElemsCons(s[0], s[1..]);
      if s[0] in seen then Filter(s[1..], seen)
      else
        var rest := Filter(s[1..], seen + {s[0]});
        KeepHead(s[0], s[1..], seen, rest);
        Filtered([s[0]] + rest.kept, rest.seen)
  }

  /** The step of `Filter` that keeps a new head `x`: if the walk over the
      tail, started from `seen` plus `x`, meets `Filter`'s contract, then
      putting `x` in front of what it kept meets the contract for the
      whole sequence. */
  lemma KeepHead<T>(x: T, tail: seq<T>, seen: set<T>, rest: Filtered<T>)
    requires x !in seen
    requires rest.seen == seen + {x} + Elems(tail)
    requires Elems(rest.kept) == Elems(tail) - (seen + {x})
    requires NoDup(rest.kept)
    requires |rest.seen| == |seen + {x}| + |rest.kept|
    ensures rest.seen == seen + Elems([x] + tail)
    ensures Elems([x] + rest.kept) == Elems([x] + tail) - seen
    ensures NoDup([x] + rest.kept)
    ensures |rest.seen| == |seen| + |[x] + rest.kept|
  {
    ElemsCons(x, tail);
    ElemsCons(x, rest.kept);
    assert x !in Elems(rest.kept);
    NoDupCons(x, rest.kept);
    assert |seen + {x}| == |seen| + 1;
  }

  /** Reference definition, independent of the seen-set bookkeeping: the
      positions of `s` whose value is new, that is neither in `seen` nor at
      an earlier position. */
  function Firsts<T(==)>(s: seq<T>, seen: set<T>): seq<T>
    decreases |s|
  {
    if |s| == 0 then []
    else
      var i := |s| - 1;
      Firsts(s[..i], seen) + (if s[i] !in seen && s[i] !in s[..i] then [s[i]] else [])
  }

  /** Filtering a concatenation is filtering the first part, then the
      second part against the seen-set the first part left behind. */
  lemma {:induction false} FilterAppend<T>(a: seq<T>, b: seq<T>, seen: set<T>)
    ensures var fa := Filter(a, seen);
            var fb := Filter(b, fa.seen);
            Filter(a + b, seen) == Filtered(fa.kept + fb.kept, fb.seen)
    decreases |a|
  {
    if |a| == 0 {
      assert a + b == b;
    } else {
      var ab := a + b;
      assert ab[0] == a[0] && ab[1..] == a[1..] + b;
      if a[0] in seen {
        FilterAppend(a[1..], b, seen);
      } else {
        FilterAppend(a[1..], b, seen + {a[0]});
        var fa' := Filter(a[1..], seen + {a[0]});
        var fb := Filter(b, fa'.seen);
        assert [a[0]] + (fa'.kept + fb.kept) == ([a[0]] + fa'.kept) + fb.kept;
      }
    }
  }

  /** The seen-set filter computes the reference definition: every value is
      kept at its first occurrence and nowhere else. */
  lemma {:induction false} FilterIsFirsts<T>(s: seq<T>, seen: set<T>)
    ensures Filter(s, seen).kept == Firsts(s, seen)
    decreases |s|
  {
    if |s| > 0 {
      var i := |s| - 1;
      var x := s[i];
      assert s == s[..i] + [x];
      FilterIsFirsts(s[..i], seen);
      FilterAppend(s[..i], [x], seen);
      var before := Filter(s[..i], seen).seen;
      ElemsMembers(s[..i]);
      assert x in before <==> x in seen || x in s[..i];
      FilterOne(x, before);
    }
  }

  /** Filtering a single value keeps it exactly when it is new. */
  lemma FilterOne<T>(x: T, seen: set<T>)
    ensures Filter([x], seen).kept == if x in seen then [] else [x]
  {
    assert [x][1..] == [];
  }

  /** The reference definition splits the same way: the new values of a
      concatenation are those of the first part, then those of the second
      part that the first part did not already show. */
  lemma FirstsAppend<T>(a: seq<T>, b: seq<T>, seen: set<T>)
    ensures Firsts(a + b, seen) == Firsts(a, seen) + Firsts(b, seen + Elems(a))
  {
    FilterAppend(a, b, seen);
    FilterIsFirsts(a + b, seen);
    FilterIsFirsts(a, seen);
    FilterIsFirsts(b, seen + Elems(a));
  }

  /** Kept values appear in the same relative order as in the input. */
  lemma {:induction false} FilterKeepsOrder<T>(s: seq<T>, seen: set<T>)
    ensures IsSubsequence(Filter(s, seen).kept, s)
    decreases |s|
  {
    if |s| > 0 {
      assert s == [s[0]] + s[1..];
      if s[0] in seen {
        FilterKeepsOrder(s[1..], seen);
      } else {
        FilterKeepsOrder(s[1..], seen + {s[0]});
        var kept := Filter(s, seen).kept;
        assert kept[0] == s[0] && kept[1..] == Filter(s[1..], seen + {s[0]}).kept;
      }
    }
  }

  /** A pass keeps nothing exactly when the seen-set already covers the
      input, and then the seen-set is left as it was. */
  lemma FilterKeepsNothing<T>(s: seq<T>, seen: set<T>)
    ensures Filter(s, seen).kept == [] <==> Elems(s) <= seen
    ensures Elems(s) <= seen ==> Filter(s, seen).seen == seen
  {
    var kept := Filter(s, seen).kept;
    if kept != [] {
      assert kept[0] in kept;
    }
  }

  /** Running the same input through again, with the seen-set the first
      run produced, keeps nothing and changes nothing. */
  lemma FilterIdempotent<T>(s: seq<T>, seen: set<T>)
    ensures var first := Filter(s, seen);
            Filter(s, first.seen) == Filtered([], first.seen)
  {
    FilterKeepsNothing(s, Filter(s, seen).seen);
  }
}
