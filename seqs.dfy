/** Order-preserving selection and element-wise mapping over sequences, the two
    array operations (`filter` and `map`) the extension relies on throughout. */
module Seqs {

  /** The elements of `s` that satisfy `f`, in their original order. */
  function Filter<T>(s: seq<T>, f: T -> bool): (r: seq<T>)
    ensures |r| <= |s|
  {
    if s == [] then [] else (if f(s[0]) then [s[0]] else []) + Filter(s[1..], f)
  }

  /** Every selected element satisfies the predicate. */
  lemma {:induction false} FilterSatisfies<T>(s: seq<T>, f: T -> bool)
    ensures forall i :: 0 <= i < |Filter(s, f)| ==> f(Filter(s, f)[i])
  {
    if s != [] {
      FilterSatisfies(s[1..], f);
    }
  }

  /** Exactly the elements of `s` that satisfy `f` are selected, none more often than
      they occur in `s`. */
  lemma {:induction false} FilterMembers<T>(s: seq<T>, f: T -> bool)
    ensures forall x :: x in Filter(s, f) <==> x in s && f(x)
    ensures multiset(Filter(s, f)) <= multiset(s)
  {
    if s != [] {
      FilterMembers(s[1..], f);
      assert s == [s[0]] + s[1..];
    }
  }

  /** Each element satisfying `f` is selected exactly as often as it occurs in `s`, and
      no other element is selected at all. */
  lemma {:induction false} FilterCount<T>(s: seq<T>, f: T -> bool, y: T)
    ensures multiset(Filter(s, f))[y] == if f(y) then multiset(s)[y] else 0
  {
    if s != [] {
      FilterCount(s[1..], f, y);
      assert s == [s[0]] + s[1..];
    }
  }

  /** `f` applied to every element of `s`, in order. */
  function Map<A, B>(s: seq<A>, f: A -> B): (r: seq<B>)
    ensures |r| == |s|
  {
    if s == [] then [] else [f(s[0])] + Map(s[1..], f)
  }

  /** The i-th element of the mapped sequence is `f` of the i-th element. */
  lemma {:induction false} MapAt<A, B>(s: seq<A>, f: A -> B)
    ensures forall i :: 0 <= i < |s| ==> Map(s, f)[i] == f(s[i])
  {
    if s != [] {
      MapAt(s[1..], f);
    }
  }

  /** Selecting from a concatenation selects from each part, in order: filtering never
      reorders elements. */
  lemma {:induction false} FilterAppend<T>(s: seq<T>, t: seq<T>, f: T -> bool)
    ensures Filter(s + t, f) == Filter(s, f) + Filter(t, f)
  {
    if s == [] {
      assert s + t == t;
    } else {
      var head := if f(s[0]) then [s[0]] else [];
      assert (s + t)[0] == s[0];
      assert (s + t)[1..] == s[1..] + t;
      FilterAppend(s[1..], t, f);
      calc {
        Filter(s + t, f);
        head + Filter(s[1..] + t, f);
        head + (Filter(s[1..], f) + Filter(t, f));
        (head + Filter(s[1..], f)) + Filter(t, f);
        Filter(s, f) + Filter(t, f);
      }
    }
  }

  /** Selecting from a sequence with one more element at the end. */
  lemma FilterSnoc<T>(s: seq<T>, x: T, f: T -> bool)
    ensures Filter(s + [x], f) == Filter(s, f) + (if f(x) then [x] else [])
  {
    FilterAppend(s, [x], f);
    assert [x][1..] == [];
  }

  /** Nothing is selected exactly when no element satisfies the predicate. */
  lemma {:induction false} FilterEmptyIff<T>(s: seq<T>, f: T -> bool)
    ensures Filter(s, f) == [] <==> forall i :: 0 <= i < |s| ==> !f(s[i])
  {
    if s != [] {
      FilterEmptyIff(s[1..], f);
      assert forall i :: 1 <= i < |s| ==> s[i] == s[1..][i - 1];
    }
  }

  /** A sequence whose every element is selected is returned whole. */
  lemma {:induction false} FilterAll<T>(s: seq<T>, f: T -> bool)
    requires forall i :: 0 <= i < |s| ==> f(s[i])
    ensures Filter(s, f) == s
  {
    if s != [] {
      FilterAll(s[1..], f);
    }
  }

  /** Selecting twice with the same predicate selects nothing more. */
  lemma {:induction false} FilterIdempotent<T>(s: seq<T>, f: T -> bool)
    ensures Filter(Filter(s, f), f) == Filter(s, f)
  {
    FilterSatisfies(s, f);
    FilterAll(Filter(s, f), f);
  }

  /** One instance of "`f` excludes `g`", for an `x` that `f` accepts; the solver does not
      instantiate the quantified premise on its own inside `FilterExcludes`. */
  lemma Excludes<T>(f: T -> bool, g: T -> bool, x: T)
    requires forall y :: f(y) ==> !g(y)
    requires f(x)
    ensures !g(x)
  {
  }

  /** Nothing `f` selected satisfies a predicate `g` that excludes `f`. */
  lemma {:induction false} FilterExcludes<T>(s: seq<T>, f: T -> bool, g: T -> bool)
    requires forall x :: f(x) ==> !g(x)
    ensures Filter(Filter(s, f), g) == []
  {
    var r := Filter(s, f);
    FilterSatisfies(s, f);
    forall i | 0 <= i < |r| ensures !g(r[i]) {
      Excludes(f, g, r[i]);
    }
    FilterEmptyIff(r, g);
  }

  /** A predicate and its complement together select every element once. */
  lemma {:induction false} FilterComplementLength<T>(s: seq<T>, f: T -> bool, g: T -> bool)
    requires forall x :: g(x) == !f(x)
    ensures |Filter(s, f)| + |Filter(s, g)| == |s|
  {
    if s != [] {
      FilterComplementLength(s[1..], f, g);
      assert g(s[0]) == !f(s[0]);
    }
  }

  /** Selecting with three pairwise exclusive predicates whose disjunction is `k` splits
      what `k` selects, as a multiset, into three parts. */
  lemma FilterSplit<T>(s: seq<T>, f: T -> bool, g: T -> bool, h: T -> bool, k: T -> bool)
    requires forall x :: k(x) == (f(x) || g(x) || h(x))
    requires forall x :: !(f(x) && g(x)) && !(f(x) && h(x)) && !(g(x) && h(x))
    ensures multiset(Filter(s, k)) == multiset(Filter(s, f)) + multiset(Filter(s, g)) + multiset(Filter(s, h))
  {
    var whole := multiset(Filter(s, k));
    var parts := multiset(Filter(s, f)) + multiset(Filter(s, g)) + multiset(Filter(s, h));
    forall y ensures whole[y] == parts[y] {
      FilterSplitCount(s, f, g, h, k, y);
    }
    MultisetExt(whole, parts);
  }

  /** Multisets that agree on every count are equal. */
  lemma MultisetExt<T>(a: multiset<T>, b: multiset<T>)
    requires forall y :: a[y] == b[y]
    ensures a == b
  {
  }

  /** The occurrences of `y` in what `k` selects, counted through the three parts. */
  lemma {:induction false} FilterSplitCount<T>(s: seq<T>, f: T -> bool, g: T -> bool, h: T -> bool, k: T -> bool, y: T)
    requires forall x :: k(x) == (f(x) || g(x) || h(x))
    requires forall x :: !(f(x) && g(x)) && !(f(x) && h(x)) && !(g(x) && h(x))
    ensures multiset(Filter(s, k))[y]
         == multiset(Filter(s, f))[y] + multiset(Filter(s, g))[y] + multiset(Filter(s, h))[y]
  {
    if s != [] {
      var x, t := s[0], s[1..];
      FilterSplitCount(t, f, g, h, k, y);
      assert k(x) == (f(x) || g(x) || h(x));
      assert !(f(x) && g(x)) && !(f(x) && h(x)) && !(g(x) && h(x));
      var hk, hf, hg, hh := (if k(x) then [x] else []), (if f(x) then [x] else []),
                            (if g(x) then [x] else []), (if h(x) then [x] else []);
      assert multiset(hk)[y] == multiset(hf)[y] + multiset(hg)[y] + multiset(hh)[y];
      assert multiset(Filter(s, k))[y] == multiset(hk)[y] + multiset(Filter(t, k))[y];
      assert multiset(Filter(s, f))[y] == multiset(hf)[y] + multiset(Filter(t, f))[y];
      assert multiset(Filter(s, g))[y] == multiset(hg)[y] + multiset(Filter(t, g))[y];
      assert multiset(Filter(s, h))[y] == multiset(hh)[y] + multiset(Filter(t, h))[y];
    }
  }

  /** Selecting with `g` from what `f` selected is the same as selecting with both. */
  lemma {:induction false} FilterFilter<T>(s: seq<T>, f: T -> bool, g: T -> bool, fg: T -> bool)
    requires forall x :: fg(x) == (f(x) && g(x))
    ensures Filter(Filter(s, f), g) == Filter(s, fg)
  {
    if s != [] {
      FilterFilter(s[1..], f, g, fg);
      var head := if f(s[0]) then [s[0]] else [];
      FilterAppend(head, Filter(s[1..], f), g);
      if f(s[0]) {
        assert Filter(head, g) == (if g(s[0]) then [s[0]] else []) by {
          assert head[1..] == [];
        }
      }
    }
  }

  /** Mapping a concatenation maps each part. */
  lemma {:induction false} MapAppend<A, B>(s: seq<A>, t: seq<A>, f: A -> B)
    ensures Map(s + t, f) == Map(s, f) + Map(t, f)
  {
    var l, r := Map(s + t, f), Map(s, f) + Map(t, f);
    MapAt(s + t, f);
    MapAt(s, f);
    MapAt(t, f);
    forall i | 0 <= i < |l| ensures l[i] == r[i] {
      if i < |s| { assert (s + t)[i] == s[i]; } else { assert (s + t)[i] == t[i - |s|]; }
    }
  }

  /** Walks `s` in order and, for every element `emits` accepts, produces `make(x, n)`,
      with `n` counting up from `start`: a fold whose accumulator is the next number. */
  function Numbered<T, R>(s: seq<T>, start: int, emits: T -> bool, make: (T, int) -> R): seq<R> {
    if s == [] then []
    else
      var previous := Numbered(s[..|s| - 1], start, emits, make);
      previous + (if emits(s[|s| - 1]) then [make(s[|s| - 1], start + |previous|)] else [])
  }

  /** The k-th produced item comes from the k-th accepted element and carries number
      `start + k`; rejected elements consume no number. */
  lemma {:induction false} NumberedCharacterised<T, R>(s: seq<T>, start: int, emits: T -> bool, make: (T, int) -> R)
    ensures |Numbered(s, start, emits, make)| == |Filter(s, emits)|
    ensures forall k :: 0 <= k < |Numbered(s, start, emits, make)| ==>
      Numbered(s, start, emits, make)[k] == make(Filter(s, emits)[k], start + k)
  {
    if s != [] {
      var init, last := s[..|s| - 1], s[|s| - 1];
      NumberedCharacterised(init, start, emits, make);
      assert s == init + [last];
      FilterSnoc(init, last, emits);
    }
  }
}
