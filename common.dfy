/** Small value types and sequence helpers shared by the other modules. */
module Common {

  datatype Option<+T> = None | Some(value: T)

  /** The success/failure result the engine hands back to its callers;
      a failure carries its message text. */
  datatype Outcome = Ok | Failed(message: string)

  /** No element occurs twice. */
  predicate NoDup<T(==)>(s: seq<T>) {
    forall i, j :: 0 <= i < j < |s| ==> s[i] != s[j]
  }

  /** Appends, in order, every element of `xs` that is not yet in the list built so far:
      the `for e in xs: if e not in acc: acc.append(e)` loop that the tab registry uses
      for `get_tabs` and for every list union in `optimize_tabs`. */
  function UnionInto<T(==)>(acc: seq<T>, xs: seq<T>): seq<T>
    decreases |xs|
  {
    if xs == [] then acc
    else
      var r := UnionInto(acc, xs[..|xs| - 1]);
      if xs[|xs| - 1] in r then r else r + [xs[|xs| - 1]]
  }

  /** The list we started from is left in place at the front. */
  lemma {:induction false} UnionIntoKeepsPrefix<T>(acc: seq<T>, xs: seq<T>)
    ensures acc <= UnionInto(acc, xs)
    decreases |xs|
  {
    if xs != [] {
      UnionIntoKeepsPrefix(acc, xs[..|xs| - 1]);
    }
  }

  /** The union holds exactly the elements of both lists. */
  lemma {:induction false} UnionIntoElements<T>(acc: seq<T>, xs: seq<T>, e: T)
    ensures e in UnionInto(acc, xs) <==> e in acc || e in xs
    decreases |xs|
  {
    if xs != [] {
      var init := xs[..|xs| - 1];
      UnionIntoElements(acc, init, e);
      assert xs == init + [xs[|xs| - 1]];
    }
  }

  /** `UnionIntoElements` for every element at once. */
  lemma UnionIntoHas<T>(acc: seq<T>, xs: seq<T>)
    ensures forall e :: e in UnionInto(acc, xs) <==> e in acc || e in xs
  {
    forall e {
      UnionIntoElements(acc, xs, e);
    }
  }

  /** A duplicate-free list stays duplicate-free. */
  lemma {:induction false} UnionIntoNoDup<T>(acc: seq<T>, xs: seq<T>)
    requires NoDup(acc)
    ensures NoDup(UnionInto(acc, xs))
    decreases |xs|
  {
    if xs != [] {
      UnionIntoNoDup(acc, xs[..|xs| - 1]);
    }
  }

  /** Running the loop over `b` and then over `c` is running it once over `b + c`. */
  lemma {:induction false} UnionIntoConcat<T>(a: seq<T>, b: seq<T>, c: seq<T>)
    ensures UnionInto(UnionInto(a, b), c) == UnionInto(a, b + c)
    decreases |c|
  {
    if c == [] {
      assert b + c == b;
    } else {
      var c' := c[..|c| - 1];
      UnionIntoConcat(a, b, c');
      assert (b + c)[..|b + c| - 1] == b + c';
    }
  }

  /** Index of the first occurrence of `e` in `s`. */
  function FirstIndex<T(==)>(s: seq<T>, e: T): (k: nat)
    requires e in s
    ensures k < |s| && s[k] == e && e !in s[..k]
  {
    if s[0] == e then 0 else 1 + FirstIndex(s[1..], e)
  }

  lemma FirstIndexOfPrefix<T>(s: seq<T>, n: nat, e: T)
    requires n <= |s| && e in s[..n]
    ensures FirstIndex(s, e) == FirstIndex(s[..n], e)
  {
    if s[0] != e {
      assert s[1..][..n - 1] == s[..n][1..];
      FirstIndexOfPrefix(s[1..], n - 1, e);
    }
  }

  /** Starting from an empty list, elements appear in the order in which they are
      first seen in `xs`. */
  lemma {:induction false} UnionIntoFirstSeenOrder<T>(xs: seq<T>, i: nat, j: nat)
    requires i < j < |UnionInto([], xs)|
    ensures UnionInto([], xs)[i] in xs && UnionInto([], xs)[j] in xs
    ensures FirstIndex(xs, UnionInto([], xs)[i]) < FirstIndex(xs, UnionInto([], xs)[j])
    decreases |xs|
  {
    var init := xs[..|xs| - 1];
    var last := xs[|xs| - 1];
    var r := UnionInto([], init);
    var u := UnionInto([], xs);
    assert xs == init + [last];
    UnionIntoElements([], init, u[i]);
    UnionIntoElements([], init, u[j]);
    if j < |r| {
      UnionIntoFirstSeenOrder(init, i, j);
      FirstIndexOfPrefix(xs, |init|, u[i]);
      FirstIndexOfPrefix(xs, |init|, u[j]);
    } else {
      // u[j] is `last`, appended because it was not seen in `init`
      FirstIndexOfPrefix(xs, |init|, u[i]);
      assert last !in init;
      assert FirstIndex(xs, last) == |init|;
    }
  }

  /** The loop behind `UnionInto`, run on a local list. */
  method AppendNew<T(==)>(acc: seq<T>, xs: seq<T>) returns (r: seq<T>)
    ensures r == UnionInto(acc, xs)
  {
    r := acc;
    var i := 0;
    while i < |xs|
      invariant 0 <= i <= |xs|
      invariant r == UnionInto(acc, xs[..i])
    {
      assert xs[..i + 1][..i] == xs[..i];
      if xs[i] !in r {
        r := r + [xs[i]];
      }
      i := i + 1;
    }
    assert xs[..i] == xs;
  }

  /** Python's `list.remove(x)`: drop the first occurrence of `x`. */
  function RemoveFirst<T(==)>(s: seq<T>, x: T): seq<T>
  {
    if s == [] then []
    else if s[0] == x then s[1..]
    else [s[0]] + RemoveFirst(s[1..], x)
  }

  /** The elements of `s` that are not in `gone`, in their original order. */
  function Without<T(==)>(s: seq<T>, gone: set<T>): seq<T>
  {
    if s == [] then []
    else (if s[0] in gone then [] else [s[0]]) + Without(s[1..], gone)
  }

  /** Filtering nothing out keeps the list. */
  lemma {:induction false} WithoutNothing<T>(s: seq<T>)
    ensures Without(s, {}) == s
  {
    if s != [] {
      WithoutNothing(s[1..]);
    }
  }

  lemma {:induction false} WithoutElements<T>(s: seq<T>, gone: set<T>, e: T)
    ensures e in Without(s, gone) <==> e in s && e !in gone
  {
    if s != [] {
      WithoutElements(s[1..], gone, e);
    }
  }

  /** On a duplicate-free list, removing the first occurrence of a still-present element
      is the same as filtering it out along with everything removed before. */
  lemma {:induction false} RemoveFirstFromWithout<T>(s: seq<T>, gone: set<T>, x: T)
    requires NoDup(s) && x in s && x !in gone
    ensures RemoveFirst(Without(s, gone), x) == Without(s, gone + {x})
  {
    if s[0] == x {
      WithoutElements(s[1..], gone, x);
      WithoutNotIn(s[1..], gone, x);
    } else {
      assert NoDup(s[1..]);
      RemoveFirstFromWithout(s[1..], gone, x);
      var rest := Without(s[1..], gone);
      if s[0] !in gone {
        assert Without(s, gone) == [s[0]] + rest;
        assert ([s[0]] + rest)[1..] == rest;
      } else {
        assert Without(s, gone) == rest;
        assert Without(s, gone + {x}) == Without(s[1..], gone + {x});
      }
    }
  }

  lemma {:induction false} WithoutNotIn<T>(s: seq<T>, gone: set<T>, x: T)
    requires x !in s
    ensures Without(s, gone) == Without(s, gone + {x})
  {
    if s != [] {
      WithoutNotIn(s[1..], gone, x);
    }
  }

  lemma {:induction false} WithoutNoDup<T>(s: seq<T>, gone: set<T>)
    requires NoDup(s)
    ensures NoDup(Without(s, gone))
  {
    if s != [] {
      WithoutNoDup(s[1..], gone);
      WithoutElements(s[1..], gone, s[0]);
    }
  }
}
