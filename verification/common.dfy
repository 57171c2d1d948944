/** Small shared vocabulary: an Option type for the source's `undefined`/`null`
    results and the sums the revenue-share and distribution code accumulate. */
module Common {

  /** A value that may be absent (`undefined` or `null` in the source). */
  datatype Option<T> = None | Some(value: T)

  /** Sum of a sequence, peeled from the back so that a loop adding
      `xs[i]` at step `i` keeps `acc == Sum(xs[..i])`. */
  function Sum(xs: seq<int>): int
  {
    if |xs| == 0 then 0 else Sum(xs[..|xs| - 1]) + xs[|xs| - 1]
  }

  /** Summing a prefix one element longer adds exactly that element. */
  lemma SumPrefixStep(xs: seq<int>, i: nat)
    requires i < |xs|
    ensures Sum(xs[..i + 1]) == Sum(xs[..i]) + xs[i]
  {
    assert xs[..i + 1][..i] == xs[..i];
  }

  /** The sum of a concatenation is the sum of its parts. */
  lemma {:induction false} SumAppend(xs: seq<int>, ys: seq<int>)
    ensures Sum(xs + ys) == Sum(xs) + Sum(ys)
  {
    if |ys| == 0 {
      assert xs + ys == xs;
    } else {
      var zs := xs + ys;
      assert zs[..|zs| - 1] == xs + ys[..|ys| - 1];
      SumAppend(xs, ys[..|ys| - 1]);
    }
  }

  /** True when no value occurs twice in `xs`. */
  predicate NoDuplicates<T(==,!new)>(xs: seq<T>)
  {
    forall i, j :: 0 <= i < j < |xs| ==> xs[i] != xs[j]
  }

  /** Keeps the first occurrence of every value, in order (what
      `Array.from(new Set(xs))` yields for primitive values). */
  function Dedupe<T(==,!new)>(xs: seq<T>): (r: seq<T>)
    ensures NoDuplicates(r)
    ensures forall x :: x in r <==> x in xs
    ensures |r| <= |xs|
  {
    var r := DedupeAfter([], xs);
    assert [] + r == r;
    r
  }

  /** `seen` followed by the values of `xs` not yet seen, first occurrence first. */
  function DedupeAfter<T(==,!new)>(seen: seq<T>, xs: seq<T>): (r: seq<T>)
    requires NoDuplicates(seen)
    ensures NoDuplicates(seen + r)
    ensures forall x :: x in r <==> x in xs && x !in seen
    ensures |r| <= |xs|
    decreases |xs|
  {
    if |xs| == 0 then []
    else if xs[0] in seen then DedupeAfter(seen, xs[1..])
    else
      var rest := DedupeAfter(seen + [xs[0]], xs[1..]);
      assert seen + ([xs[0]] + rest) == (seen + [xs[0]]) + rest;
      [xs[0]] + rest
  }

  /** The names a lookup on any JavaScript object literal also finds,
      truthy, without an own property of that name: the members it
      inherits from `Object.prototype`. */
  predicate IsPrototypeMember(key: string)
  {
    key in {"constructor", "hasOwnProperty", "isPrototypeOf", "propertyIsEnumerable",
            "toString", "toLocaleString", "valueOf", "__proto__",
            "__defineGetter__", "__defineSetter__", "__lookupGetter__", "__lookupSetter__"}
  }
}
