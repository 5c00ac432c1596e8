/**
 * First-occurrence de-duplication, as the scrapers do it twice: card
 * summaries by link (`out.filter(x => x.link && !seen.has(x.link) &&
 * seen.add(x.link))`, where an empty link is dropped) and date candidates
 * by their text (`if (!uniq.includes(c)) uniq.push(c)`).
 */
module Dedup {

  /** The keys of a sequence of elements. */
  function KeysOf<T(==), K>(xs: seq<T>, key: T -> K): set<K> {
    set x | x in xs :: key(x)
  }

  /**
   * The elements of `xs` that have an eligible key and are the first with
   * that key, in their order in `xs`.
   */
  function KeepFirsts<T(==), K(==)>(xs: seq<T>, key: T -> K, eligible: K -> bool): seq<T>
  {
    if xs == [] then []
    else
      var kept := KeepFirsts(xs[..|xs| - 1], key, eligible);
      var last := xs[|xs| - 1];
      if eligible(key(last)) && key(last) !in KeysOf(kept, key) then kept + [last] else kept
  }

  /** `r` is `xs` with some elements left out, the others in the same order. */
  predicate SubsequenceOf<T(==)>(r: seq<T>, xs: seq<T>)
    decreases |xs|
  {
    if r == [] then true
    else if xs == [] then false
    else if r[|r| - 1] == xs[|xs| - 1] then SubsequenceOf(r[..|r| - 1], xs[..|xs| - 1])
    else SubsequenceOf(r, xs[..|xs| - 1])
  }

  lemma {:induction false} SubsequenceOfExtend<T>(r: seq<T>, xs: seq<T>, x: T)
    requires SubsequenceOf(r, xs)
    ensures SubsequenceOf(r, xs + [x])
    decreases |xs|, 1
  {
    var ys := xs + [x];
    assert ys[..|ys| - 1] == xs;
    if r != [] && r[|r| - 1] == x {
      SubsequenceOfDropLast(r, xs);
    }
  }

  lemma {:induction false} SubsequenceOfDropLast<T>(r: seq<T>, xs: seq<T>)
    requires r != [] && SubsequenceOf(r, xs)
    ensures SubsequenceOf(r[..|r| - 1], xs)
    decreases |xs|, 0
  {
    var xs' := xs[..|xs| - 1];
    assert xs' + [xs[|xs| - 1]] == xs;
    if r[|r| - 1] == xs[|xs| - 1] {
      SubsequenceOfExtend(r[..|r| - 1], xs', xs[|xs| - 1]);
    } else {
      SubsequenceOfDropLast(r, xs');
      SubsequenceOfExtend(r[..|r| - 1], xs', xs[|xs| - 1]);
    }
  }

  /** Kept elements come from `xs`, in order, and each has an eligible key. */
  lemma {:induction false} KeepFirstsIsSubsequence<T, K>(xs: seq<T>, key: T -> K, eligible: K -> bool)
    ensures SubsequenceOf(KeepFirsts(xs, key, eligible), xs)
    ensures forall x :: x in KeepFirsts(xs, key, eligible) ==> x in xs && eligible(key(x))
  {
    if xs != [] {
      var prefix := xs[..|xs| - 1];
      KeepFirstsIsSubsequence(prefix, key, eligible);
      var kept := KeepFirsts(prefix, key, eligible);
      assert prefix + [xs[|xs| - 1]] == xs;
      if KeepFirsts(xs, key, eligible) == kept {
        SubsequenceOfExtend(kept, prefix, xs[|xs| - 1]);
      } else {
        assert KeepFirsts(xs, key, eligible) == kept + [xs[|xs| - 1]];
        assert (kept + [xs[|xs| - 1]])[..|kept|] == kept;
      }
    }
  }

  ghost predicate KeysDistinct<T, K>(r: seq<T>, key: T -> K) {
    forall i, j :: 0 <= i < j < |r| ==> key(r[i]) != key(r[j])
  }

  /** No two kept elements share a key. */
  lemma {:induction false} KeepFirstsKeysUnique<T, K>(xs: seq<T>, key: T -> K, eligible: K -> bool)
    ensures KeysDistinct(KeepFirsts(xs, key, eligible), key)
  {
    if xs != [] {
      var prefix := xs[..|xs| - 1];
      KeepFirstsKeysUnique(prefix, key, eligible);
      var kept := KeepFirsts(prefix, key, eligible);
      var last := xs[|xs| - 1];
      var r := KeepFirsts(xs, key, eligible);
      if eligible(key(last)) && key(last) !in KeysOf(kept, key) {
        assert r == kept + [last];
        forall i, j | 0 <= i < j < |r| ensures key(r[i]) != key(r[j]) {
          if j == |kept| {
            assert r[i] == kept[i];
            assert key(r[i]) in KeysOf(kept, key);
          } else {
            assert r[i] == kept[i] && r[j] == kept[j];
          }
        }
      } else {
        assert r == kept;
      }
    }
  }

  /** Exactly the eligible keys of `xs` are kept. */
  lemma {:induction false} KeepFirstsKeys<T, K>(xs: seq<T>, key: T -> K, eligible: K -> bool, k: K)
    ensures k in KeysOf(KeepFirsts(xs, key, eligible), key) <==> (eligible(k) && k in KeysOf(xs, key))
  {
    if xs != [] {
      var prefix := xs[..|xs| - 1];
      var last := xs[|xs| - 1];
      KeepFirstsKeys(prefix, key, eligible, k);
      KeepFirstsIsSubsequence(xs, key, eligible);
      assert xs == prefix + [last];
      if eligible(k) && k in KeysOf(xs, key) {
        var x :| x in xs && key(x) == k;
        if x in prefix {
          assert k in KeysOf(prefix, key);
        } else {
          assert x == last;
        }
      }
    }
  }

  /** The element kept for a key is the first element of `xs` with that key. */
  lemma {:induction false} KeepFirstsFirstWins<T, K>(xs: seq<T>, key: T -> K, eligible: K -> bool)
    ensures forall y :: y in KeepFirsts(xs, key, eligible) ==>
      exists i :: 0 <= i < |xs| && xs[i] == y && forall j :: 0 <= j < i ==> key(xs[j]) != key(y)
  {
    if xs != [] {
      var prefix := xs[..|xs| - 1];
      var last := xs[|xs| - 1];
      KeepFirstsFirstWins(prefix, key, eligible);
      KeepFirstsKeys(prefix, key, eligible, key(last));
      var kept := KeepFirsts(prefix, key, eligible);
      forall y | y in KeepFirsts(xs, key, eligible)
        ensures exists i :: 0 <= i < |xs| && xs[i] == y && forall j :: 0 <= j < i ==> key(xs[j]) != key(y)
      {
        if y in kept {
          var i :| 0 <= i < |prefix| && prefix[i] == y && forall j :: 0 <= j < i ==> key(prefix[j]) != key(y);
          forall j | 0 <= j < i ensures key(xs[j]) != key(y) {
            assert xs[j] == prefix[j];
          }
          assert xs[i] == y;
        } else {
          assert y == last && key(last) !in KeysOf(kept, key) && eligible(key(last));
          FreshLastIsFirst(xs, key);
          assert xs[|xs| - 1] == y;
        }
      }
    }
  }

  /** A last element whose key no earlier element has is the first with its key. */
  lemma FreshLastIsFirst<T, K>(xs: seq<T>, key: T -> K)
    requires xs != [] && key(xs[|xs| - 1]) !in KeysOf(xs[..|xs| - 1], key)
    ensures forall j :: 0 <= j < |xs| - 1 ==> key(xs[j]) != key(xs[|xs| - 1])
  {
    forall j | 0 <= j < |xs| - 1 ensures key(xs[j]) != key(xs[|xs| - 1]) {
      assert xs[j] in xs[..|xs| - 1];
    }
  }

  /** Adding one element to a kept sequence with the loop's test. */
  lemma KeepFirstsStep<T, K>(xs: seq<T>, i: nat, key: T -> K, eligible: K -> bool)
    requires i < |xs|
    ensures var kept := KeepFirsts(xs[..i], key, eligible);
      KeepFirsts(xs[..i + 1], key, eligible) ==
        if eligible(key(xs[i])) && key(xs[i]) !in KeysOf(kept, key) then kept + [xs[i]] else kept
  {
    assert xs[..i + 1][..i] == xs[..i];
  }

  /**
   * The filter with a `seen` set: a loop over `xs` that keeps an element
   * when its key is eligible and not yet seen, and then marks it seen.
   */
  method KeepFirstByKey<T(==), K(==)>(xs: seq<T>, key: T -> K, eligible: K -> bool) returns (kept: seq<T>)
    ensures kept == KeepFirsts(xs, key, eligible)
  {
    var seen: set<K> := {};
    kept := [];
    for i := 0 to |xs|
      invariant kept == KeepFirsts(xs[..i], key, eligible)
      invariant seen == KeysOf(kept, key)
    {
      KeepFirstsStep(xs, i, key, eligible);
      var x := xs[i];
      if eligible(key(x)) && key(x) !in seen {
        kept := kept + [x];
        seen := seen + {key(x)};
      }
    }
    assert xs[..|xs|] == xs;
  }

  /** `uniq.includes(c)` on the list built so far: the strings of `xs`, each once, first-seen order. */
  method UniqueInOrder(xs: seq<string>) returns (uniq: seq<string>)
    ensures uniq == KeepFirsts(xs, s => s, s => true)
  {
    uniq := [];
    for i := 0 to |xs|
      invariant uniq == KeepFirsts(xs[..i], s => s, s => true)
    {
      KeepFirstsStep(xs, i, s => s, s => true);
      assert (xs[i] in uniq) == (xs[i] in KeysOf(uniq, s => s));
      if xs[i] !in uniq {
        uniq := uniq + [xs[i]];
      }
    }
    assert xs[..|xs|] == xs;
  }
}
