/**
 * Sequence operations shared by several services: order-preserving filtering
 * (`Array.prototype.filter`), subsequences, and the "first occurrence per key
 * wins" de-duplication that both paper processors perform with a `Set` of
 * seen keys.
 */
module Seqs {
  import opened Wrappers

  /**
   * Each item parsed in turn and the non-null results kept in order, as a
   * loop pushing each parsed record does. `parse(x, k)` is told how many
   * records were kept before it, which fixes the random draw it takes.
   */
  function Collect<T, U>(xs: seq<T>, parse: (T, nat) -> Option<U>, taken: nat): (r: seq<U>)
    ensures |r| <= |xs|
    decreases |xs|
  {
    if xs == [] then []
    else match parse(xs[0], taken)
      case Some(y) => [y] + Collect(xs[1..], parse, taken + 1)
      case None => Collect(xs[1..], parse, taken)
  }

  /** The loop of a feed parser: each item parsed in turn, the records it yields pushed in order. */
  method CollectEach<T, U>(xs: seq<T>, parse: (T, nat) -> Option<U>) returns (r: seq<U>)
    ensures r == Collect(xs, parse, 0)
  {
    ghost var whole := Collect(xs, parse, 0);
    r := [];
    var i := 0;
    while i < |xs|
      invariant 0 <= i <= |xs|
      invariant r + Collect(xs[i..], parse, |r|) == whole
    {
      var y := parse(xs[i], |r|);
      CollectStep(xs, i, parse, r, whole);
      if y.Some? {
        r := r + [y.value];
      }
      i := i + 1;
    }
  }

  /** What holds of every parsed record holds of every record collected. */
  lemma {:induction false} CollectAll<T, U>(xs: seq<T>, parse: (T, nat) -> Option<U>, taken: nat, ok: U -> bool)
    requires forall x, k :: parse(x, k).Some? ==> ok(parse(x, k).value)
    ensures forall y :: y in Collect(xs, parse, taken) ==> ok(y)
    decreases |xs|
  {
    if xs != [] {
      CollectAll(xs[1..], parse, taken, ok);
      CollectAll(xs[1..], parse, taken + 1, ok);
    }
  }

  /** One step of the loop that parses `xs[i]` and pushes the record onto `acc` when it is not null. */
  lemma CollectStep<T, U>(xs: seq<T>, i: int, parse: (T, nat) -> Option<U>, acc: seq<U>, whole: seq<U>)
    requires 0 <= i < |xs|
    requires acc + Collect(xs[i..], parse, |acc|) == whole
    ensures parse(xs[i], |acc|).Some? ==> acc + [parse(xs[i], |acc|).value] + Collect(xs[i + 1..], parse, |acc| + 1) == whole
    ensures parse(xs[i], |acc|).None? ==> acc + Collect(xs[i + 1..], parse, |acc|) == whole
  {
    assert xs[i..][1..] == xs[i + 1..];
    if parse(xs[i], |acc|).Some? {
      assert acc + [parse(xs[i], |acc|).value] + Collect(xs[i + 1..], parse, |acc| + 1)
          == acc + ([parse(xs[i], |acc|).value] + Collect(xs[i + 1..], parse, |acc| + 1));
    }
  }

  /**
   * `step` run over `xs` with a state threaded through, item `k` handled as
   * the `from + k`-th; the outputs are concatenated in order.
   */
  function ConcatThread<S, T, U>(st: S, xs: seq<T>, step: (S, T, nat) -> (seq<U>, S), from: nat): (seq<U>, S)
    decreases |xs|
  {
    if xs == [] then ([], st)
    else
      var first := step(st, xs[0], from);
      var rest := ConcatThread(first.1, xs[1..], step, from + 1);
      (first.0 + rest.0, rest.1)
  }

  /** One step of the loop that runs `step` on `xs[i]` and appends its output to `acc`. */
  lemma ConcatThreadStep<S, T, U>(st: S, xs: seq<T>, i: int, step: (S, T, nat) -> (seq<U>, S), acc: seq<U>, whole: (seq<U>, S))
    requires 0 <= i < |xs|
    requires (acc + ConcatThread(st, xs[i..], step, i).0, ConcatThread(st, xs[i..], step, i).1) == whole
    ensures var first := step(st, xs[i], i);
      (acc + first.0 + ConcatThread(first.1, xs[i + 1..], step, i + 1).0, ConcatThread(first.1, xs[i + 1..], step, i + 1).1)
      == whole
  {
    assert xs[i..][0] == xs[i] && xs[i..][1..] == xs[i + 1..];
    var first := step(st, xs[i], i);
    var rest := ConcatThread(first.1, xs[i + 1..], step, i + 1);
    assert acc + first.0 + rest.0 == acc + (first.0 + rest.0);
  }

  /** Running over `xs + [x]` runs over `xs`, then once more from the state left behind. */
  lemma {:induction false} ConcatThreadAppend<S, T, U>(st: S, xs: seq<T>, x: T, step: (S, T, nat) -> (seq<U>, S), from: nat)
    ensures var before := ConcatThread(st, xs, step, from);
      var last := step(before.1, x, from + |xs|);
      ConcatThread(st, xs + [x], step, from) == (before.0 + last.0, last.1)
    decreases |xs|
  {
    if xs == [] {
      assert xs + [x] == [x];
      var last := step(st, x, from);
      assert ConcatThread(st, [x], step, from) == (last.0 + [], last.1);
      assert last.0 + [] == [] + last.0 == last.0;
    } else {
      var first := step(st, xs[0], from);
      assert (xs + [x])[0] == xs[0];
      assert (xs + [x])[1..] == xs[1..] + [x];
      ConcatThreadAppend(first.1, xs[1..], x, step, from + 1);
      var rest := ConcatThread(first.1, xs[1..], step, from + 1);
      var last := step(rest.1, x, from + 1 + |xs[1..]|);
      assert first.0 + (rest.0 + last.0) == first.0 + rest.0 + last.0;
    }
  }

  /** `xs.filter(f)`: the elements satisfying `f`, in order. */
  function Filter<T>(f: T -> bool, xs: seq<T>): (r: seq<T>)
    ensures |r| <= |xs|
    ensures forall k :: 0 <= k < |r| ==> f(r[k])
    decreases |xs|
  {
    if xs == [] then [] else (if f(xs[0]) then [xs[0]] else []) + Filter(f, xs[1..])
  }

  /** Filtering a sequence extended at the end, as a loop that pushes does. */
  lemma {:induction false} FilterAppend<T>(f: T -> bool, xs: seq<T>, x: T)
    ensures Filter(f, xs + [x]) == Filter(f, xs) + (if f(x) then [x] else [])
    decreases |xs|
  {
    if xs != [] {
      assert (xs + [x])[1..] == xs[1..] + [x];
      FilterAppend(f, xs[1..], x);
    }
  }

  /** A filter keeps a sequence all of whose elements satisfy the predicate. */
  lemma {:induction false} FilterAll<T>(f: T -> bool, xs: seq<T>)
    requires forall k :: 0 <= k < |xs| ==> f(xs[k])
    ensures Filter(f, xs) == xs
    decreases |xs|
  {
    if xs != [] {
      assert forall k :: 0 <= k < |xs[1..]| ==> xs[1..][k] == xs[k + 1];
      FilterAll(f, xs[1..]);
    }
  }

  /** A filter keeps exactly the elements satisfying the predicate. */
  lemma {:induction false} FilterMembers<T>(f: T -> bool, xs: seq<T>, y: T)
    ensures y in Filter(f, xs) <==> y in xs && f(y)
    decreases |xs|
  {
    if xs != [] {
      FilterMembers(f, xs[1..], y);
      assert xs == [xs[0]] + xs[1..];
    }
  }

  /** A filter keeps every occurrence of an element satisfying the predicate and none of the others. */
  lemma {:induction false} FilterCounts<T>(f: T -> bool, xs: seq<T>, y: T)
    ensures multiset(Filter(f, xs))[y] == if f(y) then multiset(xs)[y] else 0
    decreases |xs|
  {
    if xs != [] {
      FilterCounts(f, xs[1..], y);
      assert xs == [xs[0]] + xs[1..];
      assert multiset(xs) == multiset([xs[0]]) + multiset(xs[1..]);
      var head := if f(xs[0]) then [xs[0]] else [];
      assert multiset(Filter(f, xs)) == multiset(head) + multiset(Filter(f, xs[1..]));
    }
  }

  /** `ys` is obtained from `xs` by deleting elements, keeping the order of the rest. */
  ghost predicate IsSubsequence<T>(ys: seq<T>, xs: seq<T>)
    decreases |xs|
  {
    ys == [] || (xs != [] && ((ys[0] == xs[0] && IsSubsequence(ys[1..], xs[1..])) || IsSubsequence(ys, xs[1..])))
  }

  lemma {:induction false} FilterIsSubsequence<T>(f: T -> bool, xs: seq<T>)
    ensures IsSubsequence(Filter(f, xs), xs)
    decreases |xs|
  {
    if xs != [] {
      FilterIsSubsequence(f, xs[1..]);
      if f(xs[0]) {
        assert Filter(f, xs)[1..] == Filter(f, xs[1..]);
      } else {
        assert Filter(f, xs) == Filter(f, xs[1..]);
      }
    }
  }

  /**
   * The stable pass of both `removeDuplicates`: walk the sequence, keep an element
   * when its key is not yet in `seen`, and add the key.
   */
  function DedupeFrom<T>(xs: seq<T>, key: T -> string, seen: set<string>): (r: seq<T>)
    ensures |r| <= |xs|
    ensures forall k :: 0 <= k < |r| ==> key(r[k]) !in seen
    ensures forall y :: y in r ==> y in xs
    decreases |xs|
  {
    if xs == [] then []
    else if key(xs[0]) in seen then DedupeFrom(xs[1..], key, seen)
    else [xs[0]] + DedupeFrom(xs[1..], key, seen + {key(xs[0])})
  }

  /** De-duplication starting with nothing seen. */
  function Dedupe<T>(xs: seq<T>, key: T -> string): seq<T> {
    DedupeFrom(xs, key, {})
  }

  /** No two elements share a key. */
  predicate KeysDistinct<T>(xs: seq<T>, key: T -> string) {
    forall i, j :: 0 <= i < j < |xs| ==> key(xs[i]) != key(xs[j])
  }

  /** Index `i` holds the first element of `xs` with its key, and that key is not in `seen`. */
  predicate FirstOfKey<T>(xs: seq<T>, key: T -> string, seen: set<string>, i: int) {
    0 <= i < |xs| && key(xs[i]) !in seen && forall j :: 0 <= j < i ==> key(xs[j]) != key(xs[i])
  }

  lemma {:induction false} DedupeFromDistinct<T>(xs: seq<T>, key: T -> string, seen: set<string>)
    ensures KeysDistinct(DedupeFrom(xs, key, seen), key)
    decreases |xs|
  {
    if xs != [] {
      if key(xs[0]) in seen {
        DedupeFromDistinct(xs[1..], key, seen);
      } else {
        DedupeFromDistinct(xs[1..], key, seen + {key(xs[0])});
      }
    }
  }

  /** De-duplication leaves a sequence with distinct fresh keys unchanged. */
  lemma {:induction false} DedupeFromOfDistinct<T>(ys: seq<T>, key: T -> string, seen: set<string>)
    requires KeysDistinct(ys, key)
    requires forall k :: 0 <= k < |ys| ==> key(ys[k]) !in seen
    ensures DedupeFrom(ys, key, seen) == ys
    decreases |ys|
  {
    if ys != [] {
      DedupeFromOfDistinct(ys[1..], key, seen + {key(ys[0])});
    }
  }

  /** The output of a de-duplication has pairwise distinct keys. */
  lemma DedupeDistinct<T>(xs: seq<T>, key: T -> string)
    ensures KeysDistinct(Dedupe(xs, key), key)
  {
    DedupeFromDistinct(xs, key, {});
  }

  /** De-duplicating twice is the same as de-duplicating once. */
  lemma DedupeIdempotent<T>(xs: seq<T>, key: T -> string)
    ensures Dedupe(Dedupe(xs, key), key) == Dedupe(xs, key)
  {
    DedupeFromDistinct(xs, key, {});
    DedupeFromOfDistinct(Dedupe(xs, key), key, {});
  }

  lemma {:induction false} DedupeFromIsSubsequence<T>(xs: seq<T>, key: T -> string, seen: set<string>)
    ensures IsSubsequence(DedupeFrom(xs, key, seen), xs)
    decreases |xs|
  {
    if xs != [] {
      if key(xs[0]) in seen {
        DedupeFromIsSubsequence(xs[1..], key, seen);
      } else {
        var r := DedupeFrom(xs, key, seen);
        DedupeFromIsSubsequence(xs[1..], key, seen + {key(xs[0])});
        assert r[1..] == DedupeFrom(xs[1..], key, seen + {key(xs[0])});
      }
    }
  }

  /** Each element a de-duplication keeps is the first of its key in the input. */
  lemma {:induction false} KeptIsFirst<T>(xs: seq<T>, key: T -> string, seen: set<string>, k: int)
    requires 0 <= k < |DedupeFrom(xs, key, seen)|
    ensures exists i :: FirstOfKey(xs, key, seen, i) && xs[i] == DedupeFrom(xs, key, seen)[k]
    decreases |xs|
  {
    var r := DedupeFrom(xs, key, seen);
    var rest := xs[1..];
    if key(xs[0]) in seen {
      KeptIsFirst(rest, key, seen, k);
      var i :| FirstOfKey(rest, key, seen, i) && rest[i] == r[k];
      assert FirstOfKey(xs, key, seen, i + 1);
    } else if k == 0 {
      assert FirstOfKey(xs, key, seen, 0);
    } else {
      var seen' := seen + {key(xs[0])};
      assert r[k] == DedupeFrom(rest, key, seen')[k - 1];
      KeptIsFirst(rest, key, seen', k - 1);
      var i :| FirstOfKey(rest, key, seen', i) && rest[i] == r[k];
      assert FirstOfKey(xs, key, seen, i + 1);
    }
  }

  /** Each element that is the first of its key in the input is kept. */
  lemma {:induction false} FirstIsKept<T>(xs: seq<T>, key: T -> string, seen: set<string>, i: int)
    requires FirstOfKey(xs, key, seen, i)
    ensures exists k :: 0 <= k < |DedupeFrom(xs, key, seen)| && DedupeFrom(xs, key, seen)[k] == xs[i]
    decreases |xs|
  {
    var r := DedupeFrom(xs, key, seen);
    var rest := xs[1..];
    if key(xs[0]) in seen {
      assert FirstOfKey(rest, key, seen, i - 1);
      FirstIsKept(rest, key, seen, i - 1);
    } else if i == 0 {
      assert r[0] == xs[0];
    } else {
      var seen' := seen + {key(xs[0])};
      assert FirstOfKey(rest, key, seen', i - 1);
      FirstIsKept(rest, key, seen', i - 1);
      var k :| 0 <= k < |DedupeFrom(rest, key, seen')| && DedupeFrom(rest, key, seen')[k] == rest[i - 1];
      assert r[k + 1] == xs[i];
    }
  }

  /**
   * `Dedupe` keeps exactly the first element per key: everything kept is the first
   * of its key, and every first-of-its-key element is kept.
   */
  lemma DedupeKeepsFirst<T>(xs: seq<T>, key: T -> string)
    ensures forall k :: 0 <= k < |Dedupe(xs, key)| ==>
              exists i :: FirstOfKey(xs, key, {}, i) && xs[i] == Dedupe(xs, key)[k]
    ensures forall i :: FirstOfKey(xs, key, {}, i) ==>
              exists k :: 0 <= k < |Dedupe(xs, key)| && Dedupe(xs, key)[k] == xs[i]
  {
    var r := Dedupe(xs, key);
    assert r == DedupeFrom(xs, key, {});
    forall k | 0 <= k < |Dedupe(xs, key)|
      ensures exists i :: FirstOfKey(xs, key, {}, i) && xs[i] == Dedupe(xs, key)[k]
    {
      KeptIsFirst(xs, key, {}, k);
    }
    forall i | FirstOfKey(xs, key, {}, i)
      ensures exists k :: 0 <= k < |Dedupe(xs, key)| && Dedupe(xs, key)[k] == xs[i]
    {
      FirstIsKept(xs, key, {}, i);
    }
  }

  /** Removing position `m` removes one occurrence of its element. */
  lemma MultisetRemoveAt<T>(xs: seq<T>, m: int)
    requires 0 <= m < |xs|
    ensures multiset(xs[..m] + xs[m + 1..]) == multiset(xs) - multiset{xs[m]}
  {
    assert xs == xs[..m] + [xs[m]] + xs[m + 1..];
  }

  /** Removing a position keeps distinct keys distinct, and no remaining key equals the removed one. */
  lemma KeysDistinctRemoveAt<T>(xs: seq<T>, m: int, key: T -> string, rest: seq<T>)
    requires 0 <= m < |xs| && KeysDistinct(xs, key)
    requires rest == xs[..m] + xs[m + 1..]
    ensures KeysDistinct(rest, key)
    ensures forall p :: 0 <= p < |rest| ==> key(rest[p]) != key(xs[m])
  {
    forall i | 0 <= i < |rest|
      ensures rest[i] == xs[if i < m then i else i + 1]
    {
    }
  }

  /** Reordering a sequence keeps its keys pairwise distinct. */
  lemma {:induction false} KeysDistinctPermutation<T>(xs: seq<T>, ys: seq<T>, key: T -> string)
    requires multiset(xs) == multiset(ys)
    requires KeysDistinct(xs, key)
    ensures KeysDistinct(ys, key)
    decreases |ys|
  {
    if ys != [] {
      var y := ys[0];
      assert y in multiset(xs);
      var m :| 0 <= m < |xs| && xs[m] == y;
      var rest := xs[..m] + xs[m + 1..];
      var tail := ys[1..];
      PermutationWithoutFirst(xs, ys, m);
      KeysDistinctRemoveAt(xs, m, key, rest);
      KeysDistinctPermutation(rest, tail, key);
      KeyAbsentFromPermutation(rest, tail, key, key(y));
      ConsDistinct(y, tail, key);
      assert ys == [y] + tail;
    }
  }

  /** Taking the first element off a reordering, and the same element off the original, leaves a reordering. */
  lemma PermutationWithoutFirst<T>(xs: seq<T>, ys: seq<T>, m: int)
    requires multiset(xs) == multiset(ys)
    requires ys != [] && 0 <= m < |xs| && xs[m] == ys[0]
    ensures multiset(xs[..m] + xs[m + 1..]) == multiset(ys[1..])
  {
    MultisetRemoveAt(xs, m);
    assert ys == [ys[0]] + ys[1..];
    assert multiset(ys[1..]) == multiset(ys) - multiset{ys[0]};
  }

  /** A key no element of `xs` has is had by no element of a reordering of `xs`. */
  lemma KeyAbsentFromPermutation<T>(xs: seq<T>, ys: seq<T>, key: T -> string, k: string)
    requires multiset(xs) == multiset(ys)
    requires forall p :: 0 <= p < |xs| ==> key(xs[p]) != k
    ensures forall j :: 0 <= j < |ys| ==> key(ys[j]) != k
  {
    forall j | 0 <= j < |ys|
      ensures key(ys[j]) != k
    {
      assert ys[j] in multiset(xs);
      var p :| 0 <= p < |xs| && xs[p] == ys[j];
    }
  }

  /** Putting an element with a new key in front keeps the keys distinct. */
  lemma ConsDistinct<T>(y: T, tail: seq<T>, key: T -> string)
    requires KeysDistinct(tail, key)
    requires forall j :: 0 <= j < |tail| ==> key(tail[j]) != key(y)
    ensures KeysDistinct([y] + tail, key)
  {
    var ys := [y] + tail;
    forall i, j | 0 <= i < j < |ys|
      ensures key(ys[i]) != key(ys[j])
    {
      assert ys[j] == tail[j - 1];
      if i > 0 { assert ys[i] == tail[i - 1]; }
    }
  }

  /** `xs.slice(-n)` for n > 0: the last `n` elements, all of them when there are fewer. */
  function LastN<T>(xs: seq<T>, n: nat): (r: seq<T>)
    ensures |r| == if |xs| < n then |xs| else n
    ensures xs == xs[..|xs| - |r|] + r
  {
    if |xs| <= n then xs else xs[|xs| - n..]
  }

  /** Trimming to the last `n` a second time changes nothing. */
  lemma LastNIdempotent<T>(xs: seq<T>, n: nat)
    ensures LastN(LastN(xs, n), n) == LastN(xs, n)
  {
  }

  /** A filter is empty exactly when no element satisfies the predicate. */
  lemma {:induction false} FilterEmpty<T>(f: T -> bool, xs: seq<T>)
    ensures Filter(f, xs) == [] <==> forall k :: 0 <= k < |xs| ==> !f(xs[k])
    decreases |xs|
  {
    if xs != [] {
      FilterEmpty(f, xs[1..]);
      if !f(xs[0]) {
        assert forall k :: 0 < k < |xs| ==> xs[k] == xs[1..][k - 1];
      }
    }
  }

  /**
   * `Filter(f, xs)[0]`: the head of a non-empty filter is the first element
   * that satisfies `f`.
   */
  lemma {:induction false} FilterHead<T>(f: T -> bool, xs: seq<T>)
    requires Filter(f, xs) != []
    ensures exists i :: 0 <= i < |xs| && xs[i] == Filter(f, xs)[0] && f(xs[i]) && forall k :: 0 <= k < i ==> !f(xs[k])
    decreases |xs|
  {
    if !f(xs[0]) {
      assert Filter(f, xs) == Filter(f, xs[1..]);
      FilterHead(f, xs[1..]);
      var i :| 0 <= i < |xs[1..]| && xs[1..][i] == Filter(f, xs)[0] && f(xs[1..][i])
               && forall k :: 0 <= k < i ==> !f(xs[1..][k]);
      assert xs[i + 1] == xs[1..][i];
      forall k | 0 < k < i + 1 ensures !f(xs[k]) {
        assert xs[k] == xs[1..][k - 1];
      }
    } else {
      assert xs[0] == Filter(f, xs)[0];
    }
  }
}
