/** The array idioms app.js applies to its meal, dish and stage lists:
    `findIndex`/`find` by id, `filter`, and the remove-then-reinsert pair of
    `splice` calls that the move buttons use. */
module Lists {
  import opened Types

  /** `s.findIndex(x => key(x) === id)`: the first position carrying `id`, or -1. */
  function IndexOf<T>(s: seq<T>, key: T -> Id, id: Id): (r: int)
    ensures -1 <= r < |s|
    ensures r >= 0 ==> key(s[r]) == id && forall j :: 0 <= j < r ==> key(s[j]) != id
    ensures r < 0 ==> forall j :: 0 <= j < |s| ==> key(s[j]) != id
  {
    if s == [] then -1
    else if key(s[0]) == id then 0
    else
      var k := IndexOf(s[1..], key, id);
      if k < 0 then -1 else k + 1
  }

  /** `s.filter(p)`: the elements satisfying `p`, in their order. */
  function Keep<T(!new)>(s: seq<T>, p: T -> bool): (r: seq<T>)
    ensures |r| <= |s|
    ensures forall k :: 0 <= k < |r| ==> p(r[k])
    ensures forall x :: multiset(r)[x] == if p(x) then multiset(s)[x] else 0
  {
    if s == [] then []
    else
      var prior := s[..|s| - 1];
      assert s == prior + [s[|s| - 1]];
      Keep(prior, p) + (if p(s[|s| - 1]) then [s[|s| - 1]] else [])
  }

  /** When every element passes, the filter keeps the list as it is. */
  lemma {:induction false} KeepAll<T(!new)>(s: seq<T>, p: T -> bool)
    requires forall k :: 0 <= k < |s| ==> p(s[k])
    ensures Keep(s, p) == s
    decreases |s|
  {
    if s != [] {
      var prior := s[..|s| - 1];
      var last := s[|s| - 1];
      assert p(last);
      KeepAll(prior, p);
      assert Keep(s, p) == Keep(prior, p) + [last];
      assert prior + [last] == s;
    }
  }

  /** One more element is kept at the end exactly when it passes. */
  lemma KeepSnoc<T(!new)>(s: seq<T>, x: T, p: T -> bool)
    ensures Keep(s + [x], p) == Keep(s, p) + (if p(x) then [x] else [])
  {
    var sx := s + [x];
    assert sx[..|sx| - 1] == s && sx[|sx| - 1] == x;
  }

  /** The filter of a concatenation is the filters of its parts, one after
      the other: what is kept keeps its order. */
  lemma {:induction false} KeepAppend<T(!new)>(a: seq<T>, b: seq<T>, p: T -> bool)
    ensures Keep(a + b, p) == Keep(a, p) + Keep(b, p)
    decreases |b|
  {
    if b == [] {
      assert a + b == a;
    } else {
      var prior, last := b[..|b| - 1], b[|b| - 1];
      assert b == prior + [last];
      assert a + b == (a + prior) + [last];
      KeepAppend(a, prior, p);
      ConcatAssoc(Keep(a, p), Keep(prior, p), if p(last) then [last] else []);
      KeepSnoc(prior, last, p);
      KeepSnoc(a + prior, last, p);
    }
  }

  /** Concatenation is associative. */
  lemma ConcatAssoc<T>(ka: seq<T>, kp: seq<T>, tail: seq<T>)
    ensures (ka + kp) + tail == ka + (kp + tail)
  {
  }

  /** Every element that passes is among those kept. */
  lemma KeepPassing<T(!new)>(s: seq<T>, p: T -> bool)
    ensures forall k :: 0 <= k < |s| && p(s[k]) ==> s[k] in Keep(s, p)
  {
    forall k | 0 <= k < |s| && p(s[k])
      ensures s[k] in Keep(s, p)
    {
      assert s[k] in multiset(s);
      assert s[k] in multiset(Keep(s, p));
    }
  }

  /** The test `x => key(x) !== id` of the filters by id. */
  function Lacks<T>(key: T -> Id, id: Id): T -> bool
  {
    x => key(x) != id
  }

  /** `s.filter(x => key(x) !== id)`: every element carrying `id` removed. */
  function Without<T(!new)>(s: seq<T>, key: T -> Id, id: Id): (r: seq<T>)
    ensures forall k :: 0 <= k < |r| ==> key(r[k]) != id
    ensures forall x :: multiset(r)[x] == if key(x) == id then 0 else multiset(s)[x]
    ensures IndexOf(s, key, id) < 0 ==> r == s
    ensures IndexOf(s, key, id) >= 0 ==> |r| < |s|
  {
    var r := Keep(s, Lacks(key, id));
    WithoutShrinks(s, key, id, r);
    if IndexOf(s, key, id) < 0 then
      KeepAll(s, Lacks(key, id));
      r
    else r
  }

  /** The filter by id keeps the order of what remains: a list filtered
      piece by piece gives the pieces' results in turn, and one element
      stays exactly when it does not carry the id. */
  lemma WithoutAppend<T(!new)>(a: seq<T>, b: seq<T>, key: T -> Id, id: Id)
    ensures Without(a + b, key, id) == Without(a, key, id) + Without(b, key, id)
    ensures forall x :: Without([x], key, id) == if key(x) == id then [] else [x]
  {
    KeepAppend(a, b, Lacks(key, id));
    forall x
      ensures Without([x], key, id) == if key(x) == id then [] else [x]
    {
      assert [x][..0] == [];
    }
  }

  lemma WithoutShrinks<T>(s: seq<T>, key: T -> Id, id: Id, r: seq<T>)
    requires forall x :: multiset(r)[x] == if key(x) == id then 0 else multiset(s)[x]
    ensures IndexOf(s, key, id) >= 0 ==> |r| < |s|
  {
    var i := IndexOf(s, key, id);
    if i >= 0 {
      assert multiset(r)[s[i]] == 0 < multiset(s)[s[i]];
      var d := multiset(s) - multiset(r);
      assert multiset(r) + d == multiset(s);
      assert s[i] in d;
      assert |multiset(s)| == |multiset(r)| + |d|;
    }
  }

  /** `const [item] = arr.splice(from, 1); arr.splice(to, 0, item);` */
  function MoveItem<T>(s: seq<T>, from: nat, to: nat): (r: seq<T>)
    requires from < |s| && to < |s|
    ensures |r| == |s| && r[to] == s[from]
  {
    var rest := s[..from] + s[from + 1..];
    rest[..to] + [s[from]] + rest[to..]
  }

  /** The move keeps every element: the result is a permutation. */
  lemma MoveItemPermutes<T>(s: seq<T>, from: nat, to: nat)
    requires from < |s| && to < |s|
    ensures multiset(MoveItem(s, from, to)) == multiset(s)
  {
    var rest := s[..from] + s[from + 1..];
    assert s == s[..from] + [s[from]] + s[from + 1..];
    assert rest == rest[..to] + rest[to..];
    calc {
      multiset(MoveItem(s, from, to));
      multiset(rest[..to]) + multiset{s[from]} + multiset(rest[to..]);
      multiset(rest) + multiset{s[from]};
      multiset(s);
    }
  }

  /** Positions outside the range between `from` and `to` keep their
      element; those inside shift by one towards `from`. */
  lemma MoveItemShifts<T>(s: seq<T>, from: nat, to: nat)
    requires from < |s| && to < |s|
    ensures forall k :: 0 <= k < |s| && k < from && k < to ==> MoveItem(s, from, to)[k] == s[k]
    ensures forall k :: from < k < |s| && to < k ==> MoveItem(s, from, to)[k] == s[k]
    ensures from < to ==> forall k :: from <= k < to ==> MoveItem(s, from, to)[k] == s[k + 1]
    ensures to < from ==> forall k :: to < k <= from ==> MoveItem(s, from, to)[k] == s[k - 1]
  {
  }

  /** Moving an item one place up or down exchanges it with its neighbour. */
  lemma MoveAdjacentIsSwap<T>(s: seq<T>, from: nat, to: nat)
    requires from < |s| && to < |s|
    requires to == from + 1 || from == to + 1
    ensures MoveItem(s, from, to) == s[from := s[to]][to := s[from]]
  {
    var r := MoveItem(s, from, to);
    var w := s[from := s[to]][to := s[from]];
    MoveItemShifts(s, from, to);
    assert forall k :: 0 <= k < |s| ==> r[k] == w[k];
  }

  /** `moveDish`/`moveStage` on one list: nothing happens (None) for an
      unknown id or a target position outside the list; otherwise the item
      is taken out and put back at `idx + dir`. */
  function MoveById<T>(s: seq<T>, key: T -> Id, id: Id, dir: int): (r: Option<seq<T>>)
    ensures var i := IndexOf(s, key, id);
      r.None? <==> (i < 0 || i + dir < 0 || i + dir >= |s|)
    ensures r.Some? ==> |r.value| == |s| && multiset(r.value) == multiset(s)
    ensures r.Some? ==> var i := IndexOf(s, key, id);
      r.value[i + dir] == s[i] && key(r.value[i + dir]) == id
    ensures r.Some? && (dir == 1 || dir == -1) ==> var i := IndexOf(s, key, id);
      r.value == s[i := s[i + dir]][i + dir := s[i]]
  {
    var i := IndexOf(s, key, id);
    if i < 0 || i + dir < 0 || i + dir >= |s| then None
    else
      var r := MoveItem(s, i, i + dir);
      MoveItemPermutes(s, i, i + dir);
      assert dir == 1 || dir == -1 ==> r == s[i := s[i + dir]][i + dir := s[i]] by {
        if dir == 1 || dir == -1 { MoveAdjacentIsSwap(s, i, i + dir); }
      }
      Some(r)
  }

  /** A list without repeated elements holds each element at most once. */
  lemma {:induction false} DistinctMultiplicity<T>(s: seq<T>, x: T)
    requires forall i, j :: 0 <= i < j < |s| ==> s[i] != s[j]
    ensures multiset(s)[x] <= 1
  {
    if s != [] {
      var prior := s[..|s| - 1];
      assert s == prior + [s[|s| - 1]];
      DistinctMultiplicity(prior, x);
      if x == s[|s| - 1] {
        assert x !in prior;
      }
    }
  }

  /** An element found at two positions occurs at least twice. */
  lemma RepeatMultiplicity<T>(s: seq<T>, i: nat, j: nat)
    requires i < j < |s| && s[i] == s[j]
    ensures multiset(s)[s[i]] >= 2
  {
    assert s == s[..i] + [s[i]] + s[i + 1..j] + [s[j]] + s[j + 1..];
  }

  /** Reordering a list without repeats gives a list without repeats. */
  lemma PermutationDistinct<T>(a: seq<T>, b: seq<T>)
    requires multiset(a) == multiset(b)
    requires forall i, j :: 0 <= i < j < |a| ==> a[i] != a[j]
    ensures forall i, j :: 0 <= i < j < |b| ==> b[i] != b[j]
  {
    forall i, j | 0 <= i < j < |b|
      ensures b[i] != b[j]
    {
      if b[i] == b[j] {
        RepeatMultiplicity(b, i, j);
        DistinctMultiplicity(a, b[i]);
      }
    }
  }

  /** Filtering by two predicates that split a third between them splits
      that third filter's result between the two. */
  lemma KeepSplit<T(!new)>(s: seq<T>, p: T -> bool, q: T -> bool, both: T -> bool)
    requires forall x :: both(x) <==> (p(x) || q(x))
    requires forall x :: !(p(x) && q(x))
    ensures multiset(Keep(s, p)) + multiset(Keep(s, q)) == multiset(Keep(s, both))
    ensures |Keep(s, p)| + |Keep(s, q)| == |Keep(s, both)|
  {
    var a, b, c := Keep(s, p), Keep(s, q), Keep(s, both);
    assert forall x :: (multiset(a) + multiset(b))[x] == multiset(c)[x];
    assert multiset(a) + multiset(b) == multiset(c);
    assert |multiset(a) + multiset(b)| == |multiset(c)|;
  }
}
