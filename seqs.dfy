/** The array operations the upload components use (`find`, `findIndex`,
    `push(...)`, `new Set`, building an object key by key), as functions on
    sequences with the facts the rest of the model needs. */
module Seqs {
  import opened Wrappers

  /** `Array.prototype.findIndex`: the first position whose element satisfies `p`. */
  function FirstIndex<T>(s: seq<T>, p: T -> bool): (r: Option<nat>)
    ensures r.Some? ==> r.value < |s| && p(s[r.value])
    ensures r.Some? ==> forall j :: 0 <= j < r.value ==> !p(s[j])
    ensures r.None? ==> forall j :: 0 <= j < |s| ==> !p(s[j])
  {
    if s == [] then None
    else if p(s[0]) then Some(0)
    else match FirstIndex(s[1..], p)
      case None => None
      case Some(i) => Some(i + 1)
  }

  /** `Array.prototype.find`: the first element that satisfies `p`. */
  function Find<T>(s: seq<T>, p: T -> bool): (r: Option<T>)
    ensures r.Some? ==> r.value in s && p(r.value)
    ensures r.None? <==> forall j :: 0 <= j < |s| ==> !p(s[j])
  {
    match FirstIndex(s, p)
    case None => None
    case Some(i) => Some(s[i])
  }

  /** `find` returns the element at the first position that satisfies `p`. */
  lemma FindFirst<T>(s: seq<T>, p: T -> bool, i: nat)
    requires i < |s| && p(s[i])
    requires forall j :: 0 <= j < i ==> !p(s[j])
    ensures Find(s, p) == Some(s[i])
  {
    assert FirstIndex(s, p).Some?;
  }

  /** The concatenation of `ss` in order, as repeated `push(...part)` builds it. */
  function Flatten<T>(ss: seq<seq<T>>): seq<T>
  {
    if ss == [] then [] else Flatten(ss[..|ss| - 1]) + ss[|ss| - 1]
  }

  /** The sum of the lengths of the parts. */
  function TotalLength<T>(ss: seq<seq<T>>): nat
  {
    if ss == [] then 0 else TotalLength(ss[..|ss| - 1]) + |ss[|ss| - 1]|
  }

  lemma {:induction false} FlattenLength<T>(ss: seq<seq<T>>)
    ensures |Flatten(ss)| == TotalLength(ss)
  {
    if ss != [] {
      FlattenLength(ss[..|ss| - 1]);
    }
  }

  /** Flattening two runs of parts one after the other. */
  lemma {:induction false} FlattenAppend<T>(a: seq<seq<T>>, b: seq<seq<T>>)
    ensures Flatten(a + b) == Flatten(a) + Flatten(b)
    decreases |b|
  {
    if b == [] {
      assert a + b == a;
    } else {
      var front := b[..|b| - 1];
      FlattenAppend(a, front);
      assert (a + b)[..|a + b| - 1] == a + front;
      assert (a + b)[|a + b| - 1] == b[|b| - 1];
    }
  }

  /** Part `i` sits in the concatenation right after the parts before it. */
  lemma FlattenSlot<T>(ss: seq<seq<T>>, i: nat)
    requires i < |ss|
    ensures var at := |Flatten(ss[..i])|;
      at + |ss[i]| <= |Flatten(ss)| && Flatten(ss)[at..at + |ss[i]|] == ss[i]
  {
    assert ss == ss[..i] + ([ss[i]] + ss[i + 1..]);
    FlattenAppend(ss[..i], [ss[i]] + ss[i + 1..]);
    FlattenCons(ss[i], ss[i + 1..]);
  }

  /** Flattening a part followed by the rest. */
  lemma {:induction false} FlattenCons<T>(a: seq<T>, ss: seq<seq<T>>)
    ensures Flatten([a] + ss) == a + Flatten(ss)
    decreases |ss|
  {
    if ss == [] {
      assert [a] + ss == [a];
      assert [a][..0] == [];
    } else {
      var last := ss[|ss| - 1];
      var front := ss[..|ss| - 1];
      assert ([a] + ss)[..|ss|] == [a] + front;
      assert ([a] + ss)[|ss|] == last;
      assert Flatten([a] + ss) == Flatten([a] + front) + last;
      FlattenCons(a, front);
      assert Flatten(ss) == Flatten(front) + last;
    }
  }

  /** The parts `f(0)`, ..., `f(n - 1)` one after the other. */
  function Concat<T>(f: nat -> seq<T>, n: nat): seq<T>
  {
    if n == 0 then [] else Concat(f, n - 1) + f(n - 1)
  }

  /** A value that no part but part `r` holds occurs in the concatenation as
      often as in part `r` when that part is included, and not at all
      otherwise. */
  lemma {:induction false} ConcatCount<T>(f: nat -> seq<T>, n: nat, x: T, r: nat)
    requires forall q: nat :: q != r ==> x !in f(q)
    ensures multiset(Concat(f, n))[x] == if r < n then multiset(f(r))[x] else 0
  {
    if n > 0 {
      ConcatCount(f, n - 1, x, r);
      assert multiset(Concat(f, n)) == multiset(Concat(f, n - 1)) + multiset(f(n - 1));
      if r != n - 1 {
        assert x !in f(n - 1);
      }
    }
  }

  predicate NoDuplicates<T(==)>(s: seq<T>)
  {
    forall i, j :: 0 <= i < j < |s| ==> s[i] != s[j]
  }

  /** `Array.from(new Set(s))`: every value of `s` once, in the order of its
      first occurrence. */
  function Distinct<T(==)>(s: seq<T>): (r: seq<T>)
    ensures NoDuplicates(r)
    ensures forall i :: 0 <= i < |s| ==> s[i] in r
    ensures forall i :: 0 <= i < |r| ==> r[i] in s
    ensures |r| <= |s|
  {
    if s == [] then []
    else
      var front := s[..|s| - 1];
      var last := s[|s| - 1];
      assert s == front + [last];
      var d := Distinct(front);
      if last in d then d else d + [last]
  }

  /** The position of the first occurrence of `x` in `s`. */
  function IndexOf<T(==)>(s: seq<T>, x: T): (i: nat)
    requires x in s
    ensures i < |s| && s[i] == x
    ensures forall j :: 0 <= j < i ==> s[j] != x
  {
    var front := s[..|s| - 1];
    if x in front then IndexOf(front, x) else |s| - 1
  }

  /** The distinct values come in the order of their first occurrence. */
  lemma {:induction false} DistinctFirstSeen<T>(s: seq<T>)
    ensures forall i, j :: 0 <= i < j < |Distinct(s)| ==> IndexOf(s, Distinct(s)[i]) < IndexOf(s, Distinct(s)[j])
  {
    if s != [] {
      var front := s[..|s| - 1];
      var last := s[|s| - 1];
      var d := Distinct(front);
      DistinctFirstSeen(front);
      assert forall x :: x in d ==> x in front && IndexOf(s, x) == IndexOf(front, x);
      if last !in d {
        assert last !in front;
        assert IndexOf(s, last) == |s| - 1;
        assert Distinct(s) == d + [last];
      }
    }
  }

  /** A value occurs once in a sequence that holds it at exactly one position. */
  lemma MultisetOnce<T>(s: seq<T>, x: T, i: nat)
    requires i < |s| && s[i] == x
    requires forall j :: 0 <= j < |s| && j != i ==> s[j] != x
    ensures multiset(s)[x] == 1
  {
    assert s == s[..i] + [x] + s[i + 1..];
    assert x !in s[..i];
    assert x !in s[i + 1..];
    assert multiset(s) == multiset(s[..i]) + multiset([x]) + multiset(s[i + 1..]);
  }

  /** `s.slice(0, n)`. */
  function Take<T>(s: seq<T>, n: nat): (r: seq<T>)
    ensures |r| == if |s| < n then |s| else n
    ensures r == s[..|r|]
  {
    if |s| < n then s else s[..n]
  }

  lemma TakeKeepsNoDuplicates<T>(s: seq<T>, n: nat)
    requires NoDuplicates(s)
    ensures NoDuplicates(Take(s, n))
  {
  }

  /** The object obtained by assigning `obj[k] = v` for every `Some((k, v))` of
      `ws` in turn, starting from `{}`; `None` stands for a skipped step. */
  function Assemble<K, V>(ws: seq<Option<(K, V)>>): map<K, V>
  {
    if ws == [] then map[]
    else
      var acc := Assemble(ws[..|ws| - 1]);
      match ws[|ws| - 1]
      case None => acc
      case Some(w) => acc[w.0 := w.1]
  }

  /** A key is present exactly when some step wrote it. */
  lemma {:induction false} AssembleKeys<K, V>(ws: seq<Option<(K, V)>>, k: K)
    ensures k in Assemble(ws) <==> exists j :: 0 <= j < |ws| && ws[j].Some? && ws[j].value.0 == k
  {
    if ws != [] {
      var front := ws[..|ws| - 1];
      AssembleKeys(front, k);
      if k in Assemble(front) {
        var j :| 0 <= j < |front| && front[j].Some? && front[j].value.0 == k;
        assert ws[j] == front[j];
      }
      forall j | 0 <= j < |ws| - 1
        ensures ws[j] == front[j]
      {
      }
    }
  }

  /** The value under a key is the one written by the last step that wrote it. */
  lemma {:induction false} AssembleLastWins<K, V>(ws: seq<Option<(K, V)>>, j: nat)
    requires j < |ws| && ws[j].Some?
    requires forall j' :: j < j' < |ws| && ws[j'].Some? ==> ws[j'].value.0 != ws[j].value.0
    ensures ws[j].value.0 in Assemble(ws)
    ensures Assemble(ws)[ws[j].value.0] == ws[j].value.1
  {
    var front := ws[..|ws| - 1];
    if j < |ws| - 1 {
      assert front[j] == ws[j];
      forall j' | j < j' < |front| && front[j'].Some?
        ensures front[j'].value.0 != front[j].value.0
      {
        assert front[j'] == ws[j'];
      }
      AssembleLastWins(front, j);
    }
  }

  /** The results `g` gives, skipping `None`, in order: a `forEach` that
      pushes at most one value per element. */
  function Collect<T, U>(xs: seq<T>, g: T -> Option<U>): seq<U>
  {
    if xs == [] then []
    else
      Collect(xs[..|xs| - 1], g)
      + (match g(xs[|xs| - 1]) case None => [] case Some(u) => [u])
  }

  /** Visiting one more element appends its result, if any. */
  lemma CollectStep<T, U>(xs: seq<T>, j: nat, g: T -> Option<U>)
    requires j < |xs|
    ensures Collect(xs[..j + 1], g)
      == Collect(xs[..j], g) + (match g(xs[j]) case None => [] case Some(u) => [u])
  {
    assert xs[..j + 1][..j] == xs[..j];
  }

  /** At most one value per element. */
  lemma {:induction false} CollectLength<T, U>(xs: seq<T>, g: T -> Option<U>)
    ensures |Collect(xs, g)| <= |xs|
  {
    if xs != [] {
      CollectLength(xs[..|xs| - 1], g);
    }
  }

  /** The values collected are exactly the results of the elements. */
  lemma {:induction false} CollectMembers<T, U>(xs: seq<T>, g: T -> Option<U>, u: U)
    ensures u in Collect(xs, g) <==> exists j :: 0 <= j < |xs| && g(xs[j]) == Some(u)
  {
    if xs != [] {
      var n := |xs| - 1;
      var front := xs[..n];
      CollectMembers(front, g, u);
      var tail := match g(xs[n]) case None => [] case Some(v) => [v];
      assert Collect(xs, g) == Collect(front, g) + tail;
      assert u in tail <==> g(xs[n]) == Some(u);
      if u in Collect(front, g) {
        var j :| 0 <= j < |front| && g(front[j]) == Some(u);
        assert front[j] == xs[j];
      }
      if exists j :: 0 <= j < |xs| && g(xs[j]) == Some(u) {
        var j :| 0 <= j < |xs| && g(xs[j]) == Some(u);
        if j < n {
          assert front[j] == xs[j];
        }
      }
    }
  }

  /** Nothing is collected exactly when every element gives `None`. */
  lemma CollectEmpty<T, U>(xs: seq<T>, g: T -> Option<U>)
    ensures Collect(xs, g) == [] <==> forall j :: 0 <= j < |xs| ==> g(xs[j]).None?
  {
    var c := Collect(xs, g);
    if c != [] {
      CollectMembers(xs, g, c[0]);
    }
    if j :| 0 <= j < |xs| && g(xs[j]).Some? {
      CollectMembers(xs, g, g(xs[j]).value);
    }
  }
}
