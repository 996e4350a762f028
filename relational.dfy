/** The relational vocabulary the controllers are written in: tables of rows
    keyed by auto-increment ids, and the meaning of the SELECT shapes they use
    (WHERE as a filter, JOIN as a partial projection, ORDER BY as a sort,
    GROUP BY with COUNT, LIMIT as a prefix). */
module Relational {

  datatype Option<T> = None | Some(value: T)

  /** An HTTP reply: a status code with a JSON body, or a status code with `{ error }`. */
  datatype Reply<T> = Ok(status: nat, value: T) | Fail(status: nat, error: string)

  datatype RawTable<T> = RawTable(rows: map<nat, T>, next: nat)

  /** A table keyed by auto-increment id: every id in use is below `next`,
      the id the next INSERT receives. */
  type Table<T> = t: RawTable<T> | forall id :: id in t.rows ==> id < t.next
    witness RawTable(map[], 1)

  /** INSERT: the new row gets the counter's id, which no row had before. */
  function Insert<T>(t: Table<T>, row: T): (r: Table<T>)
    ensures t.next !in t.rows
    ensures r.rows.Keys == t.rows.Keys + {t.next} && r.rows[t.next] == row
    ensures forall id :: id in t.rows ==> r.rows[id] == t.rows[id]
    ensures r.next == t.next + 1
  {
    RawTable(t.rows[t.next := row], t.next + 1)
  }

  /** UPDATE ... WHERE id = ?: replaces the row when the id exists and
      otherwise changes nothing. */
  function SetRow<T>(t: Table<T>, id: nat, row: T): (r: Table<T>)
    ensures r.next == t.next && r.rows.Keys == t.rows.Keys
    ensures forall k :: k in t.rows && k != id ==> r.rows[k] == t.rows[k]
    ensures id in t.rows ==> r.rows[id] == row
    ensures id !in t.rows ==> r == t
  {
    if id in t.rows then RawTable(t.rows[id := row], t.next) else t
  }

  /** The rows of `m` with id below `n`, in increasing id order. */
  function Scan<T>(m: map<nat, T>, n: nat): (s: seq<(nat, T)>)
    ensures forall i :: 0 <= i < |s| ==> s[i].0 < n && s[i].0 in m && m[s[i].0] == s[i].1
    ensures forall i, j :: 0 <= i < j < |s| ==> s[i].0 < s[j].0
  {
    if n == 0 then [] else Scan(m, n - 1) + (if n - 1 in m then [(n - 1, m[n - 1])] else [])
  }

  lemma {:induction false} ScanComplete<T>(m: map<nat, T>, n: nat, id: nat)
    requires id < n && id in m
    ensures (id, m[id]) in Scan(m, n)
  {
    if id < n - 1 {
      ScanComplete(m, n - 1, id);
    } else {
      assert Scan(m, n)[|Scan(m, n)| - 1] == (id, m[id]);
    }
  }

  lemma ScanCompleteAll<T>(m: map<nat, T>, n: nat)
    ensures forall id :: id < n && id in m ==> (id, m[id]) in Scan(m, n)
  {
    forall id | id < n && id in m ensures (id, m[id]) in Scan(m, n) {
      ScanComplete(m, n, id);
    }
  }

  /** A full table scan: exactly the table's rows, each once, in id order. */
  function Rows<T(==,!new)>(t: Table<T>): (s: seq<(nat, T)>)
    ensures forall p :: p in s <==> p.0 in t.rows && t.rows[p.0] == p.1
    ensures forall i, j :: 0 <= i < j < |s| ==> s[i].0 < s[j].0
  {
    ScanCompleteAll(t.rows, t.next);
    Scan(t.rows, t.next)
  }

  /** WHERE: the elements satisfying `p`, in their original order. */
  function Filter<A(==,!new)>(s: seq<A>, p: A -> bool): (r: seq<A>)
    ensures |r| <= |s|
    ensures forall x :: x in r <==> x in s && p(x)
  {
    if s == [] then [] else (if p(s[0]) then [s[0]] else []) + Filter(s[1..], p)
  }

  /** WHERE keeps every copy of a satisfying element and no copy of any other. */
  lemma {:induction false} FilterMultiset<A(!new)>(s: seq<A>, p: A -> bool)
    ensures forall x :: multiset(Filter(s, p))[x] == if p(x) then multiset(s)[x] else 0
  {
    if s != [] {
      var head := if p(s[0]) then [s[0]] else [];
      FilterMultiset(s[1..], p);
      assert s == [s[0]] + s[1..];
      assert multiset(s) == multiset([s[0]]) + multiset(s[1..]);
      assert multiset(Filter(s, p)) == multiset(head) + multiset(Filter(s[1..], p));
    }
  }

  /** `a` is an order-preserving subsequence of `b`. */
  predicate IsSubseq<A(==)>(a: seq<A>, b: seq<A>)
    decreases |b|
  {
    |a| <= |b| &&
    (a == [] || (a[0] == b[0] && IsSubseq(a[1..], b[1..])) || IsSubseq(a, b[1..]))
  }

  /** Under a stronger condition a filter keeps a subsequence of what the
      weaker one keeps. */
  lemma {:induction false} FilterStronger<A(!new)>(s: seq<A>, p: A -> bool, q: A -> bool)
    requires forall x :: p(x) ==> q(x)
    ensures IsSubseq(Filter(s, p), Filter(s, q))
  {
    if s != [] {
      FilterStronger(s[1..], p, q);
      var a, b := Filter(s[1..], p), Filter(s[1..], q);
      if p(s[0]) {
        assert Filter(s, p) == [s[0]] + a && Filter(s, q) == [s[0]] + b;
        assert ([s[0]] + a)[1..] == a && ([s[0]] + b)[1..] == b;
      } else if q(s[0]) {
        assert Filter(s, p) == a && Filter(s, q) == [s[0]] + b;
        assert ([s[0]] + b)[1..] == b;
      } else {
        assert Filter(s, p) == a && Filter(s, q) == b;
      }
    }
  }

  /** Filtering with a condition that holds everywhere keeps everything. */
  lemma {:induction false} FilterKeepsAll<A(!new)>(s: seq<A>, p: A -> bool)
    requires forall x :: x in s ==> p(x)
    ensures Filter(s, p) == s
  {
    if s != [] {
      assert s[0] in s;
      forall x | x in s[1..] ensures p(x) { assert x in s; }
      FilterKeepsAll(s[1..], p);
    }
  }

  /** Every filter result is an order-preserving subsequence of its input. */
  lemma FilterIsSubseq<A(!new)>(s: seq<A>, p: A -> bool)
    ensures IsSubseq(Filter(s, p), s)
  {
    FilterStronger(s, p, x => true);
    FilterKeepsAll(s, x => true);
  }

  /** Counts of two conditions that never hold together add up to at most the total. */
  lemma {:induction false} FilterDisjoint<A(!new)>(s: seq<A>, p: A -> bool, q: A -> bool)
    requires forall x :: !(p(x) && q(x))
    ensures |Filter(s, p)| + |Filter(s, q)| <= |s|
  {
    if s != [] {
      FilterDisjoint(s[1..], p, q);
    }
  }

  /** A stronger condition never counts more rows. */
  lemma {:induction false} FilterCountStronger<A(!new)>(s: seq<A>, p: A -> bool, q: A -> bool)
    requires forall x :: p(x) ==> q(x)
    ensures |Filter(s, p)| <= |Filter(s, q)|
  {
    if s != [] {
      FilterCountStronger(s[1..], p, q);
    }
  }

  /** JOIN with projection: `f` yields the output row of an input row, or
      None when the row is dropped (a failed WHERE or inner join). */
  function FilterMap<A(==), B(==)>(s: seq<A>, f: A -> Option<B>): (r: seq<B>)
    ensures |r| <= |s|
    ensures forall y :: y in r ==> exists x :: x in s && f(x) == Some(y)
    ensures forall x :: x in s && f(x).Some? ==> f(x).value in r
  {
    if s == [] then []
    else
      var rest := FilterMap(s[1..], f);
      assert forall x :: x in s ==> x == s[0] || x in s[1..];
      match f(s[0])
      case None => rest
      case Some(y) => [y] + rest
  }

  /** Output rows that carry the id of the row they came from keep the scan's
      increasing id order. */
  lemma {:induction false} FilterMapIds<T, B>(s: seq<(nat, T)>, f: ((nat, T)) -> Option<B>, idOf: B -> nat)
    requires forall i, j :: 0 <= i < j < |s| ==> s[i].0 < s[j].0
    requires forall p :: f(p).Some? ==> idOf(f(p).value) == p.0
    ensures forall i, j :: 0 <= i < j < |FilterMap(s, f)| ==> idOf(FilterMap(s, f)[i]) < idOf(FilterMap(s, f)[j])
  {
    if s != [] {
      var rest := FilterMap(s[1..], f);
      FilterMapIds(s[1..], f, idOf);
      if f(s[0]).Some? {
        TailIdsAbove(s);
        forall y | y in rest ensures s[0].0 < idOf(y) {
          var x :| x in s[1..] && f(x) == Some(y);
        }
        assert FilterMap(s, f) == [f(s[0]).value] + rest;
        ConsSorted(f(s[0]).value, rest, idOf);
      }
    }
  }

  /** A WHERE over rows in increasing id order keeps that order. */
  lemma {:induction false} FilterIds<T(!new)>(s: seq<(nat, T)>, p: ((nat, T)) -> bool)
    requires forall i, j :: 0 <= i < j < |s| ==> s[i].0 < s[j].0
    ensures forall i, j :: 0 <= i < j < |Filter(s, p)| ==> Filter(s, p)[i].0 < Filter(s, p)[j].0
  {
    if s != [] {
      var rest := Filter(s[1..], p);
      FilterIds(s[1..], p);
      if p(s[0]) {
        TailIdsAbove(s);
        assert Filter(s, p) == [s[0]] + rest;
        ConsSorted(s[0], rest, (x: (nat, T)) => x.0);
      }
    }
  }

  /** In a sequence ordered by strictly increasing id, the head's id is below
      every later one. */
  lemma TailIdsAbove<T>(s: seq<(nat, T)>)
    requires s != []
    requires forall i, j :: 0 <= i < j < |s| ==> s[i].0 < s[j].0
    ensures forall x :: x in s[1..] ==> s[0].0 < x.0
  {
    forall x | x in s[1..] ensures s[0].0 < x.0 {
      var k :| 0 <= k < |s[1..]| && s[1..][k] == x;
      assert s[k + 1] == x;
    }
  }

  /** In a sequence ordered by strictly increasing id, the first element has
      the least id of all. */
  lemma HeadIsLeast<T>(s: seq<(nat, T)>, x: (nat, T))
    requires x in s
    requires forall i, j :: 0 <= i < j < |s| ==> s[i].0 < s[j].0
    ensures s[0].0 <= x.0
  {
    var k :| 0 <= k < |s| && s[k] == x;
  }

  /** Putting an element in front of a sequence with strictly increasing ids
      keeps them increasing when its id is below all of theirs. */
  lemma ConsSorted<B>(y: B, rest: seq<B>, idOf: B -> nat)
    requires forall i, j :: 0 <= i < j < |rest| ==> idOf(rest[i]) < idOf(rest[j])
    requires forall z :: z in rest ==> idOf(y) < idOf(z)
    ensures forall i, j :: 0 <= i < j < |[y] + rest| ==> idOf(([y] + rest)[i]) < idOf(([y] + rest)[j])
  {
    var r := [y] + rest;
    forall i, j | 0 <= i < j < |r| ensures idOf(r[i]) < idOf(r[j]) {
      assert r[j] == rest[j - 1] && r[j] in rest;
      if i > 0 {
        assert r[i] == rest[i - 1];
      }
    }
  }

  /** Filtering by a condition inside a filter by a weaker one is filtering
      by the stronger one alone. */
  lemma {:induction false} FilterNested<A(!new)>(s: seq<A>, p: A -> bool, q: A -> bool)
    requires forall x :: p(x) ==> q(x)
    ensures Filter(Filter(s, q), p) == Filter(s, p)
  {
    if s != [] {
      FilterNested(s[1..], p, q);
      var x := [s[0]] + Filter(s[1..], q);
      if q(s[0]) {
        assert Filter(s, q) == x;
        assert x[0] == s[0] && x[1..] == Filter(s[1..], q);
        assert Filter(x, p) == (if p(s[0]) then [s[0]] else []) + Filter(Filter(s[1..], q), p);
      } else {
        assert Filter(s, q) == Filter(s[1..], q);
        assert Filter(s, p) == Filter(s[1..], p);
      }
    }
  }

  /** SELECT COUNT(*) FROM t WHERE p: zero exactly when no row satisfies p. */
  function CountWhere<T(==,!new)>(t: Table<T>, p: ((nat, T)) -> bool): (n: nat)
    ensures n == 0 <==> forall id :: id in t.rows ==> !p((id, t.rows[id]))
  {
    var s := Filter(Rows(t), p);
    if s != [] then assert s[0] in s; |s| else |s|
  }

  /** A stronger condition counts no more rows. */
  lemma CountStronger<T(!new)>(t: Table<T>, p: ((nat, T)) -> bool, q: ((nat, T)) -> bool)
    requires forall x :: p(x) ==> q(x)
    ensures CountWhere(t, p) <= CountWhere(t, q)
  {
    FilterCountStronger(Rows(t), p, q);
  }

  /** Two conditions that exclude each other and both imply a third count
      together no more rows than the third. */
  lemma CountDisjoint<T(!new)>(t: Table<T>, p: ((nat, T)) -> bool, q: ((nat, T)) -> bool, r: ((nat, T)) -> bool)
    requires forall x :: !(p(x) && q(x))
    requires forall x :: p(x) ==> r(x)
    requires forall x :: q(x) ==> r(x)
    ensures CountWhere(t, p) + CountWhere(t, q) <= CountWhere(t, r)
  {
    var s := Rows(t);
    FilterDisjoint(Filter(s, r), p, q);
    FilterNested(s, p, r);
    FilterNested(s, q, r);
  }

  /** The elements of `s` are pairwise distinct. */
  predicate NoDup<A(==)>(s: seq<A>) {
    forall i, j :: 0 <= i < j < |s| ==> s[i] != s[j]
  }

  lemma {:induction false} NoDupMultiplicity<A>(s: seq<A>, x: A)
    requires NoDup(s)
    ensures multiset(s)[x] <= 1
  {
    if s != [] {
      assert s == [s[0]] + s[1..];
      assert NoDup(s[1..]) by {
        forall i, j | 0 <= i < j < |s[1..]| ensures s[1..][i] != s[1..][j] {
          assert s[1..][i] == s[i + 1] && s[1..][j] == s[j + 1];
        }
      }
      NoDupMultiplicity(s[1..], x);
      if x == s[0] {
        forall k | 0 <= k < |s[1..]| ensures s[1..][k] != x {
          assert s[1..][k] == s[k + 1];
        }
        assert x !in s[1..];
      }
    }
  }

  lemma TwoOccurrences<A>(t: seq<A>, i: nat, j: nat)
    requires i < j < |t|
    ensures t[i] == t[j] ==> multiset(t)[t[i]] >= 2
  {
    assert t == t[..j] + t[j..];
    assert t[i] == t[..j][i];
    assert t[j] == t[j..][0];
    assert multiset(t) == multiset(t[..j]) + multiset(t[j..]);
  }

  /** A permutation of a duplicate-free sequence is duplicate-free. */
  lemma PermutationNoDup<A>(s: seq<A>, t: seq<A>)
    requires multiset(s) == multiset(t) && NoDup(s)
    ensures NoDup(t)
  {
    forall i, j | 0 <= i < j < |t| ensures t[i] != t[j] {
      NoDupMultiplicity(s, t[i]);
      TwoOccurrences(t, i, j);
    }
  }

  /** `before(a, b)` says `a` may come before `b`; a sort key in ascending or
      descending order is one. */
  ghost predicate Total<T(!new)>(before: (T, T) -> bool) {
    forall a, b :: before(a, b) || before(b, a)
  }

  /** Each element may come before its successor. */
  predicate Ordered<T>(s: seq<T>, before: (T, T) -> bool) {
    forall i :: 0 < i < |s| ==> before(s[i - 1], s[i])
  }

  ghost predicate Transitive<T(!new)>(before: (T, T) -> bool) {
    forall a, b, c :: before(a, b) && before(b, c) ==> before(a, c)
  }

  /** Under a transitive order, adjacent order is order between any two positions. */
  lemma {:induction false} OrderedPairs<T(!new)>(s: seq<T>, before: (T, T) -> bool)
    requires Transitive(before) && Ordered(s, before)
    ensures forall i, j :: 0 <= i < j < |s| ==> before(s[i], s[j])
  {
    if |s| > 1 {
      var tail := s[1..];
      assert Ordered(tail, before) by {
        forall i | 0 < i < |tail| ensures before(tail[i - 1], tail[i]) {
          assert tail[i - 1] == s[i] && tail[i] == s[i + 1];
        }
      }
      OrderedPairs(tail, before);
      forall i, j | 0 <= i < j < |s| ensures before(s[i], s[j]) {
        if i > 0 {
          assert s[i] == tail[i - 1] && s[j] == tail[j - 1];
        } else if j > 1 {
          assert before(s[0], s[1]);
          assert s[1] == tail[0] && s[j] == tail[j - 1];
        }
      }
    }
  }

  function InsertBy<T(==)>(x: T, s: seq<T>, before: (T, T) -> bool): (r: seq<T>)
    ensures multiset(r) == multiset{x} + multiset(s)
    ensures |r| == |s| + 1
  {
    if s == [] || before(x, s[0]) then [x] + s
    else
      assert s == [s[0]] + s[1..];
      [s[0]] + InsertBy(x, s[1..], before)
  }

  lemma {:induction false} InsertByOrdered<T(!new)>(x: T, s: seq<T>, before: (T, T) -> bool)
    requires Total(before) && Ordered(s, before)
    ensures Ordered(InsertBy(x, s, before), before)
    ensures InsertBy(x, s, before)[0] == x || InsertBy(x, s, before)[0] == s[0]
  {
    if s != [] && !before(x, s[0]) {
      var tail := s[1..];
      assert Ordered(tail, before) by {
        forall i | 0 < i < |tail| ensures before(tail[i - 1], tail[i]) {
          assert tail[i - 1] == s[i] && tail[i] == s[i + 1];
        }
      }
      InsertByOrdered(x, tail, before);
      var r := InsertBy(x, s, before);
      var rt := InsertBy(x, tail, before);
      assert r == [s[0]] + rt;
      assert before(s[0], rt[0]) by {
        if rt[0] != x {
          assert rt[0] == s[1];
        }
      }
      forall i | 0 < i < |r| ensures before(r[i - 1], r[i]) {
        if i > 1 {
          assert r[i - 1] == rt[i - 2] && r[i] == rt[i - 1];
        }
      }
    }
  }

  /** ORDER BY: a stable insertion sort; the result is a permutation of the input. */
  function SortBy<T(==)>(s: seq<T>, before: (T, T) -> bool): (r: seq<T>)
    ensures multiset(r) == multiset(s)
    ensures |r| == |s|
  {
    if s == [] then []
    else
      assert s == [s[0]] + s[1..];
      InsertBy(s[0], SortBy(s[1..], before), before)
  }

  lemma {:induction false} SortByOrdered<T(!new)>(s: seq<T>, before: (T, T) -> bool)
    requires Total(before)
    ensures Ordered(SortBy(s, before), before)
  {
    if s != [] {
      SortByOrdered(s[1..], before);
      InsertByOrdered(s[0], SortBy(s[1..], before), before);
    }
  }

  /** SELECT ... FROM t [JOIN ...] WHERE ... ORDER BY ...: `f` builds the
      joined output row of a table row or drops it; `before` is the order. */
  function Select<T(==,!new), R(==)>(t: Table<T>, f: ((nat, T)) -> Option<R>, before: (R, R) -> bool): seq<R>
  {
    SortBy(FilterMap(Rows(t), f), before)
  }

  /** What every answer to such a SELECT satisfies: exactly the rows `f`
      keeps, each id once, in the requested order. */
  lemma SelectSpec<T(!new), R(!new)>(t: Table<T>, f: ((nat, T)) -> Option<R>, before: (R, R) -> bool, idOf: R -> nat)
    requires forall p :: f(p).Some? ==> idOf(f(p).value) == p.0
    requires Total(before)
    ensures forall y :: y in Select(t, f, before) <==>
              idOf(y) in t.rows && f((idOf(y), t.rows[idOf(y)])) == Some(y)
    ensures forall i, j :: 0 <= i < j < |Select(t, f, before)| ==>
              idOf(Select(t, f, before)[i]) != idOf(Select(t, f, before)[j])
    ensures Ordered(Select(t, f, before), before)
  {
    var s := Rows(t);
    var m := FilterMap(s, f);
    var r := Select(t, f, before);
    assert multiset(r) == multiset(m);
    forall y ensures y in r <==> idOf(y) in t.rows && f((idOf(y), t.rows[idOf(y)])) == Some(y) {
      if y in r {
        assert y in multiset(r);
        assert y in m;
        var x :| x in s && f(x) == Some(y);
        assert x == (idOf(y), t.rows[idOf(y)]);
      }
      if idOf(y) in t.rows && f((idOf(y), t.rows[idOf(y)])) == Some(y) {
        assert (idOf(y), t.rows[idOf(y)]) in s;
        assert y in m;
        assert y in multiset(m);
      }
    }
    FilterMapIds(s, f, idOf);
    assert NoDup(m);
    PermutationNoDup(m, r);
    forall i, j | 0 <= i < j < |r| ensures idOf(r[i]) != idOf(r[j]) {
      assert r[i] in r && r[j] in r;
    }
    SortByOrdered(m, before);
  }

  /** SelectSpec for a transitive order: any two rows of the answer, not only
      neighbours, are in the requested order. */
  lemma SelectSpecPairs<T(!new), R(!new)>(t: Table<T>, f: ((nat, T)) -> Option<R>, before: (R, R) -> bool, idOf: R -> nat)
    requires forall p :: f(p).Some? ==> idOf(f(p).value) == p.0
    requires Total(before) && Transitive(before)
    ensures forall y :: y in Select(t, f, before) <==>
              idOf(y) in t.rows && f((idOf(y), t.rows[idOf(y)])) == Some(y)
    ensures forall i, j :: 0 <= i < j < |Select(t, f, before)| ==>
              idOf(Select(t, f, before)[i]) != idOf(Select(t, f, before)[j])
    ensures forall i, j :: 0 <= i < j < |Select(t, f, before)| ==>
              before(Select(t, f, before)[i], Select(t, f, before)[j])
  {
    SelectSpec(t, f, before, idOf);
    OrderedPairs(Select(t, f, before), before);
  }

  /** A projection that drops every row yields nothing. */
  lemma {:induction false} FilterMapNone<A, B>(s: seq<A>, f: A -> Option<B>)
    requires forall x :: x in s ==> f(x).None?
    ensures FilterMap(s, f) == []
  {
    if s != [] {
      FilterMapNone(s[1..], f);
    }
  }

  /** A SELECT whose every row is dropped returns no rows. */
  lemma SelectNothing<T(!new), R>(t: Table<T>, f: ((nat, T)) -> Option<R>, before: (R, R) -> bool)
    requires forall p :: f(p).None?
    ensures Select(t, f, before) == []
  {
    FilterMapNone(Rows(t), f);
  }

  /** The distinct elements of `s`, in order of first appearance. */
  function Dedup<T(==,!new)>(s: seq<T>): (r: seq<T>)
    ensures NoDup(r)
    ensures forall x :: x in r <==> x in s
  {
    if s == [] then []
    else
      var init, last := s[..|s| - 1], s[|s| - 1];
      assert s == init + [last];
      var rest := Dedup(init);
      if last in rest then rest else rest + [last]
  }

  /** GROUP BY key with COUNT(*): one group per distinct key, each with the
      number of times the key occurs. */
  function GroupCount<K(==,!new)>(keys: seq<K>): (r: seq<(K, nat)>)
    ensures forall i :: 0 <= i < |r| ==> r[i].1 == multiset(keys)[r[i].0] && r[i].1 >= 1
    ensures forall i, j :: 0 <= i < j < |r| ==> r[i].0 != r[j].0
    ensures forall k :: k in keys ==> exists i :: 0 <= i < |r| && r[i].0 == k
  {
    var d := Dedup(keys);
    var r := seq(|d|, i requires 0 <= i < |d| => (d[i], multiset(keys)[d[i]]));
    assert forall i :: 0 <= i < |d| ==> r[i].0 == d[i] && d[i] in d && d[i] in keys;
    assert forall k :: k in keys ==> k in d;
    r
  }

  /** LIMIT n. */
  function Take<T>(s: seq<T>, n: nat): (r: seq<T>)
    ensures |r| <= n && |r| <= |s| && r == s[..|r|]
    ensures |r| == if |s| <= n then |s| else n
  {
    if |s| <= n then s else s[..n]
  }

  /** The key column of every row, in order. */
  function Column<T, K>(s: seq<T>, key: T -> K): (r: seq<K>)
    ensures |r| == |s| && forall i :: 0 <= i < |s| ==> r[i] == key(s[i])
  {
    seq(|s|, i requires 0 <= i < |s| => key(s[i]))
  }
  /** How often a key occurs in the key column is how many elements a
      filter on that key keeps. */
  lemma {:induction false} CountColumn<A(!new), K>(s: seq<A>, key: A -> K, k: K, p: A -> bool)
    requires forall x :: x in s ==> (p(x) <==> key(x) == k)
    ensures multiset(Column(s, key))[k] == |Filter(s, p)|
  {
    if s != [] {
      forall x | x in s[1..] ensures p(x) <==> key(x) == k {
        assert x in s;
      }
      CountColumn(s[1..], key, k, p);
      assert Column(s, key) == [key(s[0])] + Column(s[1..], key);
      assert s[0] in s;
    }
  }

  /** How often a value occurs among the projected rows is how many rows
      project to it. */
  lemma {:induction false} CountFilterMap<A(!new), B>(s: seq<A>, f: A -> Option<B>, k: B, p: A -> bool)
    requires forall x :: x in s ==> (p(x) <==> f(x) == Some(k))
    ensures multiset(FilterMap(s, f))[k] == |Filter(s, p)|
  {
    if s != [] {
      forall x | x in s[1..] ensures p(x) <==> f(x) == Some(k) {
        assert x in s;
      }
      CountFilterMap(s[1..], f, k, p);
      assert s[0] in s;
    }
  }

  /** Two conditions that agree on every element keep the same elements. */
  lemma {:induction false} FilterAgree<A(!new)>(s: seq<A>, p: A -> bool, q: A -> bool)
    requires forall x :: x in s ==> (p(x) <==> q(x))
    ensures Filter(s, p) == Filter(s, q)
  {
    if s != [] {
      forall x | x in s[1..] ensures p(x) <==> q(x) {
        assert x in s;
      }
      FilterAgree(s[1..], p, q);
      assert s[0] in s;
    }
  }

}
