/** The list of parent-segment references an entry span keeps: a reference is
    appended only when no equal reference is stored yet, so the list holds each
    reference once, in the order of first insertion. */
module SegmentRefs {

  /** No element occurs twice. */
  ghost predicate NoDuplicates<T>(s: seq<T>) {
    forall i, j :: 0 <= i < j < |s| ==> s[i] != s[j]
  }

  /** The distinct elements of a sequence. */
  ghost function Elements<T>(s: seq<T>): set<T> {
    set x | x in s
  }

  /** One `ref(r)` on the stored list: append `x` unless an equal element is present. */
  function InsertIfAbsent<T(==)>(s: seq<T>, x: T): (t: seq<T>)
    ensures x in t
    ensures Elements(t) == Elements(s) + {x}
    ensures s <= t && |t| <= |s| + 1
    ensures t == s <==> x in s
    ensures NoDuplicates(s) ==> NoDuplicates(t)
  {
    if x in s then s else s + [x]
  }

  /** `ref` called once for each element of `xs`, in order. */
  function InsertAll<T(==)>(s: seq<T>, xs: seq<T>): (t: seq<T>)
    ensures Elements(t) == Elements(s) + Elements(xs)
    ensures s <= t
    ensures NoDuplicates(s) ==> NoDuplicates(t)
    decreases |xs|
  {
    if xs == [] then s else InsertAll(InsertIfAbsent(s, xs[0]), xs[1..])
  }

  /** `n` copies of `x`. */
  function Repeat<T>(x: T, n: nat): (r: seq<T>)
    ensures |r| == n
    ensures forall i :: 0 <= i < n ==> r[i] == x
  {
    if n == 0 then [] else [x] + Repeat(x, n - 1)
  }

  /** Inserting `xs` then `ys` is inserting `xs + ys`. */
  lemma {:induction false} InsertAllAppend<T>(s: seq<T>, xs: seq<T>, ys: seq<T>)
    ensures InsertAll(s, xs + ys) == InsertAll(InsertAll(s, xs), ys)
    decreases |xs|
  {
    if xs == [] {
      assert xs + ys == ys;
    } else {
      assert (xs + ys)[0] == xs[0];
      assert (xs + ys)[1..] == xs[1..] + ys;
      InsertAllAppend(InsertIfAbsent(s, xs[0]), xs[1..], ys);
    }
  }

  /** Insertion order is preserved: whatever was stored after `xs` keeps its
      positions however many references are inserted afterwards. */
  lemma EarlierRefsStayFirst<T>(s: seq<T>, xs: seq<T>, ys: seq<T>)
    ensures InsertAll(s, xs) <= InsertAll(s, xs + ys)
  {
    InsertAllAppend(s, xs, ys);
  }

  /** Inserting the same reference any positive number of times leaves the
      list as a single insertion does: at most one copy is stored. */
  lemma {:induction false} RepeatedRefKeepsOne<T>(s: seq<T>, x: T, n: nat)
    requires n >= 1
    ensures InsertAll(s, Repeat(x, n)) == InsertIfAbsent(s, x)
    ensures NoDuplicates(s) ==> NoDuplicates(InsertAll(s, Repeat(x, n)))
    ensures |InsertAll(s, Repeat(x, n))| == |s| + (if x in s then 0 else 1)
    decreases n
  {
    var t := InsertIfAbsent(s, x);
    assert Repeat(x, n)[0] == x && Repeat(x, n)[1..] == Repeat(x, n - 1);
    if n > 1 {
      RepeatedRefKeepsOne(t, x, n - 1);
      assert InsertIfAbsent(t, x) == t;
    }
  }

  /** A duplicate-free sequence has as many elements as distinct values. */
  lemma {:induction false} DistinctLength<T>(s: seq<T>)
    requires NoDuplicates(s)
    ensures |Elements(s)| == |s|
    decreases |s|
  {
    if s != [] {
      var rest := s[1..];
      assert NoDuplicates(rest) by {
        forall i, j | 0 <= i < j < |rest| ensures rest[i] != rest[j] {
          assert rest[i] == s[i + 1] && rest[j] == s[j + 1];
        }
      }
      DistinctLength(rest);
      assert Elements(s) == {s[0]} + Elements(rest) by {
        forall y ensures y in Elements(s) <==> y in {s[0]} + Elements(rest) {
          if y in s && y != s[0] {
            var k :| 0 <= k < |s| && s[k] == y;
            assert rest[k - 1] == y;
          }
        }
      }
      assert s[0] !in Elements(rest) by {
        forall k | 0 <= k < |rest| ensures rest[k] != s[0] {
          assert rest[k] == s[k + 1];
        }
      }
    }
  }

  /** Starting from no references, the stored list has exactly one entry per
      distinct reference inserted. */
  lemma StoredRefsCount<T>(xs: seq<T>)
    ensures NoDuplicates(InsertAll([], xs))
    ensures |InsertAll([], xs)| == |Elements(xs)|
  {
    var t := InsertAll([], xs);
    assert NoDuplicates<T>([]);
    DistinctLength(t);
    assert Elements(t) == Elements(xs);
  }
}
