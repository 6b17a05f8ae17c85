/** The suffix counts recorded for one prefix key: an insertion-ordered
    dictionary from suffix token to the number of times it was observed. */
module SuffixCounts {
  import opened Base
  import opened Assoc

  type Counts = seq<(string, nat)>

  /** The count of `s`, with an unrecorded suffix counting as 0. */
  function Count(c: Counts, s: string): nat
  {
    match Get(c, s)
    case None => 0
    case Some(v) => v
  }

  /** Every recorded count is at least 1. */
  predicate Positive(c: Counts)
  {
    forall i :: 0 <= i < |c| ==> c[i].1 >= 1
  }

  /** A suffix dictionary as the model keeps it: non-empty, distinct, positive. */
  predicate WellFormed(c: Counts)
  {
    c != [] && Distinct(c) && Positive(c)
  }

  /** The sum of all counts (Python's `sum(d.values())`). */
  function Total(c: Counts): nat
  {
    if c == [] then 0 else c[0].1 + Total(c[1..])
  }

  /** An unrecorded suffix counts 0. */
  lemma CountUnbound(c: Counts, s: string)
    requires s !in Keys(c)
    ensures Count(c, s) == 0
  {
    GetBound(c, s);
  }

  /** Each recorded count is part of the total, and a positive list has a positive total. */
  lemma {:induction false} EntryWithinTotal(c: Counts, i: nat)
    requires i < |c|
    ensures c[i].1 <= Total(c)
    ensures Positive(c) ==> Total(c) > 0
  {
    if i > 0 {
      EntryWithinTotal(c[1..], i - 1);
    }
  }

  /** `d[s] = d.get(s, 0) + v`: bumps the count of `s` in place, or appends
      `s` with count `v` at the end when it was not yet recorded. */
  function AddCount(c: Counts, s: string, v: nat): (r: Counts)
    ensures Keys(r) == Keys(c) + {s}
    ensures KeySeq(r) == KeySeq(c) + (if s in Keys(c) then [] else [s])
    ensures Count(r, s) == Count(c, s) + v
    ensures forall s' :: s' != s ==> Count(r, s') == Count(c, s')
    ensures Total(r) == Total(c) + v
    ensures Distinct(c) ==> Distinct(r)
    ensures Positive(c) && v >= 1 ==> Positive(r)
  {
    if c == [] then
      var r: Counts := [(s, v)];
      assert r[1..] == [];
      r
    else if c[0].0 == s then
      var r: Counts := [(s, c[0].1 + v)] + c[1..];
      assert r[1..] == c[1..];
      assert KeySeq(r) == KeySeq(c);
      r
    else
      var rest := AddCount(c[1..], s, v);
      var r: Counts := [c[0]] + rest;
      assert r[1..] == rest;
      assert KeySeq(r) == [c[0].0] + KeySeq(rest);
      assert Keys(r) == {c[0].0} + Keys(rest);
      assert forall s' | s' != s :: Count(r, s') == Count(c, s') by {
        forall s' | s' != s ensures Count(r, s') == Count(c, s') {
          if c[0].0 != s' {
            assert Count(r, s') == Count(rest, s');
            assert Count(c, s') == Count(c[1..], s');
          }
        }
      }
      r
  }

  /** One more observation of suffix `s` (the three cases of add_ngram's
      inner dictionary update). */
  function Increment(c: Counts, s: string): (r: Counts)
    ensures Count(r, s) == Count(c, s) + 1
    ensures forall s' :: s' != s ==> Count(r, s') == Count(c, s')
    ensures Keys(r) == Keys(c) + {s}
    ensures KeySeq(r) == KeySeq(c) + (if s in Keys(c) then [] else [s])
    ensures WellFormed(c) ==> WellFormed(r)
  {
    AddCount(c, s, 1)
  }

  /** The suffixes of `d` not in `known`, in `d`'s order: what a merge of
      `d` appends at the end of a dictionary whose suffixes are `known`. */
  function Appended(d: Counts, known: set<string>): seq<string>
  {
    if d == [] then []
    else (if d[0].0 in known then [] else [d[0].0]) + Appended(d[1..], known)
  }

  /** Knowing one more suffix that `d` does not hold leaves the appended suffixes unchanged. */
  lemma {:induction false} AppendedIgnores(d: Counts, known: set<string>, x: string)
    requires x !in Keys(d)
    ensures Appended(d, known + {x}) == Appended(d, known)
  {
    if d != [] {
      AppendedIgnores(d[1..], known, x);
    }
  }

  /** A distinct suffix dictionary is determined by its suffix order and its counts. */
  lemma {:induction false} CountsExtensional(a: Counts, b: Counts)
    requires Distinct(a) && Distinct(b)
    requires KeySeq(a) == KeySeq(b)
    requires forall s :: Count(a, s) == Count(b, s)
    ensures a == b
  {
    if a != [] {
      assert KeySeq(a)[0] == a[0].0 && KeySeq(b)[0] == b[0].0;
      assert Count(a, a[0].0) == a[0].1 && Count(b, b[0].0) == b[0].1;
      assert KeySeq(a[1..]) == KeySeq(a)[1..] && KeySeq(b[1..]) == KeySeq(b)[1..];
      forall s ensures Count(a[1..], s) == Count(b[1..], s) {
        if s == a[0].0 {
          CountUnbound(a[1..], s);
          CountUnbound(b[1..], s);
        } else {
          assert Count(a, s) == Count(a[1..], s) && Count(b, s) == Count(b[1..], s);
        }
      }
      CountsExtensional(a[1..], b[1..]);
    } else {
      assert KeySeq(b) == [];
    }
  }

  /** Adds every count of `d` into `c`, visiting `d` in its iteration order. */
  function MergeCounts(c: Counts, d: Counts): (r: Counts)
    requires Distinct(d)
    ensures forall s :: Count(r, s) == Count(c, s) + Count(d, s)
    decreases |d|
  {
    if d == [] then c
    else
      var c' := AddCount(c, d[0].0, d[0].1);
      var r := MergeCounts(c', d[1..]);
      assert forall s :: Count(r, s) == Count(c, s) + Count(d, s) by {
        forall s ensures Count(r, s) == Count(c, s) + Count(d, s) {
          if s == d[0].0 {
            CountUnbound(d[1..], s);
          }
        }
      }
      r
  }

  /** Merging keeps the recorded suffixes in place and appends the new ones in `d`'s order. */
  lemma {:induction false} MergeCountsOrder(c: Counts, d: Counts)
    requires Distinct(d)
    ensures KeySeq(MergeCounts(c, d)) == KeySeq(c) + Appended(d, Keys(c))
    decreases |d|
  {
    if d != [] {
      var x := d[0].0;
      var c' := AddCount(c, x, d[0].1);
      MergeCountsOrder(c', d[1..]);
      AppendedIgnores(d[1..], Keys(c), x);
      MergeStepOrder(c, d, KeySeq(MergeCounts(c', d[1..])));
    }
  }

  lemma ConcatAssoc<T>(a: seq<T>, b: seq<T>, c: seq<T>)
    ensures a + b + c == a + (b + c)
  {
  }

  /** One merge step: appending the first suffix of `d` (when new) and then the rest. */
  lemma MergeStepOrder(c: Counts, d: Counts, rest: seq<string>)
    requires Distinct(d) && d != []
    requires var c' := AddCount(c, d[0].0, d[0].1);
      rest == KeySeq(MergeCounts(c', d[1..])) && rest == KeySeq(c') + Appended(d[1..], Keys(c))
    ensures KeySeq(MergeCounts(c, d)) == KeySeq(c) + Appended(d, Keys(c))
  {
    var x := d[0].0;
    var added := if x in Keys(c) then [] else [x];
    var tail := Appended(d[1..], Keys(c));
    assert Appended(d, Keys(c)) == added + tail;
    ConcatAssoc(KeySeq(c), added, tail);
  }

  /** The merged dictionary holds the suffixes of both, the sum of their
      totals, and stays distinct and positive. */
  lemma {:induction false} MergeCountsShape(c: Counts, d: Counts)
    requires Distinct(d)
    ensures Keys(MergeCounts(c, d)) == Keys(c) + Keys(d)
    ensures Total(MergeCounts(c, d)) == Total(c) + Total(d)
    ensures Distinct(c) ==> Distinct(MergeCounts(c, d))
    ensures Positive(c) && Positive(d) ==> Positive(MergeCounts(c, d))
    decreases |d|
  {
    if d != [] {
      MergeCountsShape(AddCount(c, d[0].0, d[0].1), d[1..]);
    }
  }
}
