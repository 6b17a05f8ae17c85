/** Probability view of a suffix dictionary and cumulative-mass sampling over it.
    Probabilities are exact reals. */
module Distribution {
  import opened Base
  import opened Assoc
  import opened SuffixCounts

  /** An insertion-ordered dictionary from suffix to probability. */
  type Dist = seq<(string, real)>

  /** The sum of all probabilities of `d`. */
  function Mass(d: Dist): real
  {
    if d == [] then 0.0 else d[0].1 + Mass(d[1..])
  }

  /** Divides every count of `c` by `total`, keeping the iteration order. */
  function Normalize(c: Counts, total: real): (r: Dist)
    requires total > 0.0
    ensures |r| == |c|
    ensures forall i :: 0 <= i < |c| ==> r[i].0 == c[i].0 && r[i].1 == c[i].1 as real / total
  {
    if c == [] then []
    else [(c[0].0, c[0].1 as real / total)] + Normalize(c[1..], total)
  }

  /** Normalizing keeps the keys, their order and distinctness, and divides each count. */
  lemma {:induction false} NormalizeKeys(c: Counts, total: real)
    requires total > 0.0
    ensures Keys(Normalize(c, total)) == Keys(c)
    ensures KeySeq(Normalize(c, total)) == KeySeq(c)
    ensures Distinct(c) ==> Distinct(Normalize(c, total))
    ensures forall s :: Get(Normalize(c, total), s) == (if s in Keys(c) then Some(Count(c, s) as real / total) else None)
  {
    if c != [] {
      var r := Normalize(c, total);
      NormalizeKeys(c[1..], total);
      assert r[1..] == Normalize(c[1..], total);
      forall s ensures Get(r, s) == (if s in Keys(c) then Some(Count(c, s) as real / total) else None) {
        GetBound(c[1..], s);
      }
    }
  }

  /** The probabilities of a normalized dictionary add up to its total over `total`. */
  lemma {:induction false} NormalizeMass(c: Counts, total: real)
    requires total > 0.0
    ensures Mass(Normalize(c, total)) == Total(c) as real / total
  {
    if c != [] {
      var r := Normalize(c, total);
      assert r[1..] == Normalize(c[1..], total);
      NormalizeMass(c[1..], total);
      assert Mass(r) == c[0].1 as real / total + Total(c[1..]) as real / total;
      SumOfFractions(c[0].1 as real, Total(c[1..]) as real, total);
    }
  }

  lemma SumOfFractions(a: real, b: real, total: real)
    requires total > 0.0
    ensures a / total + b / total == (a + b) / total
  {
  }

  /** The running mass starting from `upto` has reached `t` at entry `i` (inclusive). */
  predicate Reaches(d: Dist, i: nat, t: real, upto: real)
    requires i < |d|
  {
    upto + Mass(d[..i + 1]) >= t
  }

  /** The sampling loop of random_suffix: walks `d` in order adding each
      probability to the running mass `upto`, and returns the first suffix at
      which the mass is at least `t`; falls off the end with `None`. */
  function SelectFrom(d: Dist, t: real, upto: real): (r: Option<string>)
    ensures r.Some? ==> r.value in Keys(d)
    ensures r.Some? ==> d != []
  {
    if d == [] then None
    else if upto + d[0].1 >= t then Some(d[0].0)
    else SelectFrom(d[1..], t, upto + d[0].1)
  }

  /** Sampling with threshold `t`, starting from an empty running mass. */
  function Select(d: Dist, t: real): Option<string>
  {
    SelectFrom(d, t, 0.0)
  }

  /** The running mass over the first `i + 2` entries is the first
      probability plus the running mass over `i + 1` entries of the rest. */
  lemma ReachesShift(d: Dist, i: nat, t: real, upto: real)
    requires i + 1 < |d|
    ensures Reaches(d, i + 1, t, upto) == Reaches(d[1..], i, t, upto + d[0].1)
  {
    assert d[..i + 2][1..] == d[1..][..i + 1];
  }

  /** The running mass has reached `t` at entry 0 exactly when the first probability takes it there. */
  lemma ReachesFirst(d: Dist, t: real, upto: real)
    requires d != []
    ensures Reaches(d, 0, t, upto) <==> upto + d[0].1 >= t
  {
    assert d[..1] == [d[0]];
    assert Mass(d[..1]) == d[0].1 + Mass([]);
  }

  /** Select returns the suffix at the first index whose running mass reaches `t`. */
  lemma {:induction false} SelectFirstReaching(d: Dist, t: real, upto: real, i: nat)
    requires i < |d|
    requires Reaches(d, i, t, upto)
    requires forall j :: 0 <= j < i ==> !Reaches(d, j, t, upto)
    ensures SelectFrom(d, t, upto) == Some(d[i].0)
  {
    ReachesFirst(d, t, upto);
    if i > 0 {
      assert !Reaches(d, 0, t, upto);
      var rest, upto' := d[1..], upto + d[0].1;
      forall j | 0 <= j < i - 1 ensures !Reaches(rest, j, t, upto') {
        ReachesShift(d, j, t, upto);
      }
      ReachesShift(d, i - 1, t, upto);
      SelectFirstReaching(d[1..], t, upto + d[0].1, i - 1);
    }
  }

  /** Select returns None exactly when the running mass never reaches `t`. */
  lemma {:induction false} SelectNoneNeverReaches(d: Dist, t: real, upto: real)
    ensures SelectFrom(d, t, upto).None? <==> forall j :: 0 <= j < |d| ==> !Reaches(d, j, t, upto)
  {
    if d != [] {
      ReachesFirst(d, t, upto);
      var rest, upto' := d[1..], upto + d[0].1;
      if upto' < t {
        SelectNoneNeverReaches(rest, t, upto');
        forall j | 0 < j < |d| ensures Reaches(d, j, t, upto) == Reaches(rest, j - 1, t, upto') {
          ReachesShift(d, j - 1, t, upto);
        }
        if forall j :: 0 <= j < |rest| ==> !Reaches(rest, j, t, upto') {
          forall j | 0 <= j < |d| ensures !Reaches(d, j, t, upto) {
            if j > 0 {
              assert !Reaches(rest, j - 1, t, upto');
            }
          }
        } else {
          var j :| 0 <= j < |rest| && Reaches(rest, j, t, upto');
          assert Reaches(d, j + 1, t, upto);
        }
      }
    }
  }

  /** Sampling a non-empty dictionary with a threshold within its mass yields a suffix. */
  lemma SelectNonEmpty(d: Dist, t: real)
    ensures d != [] && t <= Mass(d) ==> Select(d, t).Some?
  {
    if d != [] && t <= Mass(d) {
      SelectTotal(d, t, 0.0);
    }
  }

  /** A non-empty dictionary whose whole mass reaches `t` always yields a suffix. */
  lemma {:induction false} SelectTotal(d: Dist, t: real, upto: real)
    requires d != []
    requires upto + Mass(d) >= t
    ensures SelectFrom(d, t, upto).Some?
  {
    if upto + d[0].1 < t {
      SelectTotal(d[1..], t, upto + d[0].1);
    }
  }
}
