/** The n-gram Markov model of models/markov.py: a graph from prefix key
    (the concatenated first n-1 tokens) to an insertion-ordered dictionary
    of suffix counts, with ingestion, merging and the probability view. */
module Markov {
  import opened Base
  import opened Assoc
  import opened SuffixCounts
  import opened Distribution

  /** Prefix key -> suffix counts. */
  type Graph = map<string, Counts>

  datatype Model = Model(n: int, graph: Graph)

  /** The ValueErrors the model raises, one per message. */
  datatype Error =
    | OrderTooSmall(order: int)          // __init__: n < 2
    | NGramLength(expected: int)         // add_ngram: wrong number of tokens
    | PrefixLength(expected: int)        // get_suffixes: wrong prefix length
    | OrderMismatch(mine: int, theirs: int) // update: orders differ
    | BadPrefixLength(got: int)          // random_sequence: wrong prefix length

  /** The invariant every Markov object keeps: an order of at least 2 and
      only non-empty, distinct, positive suffix dictionaries. */
  predicate Valid(m: Model)
  {
    m.n >= 2 && forall p :: p in m.graph ==> WellFormed(m.graph[p])
  }

  /** `''.join(tokens)`: concatenation without separator (lossy). */
  function Join(tokens: seq<string>): (r: string)
    ensures |tokens| == 1 ==> r == tokens[0]
  {
    if tokens == [] then "" else tokens[0] + Join(tokens[1..])
  }

  /** Joining a concatenation joins the parts and concatenates the results:
      token boundaries leave no trace in the key. */
  lemma {:induction false} JoinConcat(a: seq<string>, b: seq<string>)
    ensures Join(a + b) == Join(a) + Join(b)
  {
    if a == [] {
      assert a + b == b;
    } else {
      assert (a + b)[1..] == a[1..] + b;
      JoinConcat(a[1..], b);
    }
  }

  /** The suffix dictionary recorded for `key`, empty when never recorded. */
  function SuffixesOf(g: Graph, key: string): Counts
  {
    if key in g then g[key] else []
  }

  /** `graph[key][s]`, with a missing prefix or suffix counting as 0. */
  function CountIn(g: Graph, key: string, s: string): nat
  {
    Count(SuffixesOf(g, key), s)
  }

  /** The prefix key of an n-gram: its first tokens joined. */
  function Source(ngram: seq<string>): string
    requires |ngram| >= 1
  {
    Join(ngram[..|ngram| - 1])
  }

  /** The suffix of an n-gram: its last token. */
  function Destination(ngram: seq<string>): string
    requires |ngram| >= 1
  {
    ngram[|ngram| - 1]
  }

  /** `Markov(n)`: an empty model of order `n`, or an error for `n < 2`. */
  function New(n: int): (r: Result<Model, Error>)
    ensures r.Err? <==> n < 2
    ensures r.Err? ==> r.error == OrderTooSmall(n)
    ensures r.Ok? ==> Valid(r.value) && r.value.n == n
    ensures r.Ok? ==> forall p, s :: CountIn(r.value.graph, p, s) == 0
  {
    if n < 2 then Err(OrderTooSmall(n)) else Ok(Model(n, map[]))
  }

  /** `add_ngram(*ngram)`: records one more observation of the n-gram. */
  function AddNGram(m: Model, ngram: seq<string>): (r: Result<Model, Error>)
    requires Valid(m)
    ensures r.Err? <==> |ngram| != m.n
    ensures r.Err? ==> r.error == NGramLength(m.n)
    ensures r.Ok? ==> Valid(r.value) && r.value.n == m.n
    ensures r.Ok? ==> r.value.graph.Keys == m.graph.Keys + {Source(ngram)}
    ensures r.Ok? ==> CountIn(r.value.graph, Source(ngram), Destination(ngram))
                      == CountIn(m.graph, Source(ngram), Destination(ngram)) + 1
    ensures r.Ok? ==> forall p, s :: p != Source(ngram) || s != Destination(ngram) ==>
                        CountIn(r.value.graph, p, s) == CountIn(m.graph, p, s)
    ensures r.Ok? ==> forall p :: p in m.graph && p != Source(ngram) ==> r.value.graph[p] == m.graph[p]
    ensures r.Ok? ==> var old_ := SuffixesOf(m.graph, Source(ngram));
                      KeySeq(r.value.graph[Source(ngram)])
                      == KeySeq(old_) + (if Destination(ngram) in Keys(old_) then [] else [Destination(ngram)])
  {
    if |ngram| != m.n then Err(NGramLength(m.n))
    else
      var source, destination := Join(ngram[..|ngram| - 1]), ngram[|ngram| - 1];
      if source !in m.graph then
        assert WellFormed([(destination, 1)]) by {
          assert [(destination, 1)][1..] == [];
        }
        Ok(m.(graph := m.graph[source := [(destination, 1)]]))
      else
        Ok(m.(graph := m.graph[source := Increment(m.graph[source], destination)]))
  }

  /** The normalized distribution for a prefix key (empty when unseen). */
  function SuffixDistribution(g: Graph, key: string): Dist
    requires key in g ==> Total(g[key]) > 0
  {
    if key !in g then [] else Normalize(g[key], Total(g[key]) as real)
  }

  /** What the probability view promises for one well-formed suffix dictionary. */
  lemma NormalizedView(c: Counts)
    requires WellFormed(c)
    ensures Total(c) > 0
    ensures var d := Normalize(c, Total(c) as real);
      && KeySeq(d) == KeySeq(c)
      && Keys(d) == Keys(c)
      && Distinct(d)
      && Mass(d) == 1.0
      && (forall i :: 0 <= i < |d| ==> 0.0 < d[i].1 <= 1.0)
      && (forall s :: s in Keys(d) ==> Get(d, s) == Some(Count(c, s) as real / Total(c) as real))
  {
    EntryWithinTotal(c, 0);
    var total := Total(c) as real;
    var d := Normalize(c, total);
    NormalizeKeys(c, total);
    NormalizedMassOne(c);
    forall i | 0 <= i < |d| ensures 0.0 < d[i].1 <= 1.0 {
      EntryWithinTotal(c, i);
      FractionBounds(c[i].1 as real, total);
    }
  }

  /** A positive dictionary normalizes to a total mass of exactly 1. */
  lemma NormalizedMassOne(c: Counts)
    requires Total(c) > 0
    ensures Mass(Normalize(c, Total(c) as real)) == 1.0
  {
    var total := Total(c) as real;
    NormalizeMass(c, total);
    RatioOne(total);
  }

  lemma RatioOne(x: real)
    requires x > 0.0
    ensures x / x == 1.0
  {
  }

  lemma FractionBounds(a: real, b: real)
    requires 0.0 < a <= b
    ensures 0.0 < a / b <= 1.0
  {
  }

  /** The view of a valid graph at any key: the view of its suffix dictionary, if recorded. */
  lemma ViewOfGraph(g: Graph, key: string)
    requires forall p :: p in g ==> WellFormed(g[p])
    ensures key in g ==> Total(g[key]) > 0
    ensures key in g ==> var d := Normalize(g[key], Total(g[key]) as real);
      && KeySeq(d) == KeySeq(g[key])
      && Keys(d) == Keys(g[key])
      && Distinct(d)
      && Mass(d) == 1.0
      && (forall i :: 0 <= i < |d| ==> 0.0 < d[i].1 <= 1.0)
      && (forall s :: s in Keys(d) ==> Get(d, s) == Some(Count(g[key], s) as real / Total(g[key]) as real))
  {
    if key in g {
      NormalizedView(g[key]);
    }
  }

  /** `get_suffixes(*prefix)`: the distribution `count / total` over the
      suffixes recorded for the joined prefix, in insertion order. */
  function GetSuffixes(m: Model, prefix: seq<string>): (r: Result<Dist, Error>)
    requires Valid(m)
    ensures r.Err? <==> |prefix| != m.n - 1
    ensures r.Err? ==> r.error == PrefixLength(m.n - 1)
    ensures r.Ok? && Join(prefix) !in m.graph ==> r.value == []
    ensures r.Ok? && Join(prefix) in m.graph ==> var d, c := r.value, m.graph[Join(prefix)];
      && KeySeq(d) == KeySeq(c)
      && Keys(d) == Keys(c)
      && Distinct(d)
      && Mass(d) == 1.0
      && (forall i :: 0 <= i < |d| ==> 0.0 < d[i].1 <= 1.0)
      && (forall s :: s in Keys(d) ==> Get(d, s) == Some(Count(c, s) as real / Total(c) as real))
  {
    ViewOfGraph(m.graph, Join(prefix));
    if |prefix| != m.n - 1 then Err(PrefixLength(m.n - 1))
    else Ok(SuffixDistribution(m.graph, Join(prefix)))
  }

  /** Turns each suffix entry into a full n-gram entry `prefix + (s,)`. */
  function Extend(prefix: seq<string>, d: Dist): (r: seq<(seq<string>, real)>)
    ensures Keys(r) == set s | s in Keys(d) :: prefix + [s]
    ensures forall s :: Get(r, prefix + [s]) == Get(d, s)
    ensures Distinct(d) ==> Distinct(r)
  {
    if d == [] then []
    else
      var rest := Extend(prefix, d[1..]);
      var r := [(prefix + [d[0].0], d[0].1)] + rest;
      assert r[1..] == rest;
      assert forall s :: prefix + [s] == prefix + [d[0].0] ==> s == d[0].0 by {
        forall s | prefix + [s] == prefix + [d[0].0] ensures s == d[0].0 {
          assert (prefix + [s])[|prefix|] == s;
        }
      }
      r
  }

  /** `get_ngrams(*prefix)`: the probability view keyed by full n-grams. */
  function GetNGrams(m: Model, prefix: seq<string>): (r: Result<seq<(seq<string>, real)>, Error>)
    requires Valid(m)
    ensures r.Err? <==> GetSuffixes(m, prefix).Err?
    ensures r.Err? ==> r.error == GetSuffixes(m, prefix).error
    ensures r.Ok? ==> var d := GetSuffixes(m, prefix).value;
      && Keys(r.value) == (set s | s in Keys(d) :: prefix + [s])
      && (forall s :: Get(r.value, prefix + [s]) == Get(d, s))
      && Distinct(r.value)
  {
    match GetSuffixes(m, prefix)
    case Err(e) => Err(e)
    case Ok(d) => Ok(Extend(prefix, d))
  }

  /** The merged suffix dictionary of prefix `p`: `h`'s dictionary is copied
      when `g` lacks `p`, and merged suffix by suffix otherwise. */
  function MergeAt(g: Graph, h: Graph, p: string): (r: Counts)
    requires p in g || p in h
    requires p in h ==> Distinct(h[p])
    ensures forall s :: Count(r, s) == CountIn(g, p, s) + CountIn(h, p, s)
    ensures p !in h ==> r == g[p]
    ensures p !in g ==> r == h[p]
    ensures p in g && p in h ==> KeySeq(r) == KeySeq(g[p]) + Appended(h[p], Keys(g[p]))
    ensures (p in g ==> WellFormed(g[p])) && (p in h ==> WellFormed(h[p])) ==> WellFormed(r)
  {
    if p !in h then g[p]
    else if p !in g then h[p]
    else
      MergeCountsOrder(g[p], h[p]);
      MergeCountsShape(g[p], h[p]);
      MergeCounts(g[p], h[p])
  }

  /** Adds the counts of graph `h` into graph `g`, prefix by prefix. */
  function MergeGraphs(g: Graph, h: Graph): (r: Graph)
    requires forall p :: p in h ==> Distinct(h[p])
    ensures r.Keys == g.Keys + h.Keys
    ensures forall p :: p in g && p !in h ==> r[p] == g[p]
    ensures forall p :: p !in g && p in h ==> r[p] == h[p]
    ensures forall p :: p in g && p in h ==> KeySeq(r[p]) == KeySeq(g[p]) + Appended(h[p], Keys(g[p]))
  {
    map p | p in g.Keys + h.Keys :: MergeAt(g, h, p)
  }

  /** The counts of the merged graph are the sums of both graphs' counts. */
  lemma MergeGraphsCounts(g: Graph, h: Graph)
    requires forall p :: p in h ==> Distinct(h[p])
    ensures forall p, s :: CountIn(MergeGraphs(g, h), p, s) == CountIn(g, p, s) + CountIn(h, p, s)
  {
    var r := MergeGraphs(g, h);
    forall p, s ensures CountIn(r, p, s) == CountIn(g, p, s) + CountIn(h, p, s) {
      if p !in r {
        assert CountIn(r, p, s) == 0;
      }
    }
  }

  /** `update(other)`: adds every count of `other` into the model. Prefixes
      only in `other` get a copy of its dictionary; in shared prefixes the
      recorded suffixes keep their place and the new ones are appended in
      `other`'s order. */
  function Update(m: Model, other: Model): (r: Result<Model, Error>)
    requires Valid(m) && Valid(other)
    ensures r.Err? <==> m.n != other.n
    ensures r.Err? ==> r.error == OrderMismatch(m.n, other.n)
    ensures r.Ok? ==> Valid(r.value) && r.value.n == m.n
    ensures r.Ok? ==> r.value.graph.Keys == m.graph.Keys + other.graph.Keys
    ensures r.Ok? ==> forall p, s :: CountIn(r.value.graph, p, s) == CountIn(m.graph, p, s) + CountIn(other.graph, p, s)
    ensures r.Ok? ==> forall p :: p in m.graph && p !in other.graph ==> r.value.graph[p] == m.graph[p]
    ensures r.Ok? ==> forall p :: p !in m.graph && p in other.graph ==> r.value.graph[p] == other.graph[p]
    ensures r.Ok? ==> forall p :: p in m.graph && p in other.graph ==>
              KeySeq(r.value.graph[p]) == KeySeq(m.graph[p]) + Appended(other.graph[p], Keys(m.graph[p]))
  {
    if m.n != other.n then Err(OrderMismatch(m.n, other.n))
    else
      MergeGraphsCounts(m.graph, other.graph);
      Ok(m.(graph := MergeGraphs(m.graph, other.graph)))
  }

  /** In a prefix both graphs hold, the counts and the suffix order fix the merged dictionary. */
  lemma SharedPrefixDetermined(g: Graph, h: Graph, p: string, x: Counts)
    requires p in g && p in h && WellFormed(g[p]) && WellFormed(h[p]) && Distinct(x)
    requires forall s :: Count(x, s) == CountIn(g, p, s) + CountIn(h, p, s)
    requires KeySeq(x) == KeySeq(g[p]) + Appended(h[p], Keys(g[p]))
    ensures x == MergeAt(g, h, p)
  {
    CountsExtensional(x, MergeAt(g, h, p));
  }

  /** The contract of `Update` leaves no freedom: a valid model of the same
      order with the same prefixes, the same counts and the suffix order
      `Update` promises is the result of `Update`. */
  lemma UpdateDetermined(m: Model, other: Model, r: Model)
    requires Valid(m) && Valid(other) && m.n == other.n && Valid(r) && r.n == m.n
    requires r.graph.Keys == m.graph.Keys + other.graph.Keys
    requires forall p, s :: CountIn(r.graph, p, s) == CountIn(m.graph, p, s) + CountIn(other.graph, p, s)
    requires forall p :: p in m.graph && p !in other.graph ==> r.graph[p] == m.graph[p]
    requires forall p :: p !in m.graph && p in other.graph ==> r.graph[p] == other.graph[p]
    requires forall p :: p in m.graph && p in other.graph ==>
               KeySeq(r.graph[p]) == KeySeq(m.graph[p]) + Appended(other.graph[p], Keys(m.graph[p]))
    ensures Update(m, other) == Ok(r)
  {
    var u := Update(m, other).value;
    forall p | p in r.graph ensures r.graph[p] == MergeAt(m.graph, other.graph, p) {
      if p in m.graph && p in other.graph {
        forall s ensures Count(r.graph[p], s) == CountIn(m.graph, p, s) + CountIn(other.graph, p, s) {
          assert CountIn(r.graph, p, s) == Count(r.graph[p], s);
        }
        SharedPrefixDetermined(m.graph, other.graph, p, r.graph[p]);
      }
    }
    assert r.graph == u.graph;
  }

  /** Merging the same model twice adds its counts twice. */
  lemma UpdateTwice(m: Model, other: Model)
    requires Valid(m) && Valid(other) && m.n == other.n
    ensures forall p, s :: CountIn(Update(Update(m, other).value, other).value.graph, p, s)
                           == CountIn(m.graph, p, s) + 2 * CountIn(other.graph, p, s)
  {
  }

  /** Merging is additive, not a union: merging a non-empty model a second
      time changes the result again, so update is not idempotent. */
  lemma UpdateNotIdempotent(m: Model, other: Model)
    requires Valid(m) && Valid(other) && m.n == other.n && other.graph != map[]
    ensures Update(Update(m, other).value, other).value != Update(m, other).value
  {
    var p :| p in other.graph;
    var s := other.graph[p][0].0;
    assert CountIn(other.graph, p, s) >= 1 by {
      EntryBound(other.graph[p], 0);
    }
    var once := Update(m, other).value;
    assert CountIn(Update(once, other).value.graph, p, s) != CountIn(once.graph, p, s);
  }

  /** Merging is commutative on counts: either order of merging two models
      of the same order records the same count for every pair. */
  lemma UpdateCountsCommute(a: Model, b: Model)
    requires Valid(a) && Valid(b) && a.n == b.n
    ensures forall p, s :: CountIn(Update(a, b).value.graph, p, s) == CountIn(Update(b, a).value.graph, p, s)
  {
  }

  /** Prefix keys are lossy: two n-grams whose first tokens join to the same
      string and whose last tokens agree are recorded identically. */
  lemma PrefixCollision(m: Model, a: seq<string>, b: seq<string>)
    requires Valid(m) && |a| == m.n && |b| == m.n
    requires Join(a[..m.n - 1]) == Join(b[..m.n - 1]) && a[m.n - 1] == b[m.n - 1]
    ensures AddNGram(m, a) == AddNGram(m, b)
  {
    assert Source(a) == Source(b) && Destination(a) == Destination(b);
  }

  /** For instance ("a", "bc", s) and ("ab", "c", s) in an order-3 model. */
  lemma {:induction false} PrefixCollisionExample(m: Model, s: string)
    requires Valid(m) && m.n == 3
    ensures AddNGram(m, ["a", "bc", s]) == AddNGram(m, ["ab", "c", s])
  {
    assert Join(["a", "bc"]) == "abc" by {
      assert Join(["bc"]) == "bc" + Join([]);
    }
    assert Join(["ab", "c"]) == "abc" by {
      assert Join(["c"]) == "c" + Join([]);
    }
    assert ["a", "bc", s][..2] == ["a", "bc"];
    assert ["ab", "c", s][..2] == ["ab", "c"];
    PrefixCollision(m, ["a", "bc", s], ["ab", "c", s]);
  }
}
