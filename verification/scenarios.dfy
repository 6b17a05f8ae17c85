/** Concrete runs of the model on small corpora. */
module Scenarios {
  import opened Base
  import opened Assoc
  import opened SuffixCounts
  import opened Distribution
  import opened Markov
  import opened Sampler

  lemma JoinOne(a: string)
    ensures Join([a]) == a
  {
    assert Join([a]) == a + Join([]);
  }

  lemma JoinTwo(a: string, b: string)
    ensures Join([a, b]) == a + b
  {
    assert [a, b][1..] == [b];
    JoinOne(b);
  }

  /** Lifting a token list and unwrapping it again gives the list back. */
  lemma UnwrapLift(xs: seq<string>)
    ensures AllPresent(Lift(xs)) && Unwrap(Lift(xs)) == xs
  {
    LiftInjective(Unwrap(Lift(xs)), xs);
  }

  /** Orders below 2 are refused; 2 and 5 are accepted. */
  lemma ConstructionBounds()
    ensures New(1) == Err(OrderTooSmall(1))
    ensures New(2).Ok? && New(5).Ok?
  {
  }

  /** Order 2: one observation of ("the", "cat") gives "cat" probability 1. */
  lemma SingleBigram()
    ensures var m := New(2).value;
      && AddNGram(m, ["the", "cat"]).Ok?
      && GetSuffixes(AddNGram(m, ["the", "cat"]).value, ["the"]) == Ok([("cat", 1.0)])
  {
    var m0 := New(2).value;
    assert ["the", "cat"][..1] == ["the"];
    JoinOne("the");
    var m := AddNGram(m0, ["the", "cat"]).value;
    assert m.graph == map["the" := [("cat", 1)]];
    assert Total([("cat", 1)]) == 1;
    assert Normalize([("cat", 1)], 1.0) == [("cat", 1.0)];
  }

  /** Ingesting a bigram increments the dictionary of its first token. */
  lemma AddBigram(m: Model, a: string, b: string)
    requires Valid(m) && m.n == 2
    ensures AddNGram(m, [a, b]).Ok?
    ensures AddNGram(m, [a, b]).value == m.(graph := m.graph[a := Increment(SuffixesOf(m.graph, a), b)])
  {
    assert [a, b][..1] == [a];
    JoinOne(a);
  }

  /** Ingesting a trigram increments the dictionary of its joined first two tokens. */
  lemma AddTrigram(m: Model, a: string, b: string, c: string)
    requires Valid(m) && m.n == 3
    ensures AddNGram(m, [a, b, c]).Ok?
    ensures AddNGram(m, [a, b, c]).value == m.(graph := m.graph[a + b := Increment(SuffixesOf(m.graph, a + b), c)])
  {
    assert [a, b, c][..2] == [a, b];
    JoinTwo(a, b);
  }

  /** The order-2 model trained on ("the", "cat") once and ("the", "dog") twice. */
  const PetModel := Model(2, map["the" := [("cat", 1), ("dog", 2)]])

  /** The first observation of ("the", "cat") opens the dictionary of "the". */
  lemma PetFirst()
    ensures New(2) == Ok(Model(2, map[]))
    ensures AddNGram(Model(2, map[]), ["the", "cat"]) == Ok(Model(2, map["the" := [("cat", 1)]]))
  {
    AddBigram(Model(2, map[]), "the", "cat");
  }

  /** A first ("the", "dog") is appended after "cat". */
  lemma PetSecond()
    ensures Valid(Model(2, map["the" := [("cat", 1)]]))
    ensures AddNGram(Model(2, map["the" := [("cat", 1)]]), ["the", "dog"])
      == Ok(Model(2, map["the" := [("cat", 1), ("dog", 1)]]))
  {
    assert WellFormed([("cat", 1)]);
    AddBigram(Model(2, map["the" := [("cat", 1)]]), "the", "dog");
    assert [("cat", 1)][1..] == [];
    assert Increment([("cat", 1)], "dog") == [("cat", 1), ("dog", 1)];
    assert map["the" := [("cat", 1)]]["the" := [("cat", 1), ("dog", 1)]] == map["the" := [("cat", 1), ("dog", 1)]];
  }

  /** A second ("the", "dog") raises its count in place. */
  lemma PetThird()
    ensures Valid(Model(2, map["the" := [("cat", 1), ("dog", 1)]]))
    ensures AddNGram(Model(2, map["the" := [("cat", 1), ("dog", 1)]]), ["the", "dog"]) == Ok(PetModel)
  {
    assert WellFormed([("cat", 1), ("dog", 1)]);
    AddBigram(Model(2, map["the" := [("cat", 1), ("dog", 1)]]), "the", "dog");
    assert [("cat", 1), ("dog", 1)][1..] == [("dog", 1)];
    assert AddCount([("dog", 1)], "dog", 1) == [("dog", 2)];
    assert Increment([("cat", 1), ("dog", 1)], "dog") == [("cat", 1), ("dog", 2)];
    assert map["the" := [("cat", 1), ("dog", 1)]]["the" := [("cat", 1), ("dog", 2)]] == PetModel.graph;
  }

  /** Ingesting ("the", "cat"), ("the", "dog"), ("the", "dog") into an empty order-2 model yields `PetModel`. */
  lemma PetCorpus()
    ensures New(2).Ok?
    ensures var m0 := New(2).value;
      && AddNGram(m0, ["the", "cat"]).Ok?
      && var m1 := AddNGram(m0, ["the", "cat"]).value;
      && AddNGram(m1, ["the", "dog"]).Ok?
      && var m2 := AddNGram(m1, ["the", "dog"]).value;
      && AddNGram(m2, ["the", "dog"]) == Ok(PetModel)
  {
    PetFirst();
    PetSecond();
    PetThird();
  }

  /** One "cat" against two "dog"s: probabilities 1/3 and 2/3, in insertion order. */
  lemma CatAndDog()
    ensures GetSuffixes(PetModel, ["the"]) == Ok([("cat", 1.0 / 3.0), ("dog", 2.0 / 3.0)])
  {
    var c := [("cat", 1), ("dog", 2)];
    assert WellFormed(c);
    assert Valid(PetModel);
    assert Total(c) == 3;
    assert Normalize(c, 3.0) == [("cat", 1.0 / 3.0), ("dog", 2.0 / 3.0)];
    JoinOne("the");
  }

  /** The order-3 model trained on abc, abc, abd. */
  const Trigram := Model(3, map["ab" := [("c", 2), ("d", 1)]])

  /** The first abc opens the dictionary of the joined prefix "ab". */
  lemma TrigramFirst()
    ensures New(3) == Ok(Model(3, map[]))
    ensures AddNGram(Model(3, map[]), ["a", "b", "c"]) == Ok(Model(3, map["ab" := [("c", 1)]]))
  {
    assert "a" + "b" == "ab";
    AddTrigram(Model(3, map[]), "a", "b", "c");
  }

  /** The second abc raises the count of "c". */
  lemma TrigramSecond()
    ensures Valid(Model(3, map["ab" := [("c", 1)]]))
    ensures AddNGram(Model(3, map["ab" := [("c", 1)]]), ["a", "b", "c"]) == Ok(Model(3, map["ab" := [("c", 2)]]))
  {
    assert "a" + "b" == "ab";
    assert WellFormed([("c", 1)]);
    AddTrigram(Model(3, map["ab" := [("c", 1)]]), "a", "b", "c");
    assert Increment([("c", 1)], "c") == [("c", 2)];
    assert map["ab" := [("c", 1)]]["ab" := [("c", 2)]] == map["ab" := [("c", 2)]];
  }

  /** abd appends "d" after "c". */
  lemma TrigramThird()
    ensures Valid(Model(3, map["ab" := [("c", 2)]]))
    ensures AddNGram(Model(3, map["ab" := [("c", 2)]]), ["a", "b", "d"]) == Ok(Trigram)
  {
    assert "a" + "b" == "ab";
    assert WellFormed([("c", 2)]);
    AddTrigram(Model(3, map["ab" := [("c", 2)]]), "a", "b", "d");
    assert [("c", 2)][1..] == [];
    assert Increment([("c", 2)], "d") == [("c", 2), ("d", 1)];
    assert map["ab" := [("c", 2)]]["ab" := [("c", 2), ("d", 1)]] == Trigram.graph;
  }

  /** Ingesting abc, abc, abd into an empty order-3 model yields `Trigram`. */
  lemma TrigramCorpus()
    ensures New(3).Ok?
    ensures var m0 := New(3).value;
      && AddNGram(m0, ["a", "b", "c"]).Ok?
      && var m1 := AddNGram(m0, ["a", "b", "c"]).value;
      && AddNGram(m1, ["a", "b", "c"]).Ok?
      && var m2 := AddNGram(m1, ["a", "b", "c"]).value;
      && AddNGram(m2, ["a", "b", "d"]) == Ok(Trigram)
  {
    TrigramFirst();
    TrigramSecond();
    TrigramThird();
  }

  /** Order 3 after abc, abc, abd: "c" has probability 2/3 and "d" 1/3. */
  lemma TrigramDistribution()
    ensures GetSuffixes(Trigram, ["a", "b"]) == Ok([("c", 2.0 / 3.0), ("d", 1.0 / 3.0)])
  {
    JoinTwo("a", "b");
    assert "a" + "b" == "ab";
    var c := [("c", 2), ("d", 1)];
    assert Total(c) == 3;
    assert Normalize(c, 3.0) == [("c", 2.0 / 3.0), ("d", 1.0 / 3.0)];
  }

  /** The trained trigram model satisfies the class invariant. */
  lemma TrigramValid()
    ensures Valid(Trigram)
  {
    assert WellFormed([("c", 2), ("d", 1)]);
  }

  /** After ("a", "b"), thresholds up to 2/3 draw "c", thresholds up to 1
      draw "d", and larger ones fall through to None. */
  lemma TrigramDraws(t: real)
    ensures t <= 2.0 / 3.0 ==> RandomSuffix(Trigram, ["a", "b"], t) == Ok(Some("c"))
    ensures 2.0 / 3.0 < t <= 1.0 ==> RandomSuffix(Trigram, ["a", "b"], t) == Ok(Some("d"))
    ensures 1.0 < t ==> RandomSuffix(Trigram, ["a", "b"], t) == Ok(None)
  {
    TrigramValid();
    TrigramDistribution();
    var d: Dist := [("c", 2.0 / 3.0), ("d", 1.0 / 3.0)];
    assert RandomSuffix(Trigram, ["a", "b"], t) == Ok(SelectFrom(d, t, 0.0));
    assert d[1..] == [("d", 1.0 / 3.0)] && d[1..][1..] == [];
    assert SelectFrom(d, t, 0.0) == if t <= 2.0 / 3.0 then Some("c") else SelectFrom(d[1..], t, 2.0 / 3.0);
    assert SelectFrom(d[1..], t, 2.0 / 3.0) == if t <= 1.0 then Some("d") else SelectFrom(d[1..][1..], t, 1.0);
  }

  /** A step whose draw from the graph is a non-terminal suffix `s` shifts `s` into the window. */
  lemma DrawStep(m: Model, w: Walker, t: real, s: string)
    requires Valid(m) && Inv(m.n, w) && AllPresent(w.window)
    requires Join(Unwrap(w.window)) in m.graph
    requires Select(SuffixDistribution(m.graph, Join(Unwrap(w.window))), t) == Some(s) && s != ""
    ensures Step(m, w, t) == Continue(Walker(w.window[1..] + [Some(s)], w.out + [Some(s)]))
  {
  }

  /** The joined prefix of ("a", "b") is "ab". */
  lemma TrigramKey()
    ensures Join(["a", "b"]) == "ab"
  {
    JoinTwo("a", "b");
    assert "a" + "b" == "ab";
  }

  /** At "ab", thresholds up to 2/3 select "c". */
  lemma TrigramSelect(t: real)
    requires t <= 2.0 / 3.0
    ensures Select(SuffixDistribution(Trigram.graph, "ab"), t) == Some("c")
  {
    var c := [("c", 2), ("d", 1)];
    assert Total(c) == 3;
    assert Normalize(c, 3.0) == [("c", 2.0 / 3.0), ("d", 1.0 / 3.0)];
  }

  /** A first step that continues hands the remaining thresholds to the next state. */
  lemma WalkHead(m: Model, w: Walker, ts: seq<real>, w1: Walker)
    requires Valid(m) && Inv(m.n, w) && ts != [] && Step(m, w, ts[0]) == Continue(w1)
    ensures Walk(m, w, ts) == Walk(m, w1, ts[1..])
  {
    assert ts == [ts[0]] + ts[1..];
    WalkContinues(m, w, ts[0], ts[1..], w1);
  }

  /** The start state of the walk from ("a", "b"). */
  lemma TrigramStart()
    ensures var start := [Some("a"), Some("b")];
      && Inv(3, Walker(start, start)) && AllPresent(start) && Unwrap(start) == ["a", "b"]
  {
    assert Lift(["a", "b"]) == [Some("a"), Some("b")];
    UnwrapLift(["a", "b"]);
  }

  /** Drawing "c" from ("a", "b") shifts the window to ("b", "c"). */
  lemma TrigramShift()
    ensures [Some("a"), Some("b")][1..] + [Some("c")] == [Some("b"), Some("c")]
    ensures [Some("a"), Some("b")] + [Some("c")] == [Some("a"), Some("b"), Some("c")]
  {
  }

  /** First step of the walk from ("a", "b") with a threshold up to 2/3: draws "c". */
  lemma TrigramFirstStep(t: real)
    requires t <= 2.0 / 3.0
    ensures var start := [Some("a"), Some("b")];
      Step(Trigram, Walker(start, start), t)
      == Continue(Walker([Some("b"), Some("c")], [Some("a"), Some("b"), Some("c")]))
  {
    TrigramValid();
    TrigramStart();
    TrigramShift();
    TrigramKey();
    TrigramSelect(t);
    DrawStep(Trigram, Walker([Some("a"), Some("b")], [Some("a"), Some("b")]), t, "c");
  }

  /** Second step: the prefix "bc" was never recorded, so None is drawn. */
  lemma TrigramSecondStep(t: real)
    ensures Step(Trigram, Walker([Some("b"), Some("c")], [Some("a"), Some("b"), Some("c")]), t)
      == Continue(Walker([Some("c"), None], [Some("a"), Some("b"), Some("c"), None]))
  {
    var w := Walker([Some("b"), Some("c")], [Some("a"), Some("b"), Some("c")]);
    TrigramValid();
    assert Lift(["b", "c"]) == w.window;
    UnwrapLift(["b", "c"]);
    JoinTwo("b", "c");
    assert "b" + "c" == "bc";
    StepAtUnseenPrefix(Trigram, w, t);
  }

  /** The walk from ("a", "b") starts with the prefix as window and output. */
  lemma TrigramWalkStart(ts: seq<real>)
    ensures RandomSequence(Trigram, ["a", "b"], ts)
      == Ok(Walk(Trigram, Walker([Some("a"), Some("b")], [Some("a"), Some("b")]), ts))
  {
    TrigramValid();
    assert Lift(["a", "b"]) == [Some("a"), Some("b")];
  }

  /** The corpus abc, abc, abd never trained the terminal token: with one
      threshold up to 2/3 the walk draws "c" and runs out ... */
  lemma TrigramWalkDrawsC(t: real)
    requires t <= 2.0 / 3.0
    ensures RandomSequence(Trigram, ["a", "b"], [t]) == Ok(OutOfFuel([Some("a"), Some("b"), Some("c")]))
  {
    var start := [Some("a"), Some("b")];
    var w1 := Walker([Some("b"), Some("c")], [Some("a"), Some("b"), Some("c")]);
    TrigramValid();
    TrigramStart();
    TrigramWalkStart([t]);
    TrigramFirstStep(t);
    WalkHead(Trigram, Walker(start, start), [t], w1);
    assert [t][1..] == [];
  }

  /** From window ("b", "c") the walk draws None and then fails. */
  lemma TrigramWalkTail(t1: real, t2: real)
    ensures Walk(Trigram, Walker([Some("b"), Some("c")], [Some("a"), Some("b"), Some("c")]), [t1, t2]) == Failed
  {
    var w1 := Walker([Some("b"), Some("c")], [Some("a"), Some("b"), Some("c")]);
    var w2 := Walker([Some("c"), None], [Some("a"), Some("b"), Some("c"), None]);
    TrigramValid();
    TrigramSecondStep(t1);
    assert [t1, t2] == [t1] + [t2];
    WalkContinues(Trigram, w1, t1, [t2], w2);
    assert !AllPresent(w2.window) by {
      assert w2.window[1] == None;
    }
    assert [t2] == [t2] + [];
    WalkEnds(Trigram, w2, t2, []);
  }

  /** The walk from ("a", "b") with three thresholds, the first up to 2/3:
      "c", then None, then the failure. */
  lemma TrigramWalk(t1: real, t2: real, t3: real)
    requires t1 <= 2.0 / 3.0
    ensures Walk(Trigram, Walker([Some("a"), Some("b")], [Some("a"), Some("b")]), [t1, t2, t3]) == Failed
  {
    var start := [Some("a"), Some("b")];
    var w1 := Walker([Some("b"), Some("c")], [Some("a"), Some("b"), Some("c")]);
    TrigramValid();
    TrigramStart();
    TrigramFirstStep(t1);
    WalkHead(Trigram, Walker(start, start), [t1, t2, t3], w1);
    assert [t1, t2, t3][1..] == [t2, t3];
    TrigramWalkTail(t2, t3);
  }

  /** ... and with two more thresholds it reaches the unseen prefix "bc",
      appends None and fails. */
  lemma TrigramWalkFails(t1: real, t2: real, t3: real)
    requires t1 <= 2.0 / 3.0
    ensures RandomSequence(Trigram, ["a", "b"], [t1, t2, t3]) == Ok(Failed)
  {
    TrigramWalkStart([t1, t2, t3]);
    TrigramWalk(t1, t2, t3);
  }

  /** The order-2 model trained on ("the", "cat") and ("cat", ""): the
      terminal token follows "cat". */
  const CatModel := Model(2, map["the" := [("cat", 1)], "cat" := [("", 1)]])

  /** Ingesting ("the", "cat") and ("cat", "") into an empty order-2 model yields `CatModel`. */
  lemma CatCorpus()
    ensures New(2).Ok?
    ensures var m0 := New(2).value;
      && AddNGram(m0, ["the", "cat"]).Ok?
      && var m1 := AddNGram(m0, ["the", "cat"]).value;
      && AddNGram(m1, ["cat", ""]) == Ok(CatModel)
  {
    var m0 := New(2).value;
    AddBigram(m0, "the", "cat");
    var m1 := AddNGram(m0, ["the", "cat"]).value;
    AddBigram(m1, "cat", "");
  }

  /** The trained cat model satisfies the class invariant. */
  lemma CatValid()
    ensures Valid(CatModel)
  {
    assert WellFormed([("cat", 1)]) && WellFormed([("", 1)]);
  }

  /** From "the", any threshold draws "cat". */
  lemma CatFirstStep(t: real)
    requires IsThreshold(t)
    ensures Step(CatModel, Walker([Some("the")], [Some("the")]), t)
      == Continue(Walker([Some("cat")], [Some("the"), Some("cat")]))
  {
    var w := Walker([Some("the")], [Some("the")]);
    assert Lift(["the"]) == w.window;
    UnwrapLift(["the"]);
    JoinOne("the");
    assert Total([("cat", 1)]) == 1;
    assert Normalize([("cat", 1)], 1.0) == [("cat", 1.0)];
  }

  /** From "cat", any threshold draws the terminal token and the walk stops. */
  lemma CatSecondStep(t: real)
    requires IsThreshold(t)
    ensures Step(CatModel, Walker([Some("cat")], [Some("the"), Some("cat")]), t) == Stop(["the", "cat", ""])
  {
    var w := Walker([Some("cat")], [Some("the"), Some("cat")]);
    assert Lift(["cat"]) == w.window && Lift(["the", "cat"]) == w.out;
    UnwrapLift(["cat"]);
    UnwrapLift(["the", "cat"]);
    JoinOne("cat");
    assert Total([("", 1)]) == 1;
    assert Normalize([("", 1)], 1.0) == [("", 1.0)];
  }

  /** The walk from "the" starts with the prefix as window and output. */
  lemma CatWalkStart(ts: seq<real>)
    ensures RandomSequence(CatModel, ["the"], ts) == Ok(Walk(CatModel, Walker([Some("the")], [Some("the")]), ts))
  {
    assert Lift(["the"]) == [Some("the")];
  }

  /** Two steps, the second of which stops, end the walk with its tokens. */
  lemma TwoStepWalk(m: Model, w: Walker, t1: real, t2: real, w1: Walker)
    requires Valid(m) && Inv(m.n, w) && Step(m, w, t1) == Continue(w1) && Step(m, w1, t2).Stop?
    ensures Walk(m, w, [t1, t2]) == Terminated(Step(m, w1, t2).tokens)
  {
    assert [t1, t2] == [t1] + [t2];
    WalkContinues(m, w, t1, [t2], w1);
    assert [t2] == [t2] + [];
    WalkEnds(m, w1, t2, []);
  }

  /** The walk from "the": "cat" is drawn, then the terminal token ends it. */
  lemma CatWalk(t1: real, t2: real)
    requires IsThreshold(t1) && IsThreshold(t2)
    ensures Walk(CatModel, Walker([Some("the")], [Some("the")]), [t1, t2]) == Terminated(["the", "cat", ""])
  {
    CatValid();
    CatFirstStep(t1);
    CatSecondStep(t2);
    TwoStepWalk(CatModel, Walker([Some("the")], [Some("the")]), t1, t2, Walker([Some("cat")], [Some("the"), Some("cat")]));
  }

  /** With the terminal token trained, the walk from "the" returns ["the", "cat", ""]. */
  lemma TerminatingWalk(t1: real, t2: real)
    requires IsThreshold(t1) && IsThreshold(t2)
    ensures RandomSequence(CatModel, ["the"], [t1, t2]) == Ok(Terminated(["the", "cat", ""]))
  {
    CatWalkStart([t1, t2]);
    CatWalk(t1, t2);
  }
}
